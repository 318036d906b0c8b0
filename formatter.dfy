/** Money in Brazilian notation: `parseBrazilianCurrency` reads "1.234,56" (a dot between
    thousands, a comma before the cents) as 1234.56, and `formatCurrency` falls back to
    "R$ 0,00" for anything that is not a number. */
module Formatter {
  import opened Js
  import opened JsNumbers
  import opened Seqs

  /** `s.replace(/\./g, '')`: every '.' removed, the other characters kept in order. */
  function RemoveDots(s: string): (r: string)
    ensures |r| <= |s|
  {
    Filter(s, c => c != '.')
  }

  /** `s.replace(',', '.')`: a string pattern replaces only its first occurrence. */
  function ReplaceFirstComma(s: string): (r: string)
    ensures |r| == |s|
  {
    if s == [] then []
    else if s[0] == ',' then ['.'] + s[1..]
    else [s[0]] + ReplaceFirstComma(s[1..])
  }

  /** The text `parseFloat` is given: dots removed, then the first comma made a point. */
  function Normalize(s: string): string {
    ReplaceFirstComma(RemoveDots(s))
  }

  /** `parseBrazilianCurrency` of src/utils/formatter.js: a number comes back as it is
      (NaN included), any other non-string is 0, and a string is normalised and read by
      `parseFloat`, with 0 when it has no numeric prefix. */
  function ParseBrazilianCurrency(v: JsValue): (r: JsNumber)
    ensures v.Num? ==> r == v.n
    ensures v.Undefined? || v.Null? ==> r == Finite(0.0)
    ensures v.Str? ==> r.Finite?
  {
    match v
    case Num(n) => n
    case Str(s) => Finite(OrZero(ParseFloat(Normalize(s))))
    case _ => Finite(0.0)
  }

  /** The copy of `parseBrazilianCurrency` in src/App.js: identical on strings, but a
      non-string goes through `parseFloat(value) || 0`. */
  function ParseBrazilianCurrencyInApp(v: JsValue): (r: real)
    ensures v.Num? ==> r == OrZero(v.n)
    ensures v.Undefined? || v.Null? ==> r == 0.0
  {
    match v
    case Str(s) => OrZero(ParseFloat(Normalize(s)))
    case _ => OrZero(ParseFloatValue(v))
  }

  /** The two copies agree on every input once NaN is read as 0. */
  lemma ParsersAgree(v: JsValue)
    ensures ParseBrazilianCurrencyInApp(v) == OrZero(ParseBrazilianCurrency(v))
  {
  }

  /** What `formatCurrency` shows: "R$ 0,00" when `Number(value)` is NaN, otherwise the
      amount in the pt-BR currency format (the formatting itself is not modelled). */
  datatype CurrencyText = ZeroReais | Formatted(amount: real)

  function FormatCurrency(v: JsValue): (r: CurrencyText)
    ensures r == ZeroReais <==> ToNumber(v).NaN?
    ensures r.Formatted? ==> r.amount == ToNumber(v).r
  {
    match ToNumber(v)
    case NaN => ZeroReais
    case Finite(x) => Formatted(x)
  }

  /** A parsed amount of a string always reaches the formatter as a number, so the
      "R$ 0,00" fallback never replaces it. */
  lemma FormatParsedString(s: string)
    ensures FormatCurrency(Num(ParseBrazilianCurrency(Str(s)))) == Formatted(OrZero(ParseFloat(Normalize(s))))
  {
  }

  // ---------------------------------------------------------------------------
  // The rewrite

  lemma RemoveDotsMembership(s: string)
    ensures forall c :: c in RemoveDots(s) <==> c in s && c != '.'
  {
    FilterMembership(s, c => c != '.');
  }

  lemma RemoveDotsAppend(a: string, b: string)
    ensures RemoveDots(a + b) == RemoveDots(a) + RemoveDots(b)
  {
    FilterAppend(a, b, c => c != '.');
  }

  /** Text without dots is left alone. */
  lemma RemoveDotsNoop(s: string)
    requires '.' !in s
    ensures RemoveDots(s) == s
  {
    FilterKeepsAll(s, c => c != '.');
  }

  /** Only the first comma is replaced: the text before it is kept, and so is everything
      after it, later commas included. */
  lemma {:induction false} ReplaceFirstCommaAt(a: string, b: string)
    requires ',' !in a
    ensures ReplaceFirstComma(a + [','] + b) == a + ['.'] + b
  {
    if a != [] {
      assert (a + [','] + b)[1..] == a[1..] + [','] + b;
      ReplaceFirstCommaAt(a[1..], b);
    }
  }

  /** Text without a comma is left alone. */
  lemma {:induction false} ReplaceFirstCommaNoop(s: string)
    requires ',' !in s
    ensures ReplaceFirstComma(s) == s
  {
    if s != [] {
      ReplaceFirstCommaNoop(s[1..]);
    }
  }

  /** Removing the dots of a signed amount keeps its sign, comma and cents. */
  lemma RemoveDotsDecimal(sign: string, w: string, rest: string)
    requires '.' !in sign && '.' !in rest
    ensures RemoveDots(sign + w + "," + rest) == (sign + RemoveDots(w)) + [','] + rest
  {
    RemoveDotsNoop(sign);
    RemoveDotsNoop("," + rest);
    RemoveDotsAppend(sign, w);
    RemoveDotsAppend(sign + w, "," + rest);
    assert sign + w + "," + rest == (sign + w) + ("," + rest);
  }

  /** The sign, the thousands part and the cents part of a normalised amount. */
  lemma NormalizeDecimal(negative: bool, w: string, f: string, tail: string)
    requires AllDigits(f) && ',' !in RemoveDots(w) && '.' !in tail
    ensures Normalize((if negative then "-" else "") + w + "," + f + tail)
         == (if negative then "-" else "") + (RemoveDots(w) + "." + f + tail)
  {
    var sign := if negative then "-" else "";
    var rest := f + tail;
    assert '.' !in f by {
      forall i | 0 <= i < |f| ensures f[i] != '.' {
        assert IsDigit(f[i]);
      }
    }
    var a := sign + RemoveDots(w);
    var x := sign + w + "," + f + tail;
    assert RemoveDots(x) == a + [','] + rest by {
      assert '.' !in rest;
      assert x == sign + w + "," + rest;
      RemoveDotsDecimal(sign, w, rest);
    }
    assert ReplaceFirstComma(a + [','] + rest) == a + ['.'] + rest by {
      assert ',' !in a;
      ReplaceFirstCommaAt(a, rest);
    }
    assert a + ['.'] + rest == sign + (RemoveDots(w) + "." + f + tail);
  }

  /** A Brazilian-notation amount with cents: an optional minus sign, digits with dots
      anywhere among them, a comma and the cents digits, followed by text that does not
      continue the number, is worth its digits. */
  lemma BrazilianDecimal(negative: bool, w: string, f: string, tail: string, x: real)
    requires |RemoveDots(w)| > 0 && AllDigits(RemoveDots(w)) && AllDigits(f)
    requires '.' !in tail && (tail == [] || !(IsDigit(tail[0]) || tail[0] == 'e' || tail[0] == 'E'))
    requires x == NatValue(RemoveDots(w)) as real + NatValue(f) as real / Pow10(|f|)
    ensures ParseBrazilianCurrency(Str((if negative then "-" else "") + w + "," + f + tail))
         == Finite(Signed(negative, x))
  {
    var ds := RemoveDots(w);
    assert ',' !in ds by {
      forall i | 0 <= i < |ds| ensures ds[i] != ',' {
        assert IsDigit(ds[i]);
      }
    }
    NormalizeDecimal(negative, w, f, tail);
    ParsePointNumeral(negative, ds, f, tail, x);
  }

  /** A Brazilian-notation amount without cents: dots between the thousands are dropped. */
  lemma BrazilianInteger(negative: bool, w: string)
    requires |RemoveDots(w)| > 0 && AllDigits(RemoveDots(w))
    ensures ParseBrazilianCurrency(Str((if negative then "-" else "") + w))
         == Finite(Signed(negative, NatValue(RemoveDots(w)) as real))
  {
    var sign := if negative then "-" else "";
    var ds := RemoveDots(w);
    assert ',' !in ds by {
      forall i | 0 <= i < |ds| ensures ds[i] != ',' {
        assert IsDigit(ds[i]);
      }
    }
    RemoveDotsNoop(sign);
    RemoveDotsAppend(sign, w);
    ReplaceFirstCommaNoop(sign + ds);
    assert sign + ds == sign + (ds + "");
    ParseIntegerNumeral(negative, ds, "");
  }

  // ---------------------------------------------------------------------------
  // Worked examples

  /** The dots of "1.234" and "1.500" come out. */
  lemma DotsOfThousands(d: char, ds: string)
    requires d != '.' && '.' !in ds
    ensures RemoveDots([d] + "." + ds) == [d] + ds
  {
    RemoveDotsAppend([d] + ".", ds);
    RemoveDotsAppend([d], ".");
    RemoveDotsNoop([d]);
    RemoveDotsNoop(ds);
  }

  /** A four-digit numeral and its value. */
  lemma Thousands(ds: string, n: nat)
    requires 1000 <= n < 10000 && NatDigits(n) == ds
    ensures AllDigits(ds) && NatValue(ds) == n
  {
    NatDigitsValue(n);
  }

  /** The digits of "1.234,56". */
  lemma ThousandsAndCentsDigits()
    ensures RemoveDots("1.234") == "1234" && AllDigits("1234") && AllDigits("56")
    ensures NatValue("1234") == 1234 && NatValue("56") == 56 && Pow10(|"56"|) == 100.0
  {
    DotsOf1234();
    Digits1234();
    Digits56();
    assert Pow10(1) == 10.0;
  }

  lemma DotsOf1234()
    ensures RemoveDots("1.234") == "1234"
  {
    DotsOfThousands('1', "234");
    assert ['1'] + "." + "234" == "1.234";
  }

  lemma Digits1234()
    ensures AllDigits("1234") && NatValue("1234") == 1234
  {
    Thousands("1234", 1234);
  }

  lemma Digits56()
    ensures AllDigits("56") && NatValue("56") == 56
  {
    NatDigitsValue(56);
    assert NatDigits(56) == "56";
  }

  /** "1.234,56" is 1234.56. */
  lemma ThousandsAndCents()
    ensures ParseBrazilianCurrency(Str("1.234,56")) == Finite(1234.56)
  {
    ThousandsAndCentsDigits();
    assert "" + "1.234" + "," + "56" + "" == "1.234,56";
    BrazilianDecimal(false, "1.234", "56", "", 1234.56);
  }

  /** The empty string and text without digits are 0, never NaN. */
  lemma NoNumberIsZero()
    ensures ParseBrazilianCurrency(Str("")) == Finite(0.0)
    ensures ParseBrazilianCurrency(Str("abc")) == Finite(0.0)
  {
    RemoveDotsNoop("");
    ReplaceFirstCommaNoop("");
    ParseFloatNoDigits("");
    RemoveDotsNoop("abc");
    ReplaceFirstCommaNoop("abc");
    ParseFloatNoDigits("abc");
  }

  /** A currency symbol in front hides the number: "R$ 10,00" is 0. */
  lemma CurrencySymbolIsZero()
    ensures ParseBrazilianCurrency(Str("R$ 10,00")) == Finite(0.0)
  {
    assert Normalize("R$ 10,00") == "R$ 10.00" by {
      NormalizeCurrencySymbol();
    }
    assert ParseFloat("R$ 10.00") == NaN by {
      ParseFloatNoDigits("R$ 10.00");
    }
  }

  lemma NormalizeCurrencySymbol()
    ensures Normalize("R$ 10,00") == "R$ 10.00"
  {
    NormalizeOneComma("R$ 10", "00");
    assert "R$ 10" + [','] + "00" == "R$ 10,00";
    assert "R$ 10" + ['.'] + "00" == "R$ 10.00";
  }

  /** Text with no dot and a single comma has that comma made a point. */
  lemma NormalizeOneComma(a: string, b: string)
    requires '.' !in a && '.' !in b && ',' !in a
    ensures Normalize(a + [','] + b) == a + ['.'] + b
  {
    assert '.' !in a + [','] + b;
    RemoveDotsNoop(a + [','] + b);
    ReplaceFirstCommaAt(a, b);
  }

  /** "1,2,3" is 1.2: the second comma survives the rewrite and ends the number. */
  lemma SecondCommaEndsNumber()
    ensures ParseBrazilianCurrency(Str("1,2,3")) == Finite(1.2)
  {
    assert RemoveDots("1") == "1" by {
      RemoveDotsNoop("1");
    }
    assert AllDigits("1") && AllDigits("2");
    assert NatValue("1") == 1 && NatValue("2") == 2;
    assert "" + "1" + "," + "2" + ",3" == "1,2,3";
    assert Pow10(|"2"|) == 10.0;
    BrazilianDecimal(false, "1", "2", ",3", 1.2);
  }

  /** The digits of "-1.500,75". */
  lemma NegativeAmountDigits()
    ensures RemoveDots("1.500") == "1500" && AllDigits("1500") && AllDigits("75")
    ensures NatValue("1500") == 1500 && NatValue("75") == 75 && Pow10(|"75"|) == 100.0
  {
    assert RemoveDots("1.500") == "1500" by {
      DotsOfThousands('1', "500");
      assert ['1'] + "." + "500" == "1.500";
    }
    Thousands("1500", 1500);
    assert NatValue("75") == 75 by {
      NatDigitsValue(75);
      assert NatDigits(75) == "75";
    }
    assert Pow10(1) == 10.0;
  }

  /** A leading minus sign makes the amount negative; nothing clamps it. */
  lemma NegativeAmount()
    ensures ParseBrazilianCurrency(Str("-1.500,75")) == Finite(-1500.75)
  {
    NegativeAmountDigits();
    assert "-" + "1.500" + "," + "75" + "" == "-1.500,75";
    BrazilianDecimal(true, "1.500", "75", "", 1500.75);
  }
}
