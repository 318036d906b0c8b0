/** JavaScript's string-to-number conversions as exact arithmetic:
    `parseFloat` (the longest numeric prefix after leading white space) and
    `Number(v)` (the whole trimmed string must be numeric). */
module JsNumbers {
  import opened Wrappers
  import opened Js

  predicate IsDigit(c: char) {
    '0' <= c <= '9'
  }

  /** The value of a decimal digit (0 for any other character). */
  function DigitValue(c: char): (d: nat)
    ensures d < 10
  {
    if IsDigit(c) then c as int - '0' as int else 0
  }

  function DigitChar(d: nat): (c: char)
    requires d < 10
    ensures IsDigit(c) && DigitValue(c) == d
  {
    ('0' as int + d) as char
  }

  predicate AllDigits(s: string) {
    forall i :: 0 <= i < |s| ==> IsDigit(s[i])
  }

  /** The number of decimal digits `s` starts with. */
  function DigitRun(s: string): (n: nat)
    ensures n <= |s|
  {
    if s != [] && IsDigit(s[0]) then 1 + DigitRun(s[1..]) else 0
  }

  /** The value of a string of decimal digits, most significant first. */
  function NatValue(ds: string): nat
  {
    if ds == [] then 0 else NatValue(ds[..|ds| - 1]) * 10 + DigitValue(ds[|ds| - 1])
  }

  function Pow10(n: nat): (r: real)
    ensures r >= 1.0
  {
    if n == 0 then 1.0 else 10.0 * Pow10(n - 1)
  }

  /** `m` times ten to the power `e`. */
  function Scale(m: real, e: int): (r: real)
    ensures m >= 0.0 ==> r >= 0.0
  {
    if e >= 0 then m * Pow10(e) else m / Pow10(-e)
  }

  /** `x`, negated when `negative`. */
  function Signed(negative: bool, x: real): real {
    if negative then -x else x
  }

  /** A recognised numeric prefix: its sign, the values of the digits before and after the
      point (and how many digits follow the point), the exponent, and how many characters
      it spans. */
  datatype Numeral = Numeral(negative: bool, whole: nat, fraction: nat, fractionDigits: nat, exponent: int, length: nat)
  {
    /** The exact value the numeral denotes:
        (whole + fraction / 10^fractionDigits) * 10^exponent, signed. */
    function Value(): real {
      Signed(negative, Scale(whole as real + fraction as real / Pow10(fractionDigits), exponent))
    }
  }

  /** An exponent part (`e` or `E`, an optional sign, at least one digit) at the start of
      `s`, as (exponent, length); (0, 0) when there is none. */
  function ScanExponent(s: string): (r: (int, nat))
    ensures r.1 <= |s|
    ensures r.1 == 0 ==> r.0 == 0
    ensures r.1 > 0 ==> s[0] == 'e' || s[0] == 'E'
  {
    if s == [] || (s[0] != 'e' && s[0] != 'E') then (0, 0)
    else
      var signLen := if |s| > 1 && (s[1] == '+' || s[1] == '-') then 1 else 0;
      var t := s[1 + signLen..];
      var digits := DigitRun(t);
      if digits == 0 then (0, 0)
      else
        var k: int := NatValue(t[..digits]);
        var e: int := if signLen == 1 && s[1] == '-' then -k else k;
        (e, 1 + signLen + digits)
  }

  /** `s` begins like an unsigned decimal literal: a digit, or a point and a digit. */
  predicate StartsNumeric(s: string) {
    |s| > 0 && (IsDigit(s[0]) || (s[0] == '.' && |s| > 1 && IsDigit(s[1])))
  }

  /** The mantissa `whole.fraction`, `length` characters long at the start of `s`,
      extended by the exponent part that follows it, if any. */
  function WithExponent(whole: string, fraction: string, s: string, length: nat): (r: Numeral)
    requires length <= |s|
    ensures length <= r.length <= |s|
    ensures !r.negative
  {
    var exponent := ScanExponent(s[length..]);
    Numeral(false, NatValue(whole), NatValue(fraction), |fraction|, exponent.0, length + exponent.1)
  }

  /** The numeral whose integer digits `s[..i]` are followed by a point at `s[i]`: the
      digits after the point and the exponent complete it; a lone point is not a numeral. */
  function ScanAfterPoint(s: string, i: nat): (r: Option<Numeral>)
    requires i < |s|
  {
    var t := s[i + 1..];
    var j := DigitRun(t);
    if i == 0 && j == 0 then None
    else Some(WithExponent(s[..i], t[..j], s, i + 1 + j))
  }

  /** The longest prefix of `s` that is an unsigned decimal literal
      (digits, an optional point with digits, an optional exponent). */
  function ScanUnsigned(s: string): (r: Option<Numeral>)
    ensures r.None? <==> !StartsNumeric(s)
    ensures r.Some? ==> 0 < r.value.length <= |s| && !r.value.negative
  {
    var i := DigitRun(s);
    if i < |s| && s[i] == '.' then ScanAfterPoint(s, i)
    else if i == 0 then None
    else Some(WithExponent(s[..i], "", s, i))
  }

  /** The longest prefix of `s` that is a StrDecimalLiteral: an optional sign and an
      unsigned decimal literal. */
  function ScanDecimal(s: string): (r: Option<Numeral>)
    ensures r.Some? ==> 0 < r.value.length <= |s|
    ensures r.None? <==> !StartsNumeric(if s != [] && (s[0] == '+' || s[0] == '-') then s[1..] else s)
  {
    if s != [] && (s[0] == '+' || s[0] == '-') then
      match ScanUnsigned(s[1..])
      case None => None
      case Some(n) => Some(n.(negative := s[0] == '-', length := n.length + 1))
    else ScanUnsigned(s)
  }

  /** `parseFloat(s)`: the numeric prefix after leading white space, NaN when there is none. */
  function ParseFloat(s: string): (r: JsNumber)
  {
    match ScanDecimal(TrimStart(s))
    case None => NaN
    case Some(n) => Finite(n.Value())
  }

  /** `parseFloat(v)` on any value: `v` is first converted to a string. A number converts
      to a string that parses back to itself; `undefined` and `null` become their names,
      which have no numeric prefix (see `ParseFloatNoDigits`). */
  function ParseFloatValue(v: JsValue): (r: JsNumber)
    ensures v.Num? ==> r == v.n
    ensures v.Str? ==> r == ParseFloat(v.s)
    ensures v.Undefined? || v.Null? ==> r == NaN
    ensures v.Undefined? ==> r == ParseFloat("undefined")
    ensures v.Null? ==> r == ParseFloat("null")
    ensures v.Num? && v.n.Finite? && 0.0 <= v.n.r && v.n.r == v.n.r.Floor as real
            ==> r == ParseFloat(NatDigits(v.n.r.Floor as nat))
  {
    ParseFloatNames();
    if v.Num? && v.n.Finite? && 0.0 <= v.n.r && v.n.r == v.n.r.Floor as real then
      ParseFloatNatDigits(v.n.r.Floor as nat);
      v.n
    else
    match v
    case Num(n) => n
    case Str(s) => ParseFloat(s)
    case Undefined => NaN  // "undefined" has no numeric prefix
    case Null => NaN       // nor has "null"
  }

  /** `n || 0` on a number: NaN (and zero) become zero. */
  function OrZero(n: JsNumber): (r: real)
    ensures n.Finite? ==> r == n.r
    ensures n.NaN? ==> r == 0.0
    ensures r == if Truthy(Num(n)) then n.r else 0.0
  {
    match n
    case NaN => 0.0
    case Finite(x) => x
  }

  /** `Number(s)` for a string: after trimming, the empty string is 0 and anything else
      must be a decimal literal from its first character to its last. */
  function StringToNumber(s: string): (r: JsNumber)
  {
    var t := Trim(s);
    if t == [] then Finite(0.0)
    else
      match ScanDecimal(t)
      case Some(n) => if n.length == |t| then Finite(n.Value()) else NaN
      case None => NaN
  }

  /** `Number(v)`. */
  function ToNumber(v: JsValue): (r: JsNumber)
    ensures v.Num? ==> r == v.n
    ensures v.Undefined? ==> r.NaN?
    ensures v.Null? ==> r == Finite(0.0)
    ensures v.Str? && (forall i :: 0 <= i < |v.s| ==> IsWhitespace(v.s[i])) ==> r == Finite(0.0)
  {
    if v.Str? then TrimBlank(v.s); StringToNumber(v.s)
    else
    match v
    case Undefined => NaN
    case Null => Finite(0.0)
    case Num(n) => n
    case Str(s) => StringToNumber(s)
  }

  // ---------------------------------------------------------------------------
  // Decimal numerals and their values

  /** The canonical decimal digits of `n` (no leading zeros; "0" for zero). */
  function NatDigits(n: nat): (ds: string)
    ensures |ds| > 0 && AllDigits(ds)
  {
    if n < 10 then [DigitChar(n)] else NatDigits(n / 10) + [DigitChar(n % 10)]
  }

  /** Reading the canonical digits of `n` gives back `n`. */
  lemma {:induction false} NatDigitsValue(n: nat)
    ensures NatValue(NatDigits(n)) == n
  {
    if n >= 10 {
      var ds := NatDigits(n);
      assert ds[..|ds| - 1] == NatDigits(n / 10);
      NatDigitsValue(n / 10);
    }
  }

  lemma {:induction false} DigitRunAppend(ds: string, rest: string)
    requires AllDigits(ds)
    ensures DigitRun(ds + rest) == |ds| + DigitRun(rest)
  {
    if ds != [] {
      assert IsDigit(ds[0]);
      assert (ds + rest)[0] == ds[0];
      assert AllDigits(ds[1..]) by {
        forall i | 0 <= i < |ds| - 1 ensures IsDigit(ds[1..][i]) {
          assert ds[1..][i] == ds[i + 1];
        }
      }
      assert (ds + rest)[1..] == ds[1..] + rest;
      DigitRunAppend(ds[1..], rest);
    } else {
      assert ds + rest == rest;
    }
  }

  /** A prefix of digits followed by something else is where the digit run stops. */
  lemma {:induction false} DigitRunStops(ds: string, rest: string)
    requires AllDigits(ds)
    requires rest == [] || !IsDigit(rest[0])
    ensures DigitRun(ds + rest) == |ds|
  {
    DigitRunAppend(ds, rest);
  }

  /** Text that does not start with `e` or `E` has no exponent part. */
  lemma NoExponent(tail: string)
    requires tail == [] || (tail[0] != 'e' && tail[0] != 'E')
    ensures ScanExponent(tail) == (0, 0)
  {
  }

  /** How `ScanUnsigned` reads a numeral with a point, given where its digit runs stop. */
  lemma ScanUnsignedPoint(u: string, i: nat, j: nat)
    requires i < |u| && DigitRun(u) == i && u[i] == '.'
    requires DigitRun(u[i + 1..]) == j && i + j > 0
    ensures ScanUnsigned(u) == Some(WithExponent(u[..i], u[i + 1..][..j], u, i + 1 + j))
  {
  }

  /** How `ScanUnsigned` reads a numeral without a point, given where its digit run stops. */
  lemma ScanUnsignedInteger(u: string, i: nat)
    requires 0 < i == DigitRun(u) && (i == |u| || u[i] != '.')
    ensures ScanUnsigned(u) == Some(WithExponent(u[..i], "", u, i))
  {
  }

  /** A mantissa followed by text without an exponent part keeps exponent 0. */
  lemma WithoutExponent(whole: string, fraction: string, s: string, length: nat)
    requires length <= |s| && ScanExponent(s[length..]) == (0, 0)
    ensures WithExponent(whole, fraction, s, length)
         == Numeral(false, NatValue(whole), NatValue(fraction), |fraction|, 0, length)
  {
  }

  /** Where the parts of `ds.fs` followed by `tail` sit in the concatenated text. */
  lemma {:induction false} PointNumeralParts(ds: string, fs: string, tail: string)
    ensures var u := ds + "." + fs + tail;
      && u[..|ds|] == ds && u[|ds|] == '.' && u[|ds| + 1..] == fs + tail
      && (fs + tail)[..|fs|] == fs && u[|ds| + 1 + |fs|..] == tail
      && u == ds + (['.'] + (fs + tail))
  {
    var u := ds + "." + fs + tail;
    assert u == ds + (['.'] + (fs + tail));
  }

  /** The unsigned numeral `ds.fs`, followed by text that does not continue it. */
  lemma {:induction false} ScanPointNumeral(ds: string, fs: string, tail: string)
    requires AllDigits(ds) && AllDigits(fs) && |ds| + |fs| > 0
    requires tail == [] || !(IsDigit(tail[0]) || tail[0] == 'e' || tail[0] == 'E')
    ensures ScanUnsigned(ds + "." + fs + tail)
         == Some(Numeral(false, NatValue(ds), NatValue(fs), |fs|, 0, |ds| + 1 + |fs|))
  {
    var u := ds + "." + fs + tail;
    var i, j := |ds|, |fs|;
    PointNumeralParts(ds, fs, tail);
    assert DigitRun(u) == i by {
      DigitRunStops(ds, ['.'] + (fs + tail));
    }
    assert DigitRun(u[i + 1..]) == j by {
      DigitRunStops(fs, tail);
    }
    assert ScanUnsigned(u) == Some(WithExponent(ds, fs, u, i + 1 + j)) by {
      ScanUnsignedPoint(u, i, j);
    }
    assert ScanExponent(u[i + 1 + j..]) == (0, 0) by {
      NoExponent(tail);
    }
    WithoutExponent(ds, fs, u, i + 1 + j);
  }

  /** The unsigned numeral `ds` (no point), followed by text that does not continue it. */
  lemma {:induction false} ScanIntegerNumeral(ds: string, tail: string)
    requires AllDigits(ds) && |ds| > 0
    requires tail == [] || !(IsDigit(tail[0]) || tail[0] == '.' || tail[0] == 'e' || tail[0] == 'E')
    ensures ScanUnsigned(ds + tail) == Some(Numeral(false, NatValue(ds), 0, 0, 0, |ds|))
  {
    var u := ds + tail;
    DigitRunStops(ds, tail);
    assert u[..|ds|] == ds;
    assert u[|ds|..] == tail;
    ScanUnsignedInteger(u, |ds|);
    NoExponent(tail);
  }

  /** `parseFloat` of an unsigned numeral. */
  lemma {:induction false} ParseUnsigned(u: string)
    requires StartsNumeric(u)
    ensures ParseFloat(u) == Finite(ScanUnsigned(u).value.Value())
  {
    assert !IsWhitespace(u[0]) && u[0] != '+' && u[0] != '-' by {
      assert u[0] == '.' || IsDigit(u[0]);
    }
    TrimStartNoop(u);
    assert ScanDecimal(u) == ScanUnsigned(u);
  }

  /** `parseFloat` of a minus sign and an unsigned numeral. */
  lemma {:induction false} ParseNegative(u: string)
    requires StartsNumeric(u)
    ensures ParseFloat("-" + u) == Finite(ScanUnsigned(u).value.(negative := true).Value())
  {
    var s := "-" + u;
    TrimStartNoop(s);
    assert s[1..] == u;
  }

  /** `parseFloat` of an optional minus sign and an unsigned numeral. */
  lemma {:induction false} ParseSigned(negative: bool, u: string)
    requires StartsNumeric(u)
    ensures ParseFloat((if negative then "-" else "") + u)
         == Finite(ScanUnsigned(u).value.(negative := negative).Value())
  {
    if negative {
      ParseNegative(u);
    } else {
      assert "" + u == u;
      ParseUnsigned(u);
    }
  }

  /** A numeral without exponent denotes its digits, signed. */
  lemma NumeralValueNoExponent(negative: bool, whole: nat, fraction: nat, fractionDigits: nat, length: nat)
    ensures Numeral(negative, whole, fraction, fractionDigits, 0, length).Value()
         == Signed(negative, whole as real + fraction as real / Pow10(fractionDigits))
  {
  }

  /** What `parseFloat` makes of a signed numeral with a point, whatever follows it as
      long as that does not continue the numeral. */
  lemma {:induction false} ParsePointNumeral(negative: bool, ds: string, fs: string, tail: string, x: real)
    requires |ds| > 0 && AllDigits(ds) && AllDigits(fs)
    requires tail == [] || !(IsDigit(tail[0]) || tail[0] == 'e' || tail[0] == 'E')
    requires x == NatValue(ds) as real + NatValue(fs) as real / Pow10(|fs|)
    ensures ParseFloat((if negative then "-" else "") + (ds + "." + fs + tail)) == Finite(Signed(negative, x))
  {
    var u := ds + "." + fs + tail;
    var n := Numeral(false, NatValue(ds), NatValue(fs), |fs|, 0, |ds| + 1 + |fs|);
    assert ScanUnsigned(u) == Some(n) && StartsNumeric(u) by {
      ScanPointNumeral(ds, fs, tail);
    }
    assert n.(negative := negative).Value() == Signed(negative, x) by {
      NumeralValueNoExponent(negative, NatValue(ds), NatValue(fs), |fs|, |ds| + 1 + |fs|);
    }
    ParseSigned(negative, u);
  }

  /** `parseFloat` of a numeral without a point, followed by anything that does not
      continue it. */
  lemma {:induction false} ParseIntegerNumeral(negative: bool, ds: string, tail: string)
    requires |ds| > 0 && AllDigits(ds)
    requires tail == [] || !(IsDigit(tail[0]) || tail[0] == '.' || tail[0] == 'e' || tail[0] == 'E')
    ensures ParseFloat((if negative then "-" else "") + (ds + tail))
         == Finite(Signed(negative, NatValue(ds) as real))
  {
    var u := ds + tail;
    var n := Numeral(false, NatValue(ds), 0, 0, 0, |ds|);
    assert ScanUnsigned(u) == Some(n) && StartsNumeric(u) by {
      ScanIntegerNumeral(ds, tail);
      assert u[0] == ds[0] && IsDigit(ds[0]);
    }
    assert n.(negative := negative).Value() == Signed(negative, NatValue(ds) as real) by {
      NumeralValueNoExponent(negative, NatValue(ds), 0, 0, |ds|);
    }
    ParseSigned(negative, u);
  }

  /** Round trip: `parseFloat` reads back every non-negative integer written in decimal. */
  lemma {:induction false} ParseFloatNatDigits(n: nat)
    ensures ParseFloat(NatDigits(n)) == Finite(n as real)
  {
    ParseIntegerNumeral(false, NatDigits(n), "");
    NatDigitsValue(n);
    assert "" + (NatDigits(n) + "") == NatDigits(n);
  }

  /** Non-numeric strings: `parseFloat` yields NaN when no digit starts the text. */
  lemma ParseFloatNoDigits(s: string)
    requires s == [] || !(IsDigit(s[0]) || s[0] == '.' || s[0] == '+' || s[0] == '-' || IsWhitespace(s[0]))
    ensures ParseFloat(s) == NaN
  {
  }

  /** `undefined` and `null`, converted to their names, have no numeric prefix. */
  lemma ParseFloatNames()
    ensures ParseFloat("undefined") == NaN && ParseFloat("null") == NaN
  {
    ParseFloatNoDigits("undefined");
    ParseFloatNoDigits("null");
  }

  /** `Number` of a text that starts with a digit and does not end in white space: the
      numeral at its start, when that numeral is the whole text. */
  lemma {:induction false} NumberOfNumeralText(u: string, n: Numeral)
    requires |u| > 0 && IsDigit(u[0]) && !IsWhitespace(u[|u| - 1])
    requires ScanUnsigned(u) == Some(n)
    ensures StringToNumber(u) == if n.length == |u| then Finite(n.Value()) else NaN
  {
    assert !IsWhitespace(u[0]);
    TrimNoop(u);
    assert ScanDecimal(u) == ScanUnsigned(u) by {
      assert u[0] != '+' && u[0] != '-';
    }
  }

  /** `Number` reads back every non-negative integer written in decimal. */
  lemma {:induction false} NumberOfDigits(n: nat)
    ensures ToNumber(Str(NatDigits(n))) == Finite(n as real)
  {
    var ds := NatDigits(n);
    var m := Numeral(false, NatValue(ds), 0, 0, 0, |ds|);
    assert ScanUnsigned(ds) == Some(m) by {
      assert ds + "" == ds;
      ScanIntegerNumeral(ds, "");
    }
    assert m.Value() == n as real by {
      NumeralValueNoExponent(false, NatValue(ds), 0, 0, |ds|);
      NatDigitsValue(n);
    }
    assert IsDigit(ds[|ds| - 1]);
    NumberOfNumeralText(ds, m);
  }

  /** `Number` needs the whole text to be a numeral, where `parseFloat` takes the longest
      numeric prefix: digits followed by other text are NaN to one and the digits' value
      to the other. */
  lemma {:induction false} NumberRejectsTrailingText(ds: string, tail: string)
    requires |ds| > 0 && AllDigits(ds)
    requires tail != [] && !(IsDigit(tail[0]) || tail[0] == '.' || tail[0] == 'e' || tail[0] == 'E')
    requires !IsWhitespace(tail[|tail| - 1])
    ensures ToNumber(Str(ds + tail)).NaN?
    ensures ParseFloat(ds + tail) == Finite(NatValue(ds) as real)
  {
    var u := ds + tail;
    var m := Numeral(false, NatValue(ds), 0, 0, 0, |ds|);
    assert ScanUnsigned(u) == Some(m) by {
      ScanIntegerNumeral(ds, tail);
    }
    assert IsDigit(u[0]) && u[|u| - 1] == tail[|tail| - 1] by {
      assert u[0] == ds[0];
    }
    NumberOfNumeralText(u, m);
    assert ParseFloat(u) == Finite(NatValue(ds) as real) by {
      ParseIntegerNumeral(false, ds, tail);
      assert "" + (ds + tail) == u;
    }
  }
}
