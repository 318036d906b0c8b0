# PRM-Driva partner dashboard — a verified model of its business core

PRM-Driva is a single-page dashboard for the Driva partner programme. Partners are
*finders* or *sellers*. They bring opportunities ("deals"), and they receive payments.
The amount a partner accumulates places it in a tier: Diamante, Ouro, Prata or N/A.
The tier sets the commission rate. The dashboard filters deals and payments to a
period of days, computes each partner's figures, imports payments and deals from CSV
files, and shows lists with pagination, checkbox selection and a search box.

The repository carries two revisions of the main component:

- `src/App.js` ranks partners by the payments they received. It reads amounts in the
  Brazilian notation ("1.234,56") and imports payments.
- The root `App.js` ranks partners by the revenue of their won deals. It reads amounts
  with plain `parseFloat` and imports deals for one chosen partner.

Both are modelled, in the modules `App` and `RootApp`. They share the tier table
(`Tiers`), the import loop (`Imports`) and the period filter (`Periods`).

Modules, one per file:

- `Js`, `JsNumbers`: the JavaScript built-ins the code relies on. These are
  truthiness, `trim`, `toLowerCase`, `includes`, `split(' ')[0]`, `slice` with its
  index clamping, `parseFloat` (longest numeric prefix) and `Number()`.
- `Dates`: the ECMAScript date-only strings and the Firestore Timestamp range.
  Instants are UTC milliseconds.
- `Seqs`, `Records`: `filter`, sums, the grouping `reduce`s, `find`, the id-to-name
  objects, and the records (partner, deal, payment, activity).
- `Formatter`: `parseBrazilianCurrency` and `formatCurrency`.
- `Tiers`: `TIER_THRESHOLDS`, `TIER_CONFIG` (name and rate only) and
  `getPartnerDetails`.
- `Periods`: the start and end of the period selected by two date inputs.
- `Imports`: the row loop shared by both imports, with its success and failure
  counters, the write batch, and how the returned promise ends.
- `App`, `RootApp`: the two revisions.
- `Pagination`: the `usePagination` hook. Its state is a class whose clamping effect is a
  method. The deal list's verbatim copy of the hook is the same model.
- `DealList`: the selection handlers, the header checkbox and the partner column.
- `Dashboard`: the headline figures and the two "recent" lists.
- `PartnerDetail`: the partner page.
- `Search`, `NurturingHub`, `ResourceHub`: the case-insensitive search boxes.

Modelling choices:

- JavaScript numbers are exact reals. NaN is kept where the code can produce it
  (`JsNumber.NaN`).
- The browser's time zone is a fixed offset parameter, with local time = UTC + offset.
- A thrown exception is a `None`, or a `Throws` row result. A throw inside the CSV
  callback leaves the import's promise unsettled (`NeverSettles`).
- Firestore writes are the returned batch. The success of `batch.commit()` is an input.

Where the written description of the programme and the code differ, the model follows
the code:

- A payments import compares the partner name lowercased but not trimmed.
- Amounts are never clamped to be non-negative.
- A partner type other than FINDER or SELLER has no thresholds, and the figures then
  throw in the model. The source throws too for every such type except the keys the
  threshold table object carries or inherits (see `Tiers.TypeOf` under "Left out").

## Model

| member | source | states |
|---|---|---|
| Tiers.TypeOf | src/App.js:196 | the type is FINDER exactly for a missing, empty or "FINDER" type, SELLER exactly for "SELLER", and has no thresholds exactly for every other text |
| Tiers.PartnerDetails | src/App.js:79-85 | the tier's commission rate is the table's rate for that tier and partner type |
| Tiers.DetailsForKind | src/App.js:196-197 | the details exist exactly when the partner's type has thresholds |
| Tiers.TierBands | src/App.js:69-73 | Diamante is exactly amounts ≥ 30001 (finder) or ≥ 20001 (seller); Ouro is [5001, Diamante); Prata is [499, 5001); N/A is below 499; the root App.js:55-59 applies the same bands to won revenue |
| Tiers.TierMonotone | src/App.js:81-84 | a larger amount never gives a lower tier or a lower rate |
| Tiers.SellerNeverBelowFinder | src/App.js:74-78 | a seller's tier is never below a finder's for the same amount, and its rate is higher unless both are N/A |
| Tiers.Commission | src/App.js:198 | zero commission at rate 0; for a non-negative amount, between 0 and amount × rate / 100; for a negative amount, between amount × rate / 100 and 0 |
| Tiers.CommissionBounds | src/App.js:198 | no commission below the Prata threshold; never more than a quarter of the amount |
| Formatter.ParseBrazilianCurrency | src/utils/formatter.js:7-12 | a number comes back unchanged (NaN included); undefined and null give 0; a string always gives a number, never NaN |
| Formatter.ParseBrazilianCurrencyInApp | src/App.js:63-66 | the local copy: a number gives itself, NaN gives 0, undefined and null give 0 |
| Formatter.ParsersAgree | src/App.js:63-66 | the local copy equals the shared one followed by `\|\| 0`, on every input |
| Formatter.FormatCurrency | src/utils/formatter.js:1-5 | "R$ 0,00" exactly when `Number(value)` is NaN; otherwise the amount is shown |
| Formatter.FormatParsedString | src/utils/formatter.js:1-11 | a parsed string amount is never replaced by the "R$ 0,00" fallback |
| Formatter.BrazilianDecimal | src/utils/formatter.js:10-11 | sign, digits with dots anywhere, a comma and cents, then text that does not continue the number, parse to the signed value of the digits |
| Formatter.BrazilianInteger | src/utils/formatter.js:10-11 | a signed amount without cents parses to its digits with the dots dropped |
| Formatter.ThousandsAndCents | src/utils/formatter.js:10-11 | "1.234,56" parses to 1234.56 |
| Formatter.NoNumberIsZero | src/utils/formatter.js:11 | "" and "abc" parse to 0, not NaN |
| Formatter.CurrencySymbolIsZero | src/utils/formatter.js:10-11 | "R$ 10,00" parses to 0, since the symbol hides the number |
| Formatter.SecondCommaEndsNumber | src/utils/formatter.js:10 | only the first comma is rewritten: "1,2,3" parses to 1.2 |
| Formatter.NegativeAmount | src/utils/formatter.js:10-11 | "-1.500,75" parses to -1500.75; nothing clamps it |
| JsNumbers.ParseFloatValue | src/App.js:64 | `parseFloat` converts its argument to a string first: undefined and null read as the texts "undefined" and "null" (both NaN), a non-negative whole number as its decimal digits (which read back as the number), and a string as itself |
| JsNumbers.OrZero | src/App.js:65 | `n \|\| 0` is n when n is truthy and 0 otherwise: NaN gives 0, any finite n gives n |
| JsNumbers.ParsePointNumeral | src/utils/formatter.js:11 | a signed numeral with a point, followed by anything that is not an exponent or a digit, parses to its value |
| JsNumbers.ParseIntegerNumeral | App.js:192 | a signed numeral without a point parses to its integer value, whatever non-numeric text follows |
| JsNumbers.ParseFloatNoDigits | src/utils/formatter.js:11 | text that does not start like a number parses to NaN |
| JsNumbers.ParseFloatNames | src/App.js:64 | "undefined" and "null" parse to NaN, so `parseFloat(undefined) \|\| 0` is 0 |
| JsNumbers.ToNumber | src/utils/formatter.js:2 | `Number(v)` is v for a number, NaN for undefined, 0 for null and 0 for a text of only white space |
| JsNumbers.NumberOfDigits | src/utils/formatter.js:2 | `Number` of the decimal digits of a non-negative integer is that integer |
| JsNumbers.NumberRejectsTrailingText | src/utils/formatter.js:2 | digits followed by other text are NaN to `Number`, while `parseFloat` (line 11) reads the digits' value |
| Js.BeforeFirstSpace | App.js:268 | the text before the first space: a prefix of the input with no space in it, followed by a space or the end |
| Js.Trim | App.js:266 | the result of `trim()` has no white space at either end, and is the input with only white space removed before and after it |
| Js.TrimBlank | App.js:266-267 | a trimmed field is empty exactly when it is all white space, so " 2024-01-01 " counts as filled and "   " does not |
| Js.SliceInRange | src/hooks/usePagination.js:9 | `slice` with in-range bounds is the plain subsequence, and an end past the length stops at the length |
| Js.IncludesToLower | src/components/nurturing/NurturingHub.js:11-12 | lowercasing both sides keeps an occurrence |
| Dates.ParseCivil | App.js:228 | only `YYYY`, `YYYY-MM` or `YYYY-MM-DD` with a valid month and day parse; the result is a valid date in years 0000-9999 |
| Dates.ParseFormatCivil | App.js:269 | every date of years 0000-9999 written as `YYYY-MM-DD` parses back to itself |
| Dates.ParseLocalDateTime | src/App.js:173-174 | `${d}T<time>` is valid exactly when d is, at d's UTC midnight plus the time of day minus the offset |
| Dates.TimestampFromMillis | App.js:230 | a Timestamp keeps the instant, when it is in range |
| Dates.TimestampRangeYears | App.js:279 | a date converts to a Timestamp exactly when its year is 0001-9999 |
| Dates.ParsedDateTimestamp | App.js:279 | a parsed date string converts unless its year is 0000 |
| Periods.DayBound | src/App.js:173-174 | an empty input gives no bound; a valid date gives its local time of day; any other text gives an invalid bound |
| Periods.InPeriodRange | src/App.js:175 | an invalid bound admits nothing; with valid dates the period is the inclusive range from local midnight of the start day to 23:59:59 of the end day |
| Periods.UtcMidnightBeforeLocalDay | src/App.js:173-175 | west of UTC, an instant stored as UTC midnight of day s is outside the period from s to s |
| Periods.LocalMidnightInOwnDay | src/App.js:173-175 | local midnight of day s is the period's start bound for s, and lies in the period from s to s in every time zone |
| Records.FirstMatch | App.js:248 | `find` returns nothing exactly when no item has the key; otherwise an item with the key and none before it |
| Records.LastMatchSpec | src/components/deals/DealList.js:70 | writing every item under its key leaves the last item with each key |
| Records.BuildNameMap | src/components/deals/DealList.js:67-72 | the map holds an id exactly when some partner has it, with the last such partner's name |
| Records.SumBy | src/App.js:187 | under each key that occurs, the sum of the amounts filed under it; no other keys |
| Records.GroupBy | src/App.js:188 | under each key that occurs, the items filed under it in order; no other keys |
| Records.ConversionRate | src/App.js:195 | a percentage in [0, 100]: 0 without deals or wins, 100 exactly when every deal is won |
| App.DateTest | src/App.js:175 | throws exactly for a date that does not convert; passes exactly for a date in the period |
| App.WindowFilter | src/App.js:171-183 | every record when no date is set; throws exactly when a bound is set and some date does not convert; otherwise the records with a date in the period, in order (deals by submission date, payments by payment date) |
| App.SummaryOf | src/App.js:189-199 | figures exist exactly when the partner's type has thresholds, and carry the partner unchanged |
| App.SummaryFacts | src/App.js:190-198 | payments received and the opportunities are the sums over the partner's own payments and deals; the tier and the commission follow from payments received; the conversion rate is a percentage, 0 without deals |
| App.PartnersWithDetails | src/App.js:189-200 | throws exactly when some partner's type is unknown; otherwise one entry per partner, in order |
| App.ComputePartnersWithDetails | src/App.js:186-201 | the two `reduce`s and the `map` compute exactly the per-partner figures |
| App.OpportunitiesSplit | src/App.js:192-193 | won revenue plus the value of the other deals is the total opportunity value |
| App.UnmatchedRecordsIgnored | src/App.js:187-191 | payments and deals filed under no partner's id change no partner's figures |
| App.Directory | src/App.js:212 | the name map holds each lowercased name with the id of the last partner of that name |
| App.ImportedDate | src/App.js:212 | the text before the first space converts exactly when it is a valid date outside year 0000, at its UTC midnight |
| App.ImportRow | src/App.js:212 | a row fails exactly when its partner name, lowercased, names no partner; for payments it throws on a missing date, an invalid or year-0000 date, or a missing client; the record's fields |
| App.ImportedPartner | src/App.js:212 | an imported record names the last partner whose lowercased name is the row's |
| App.HandleImport | src/App.js:212 | not started without a file or a database; rejected on a parse error; never settles exactly when some row throws; otherwise rejected on a failed commit, and on a successful one resolved with the number of writing rows and of the others, committing the writing rows' records one per row, in row order |
| Imports.Reconcile | src/App.js:212 | the loop throws exactly when some row throws; otherwise the success counter is the number of rows that write, successes and failures add up to the rows, and the batch is the records of the writing rows, one per row, in row order |
| Imports.ForEachRow | App.js:265-292 | the loop with its two counters and the batch computes exactly the row-by-row tally |
| Imports.RunImport | App.js:254-307 | how the promise ends, and that nothing is committed unless it resolves |
| RootApp.FilteredDeals | App.js:159-175 | every deal when no date is set; otherwise the deals with a converted date in the period, each as many times as in the input, in order (nothing throws) |
| RootApp.SummaryOf | App.js:187-210 | figures exist exactly when the partner's type has thresholds, and carry the partner unchanged |
| RootApp.PartnersWithDetails | App.js:187-211 | throws exactly when some partner's type is unknown; otherwise one entry per partner, in order |
| RootApp.ComputePartnersWithDetails | App.js:178-212 | the grouping `reduce` and the `map` compute exactly the per-partner figures |
| RootApp.OpenDealsKeepTier | App.js:190-202 | deals that are not won change neither the revenue nor the tier |
| RootApp.OpportunitiesSplit | App.js:190-199 | won revenue plus the other deals' value is the total; the conversion rate is a percentage |
| RootApp.BrazilianTextReadAsDecimal | App.js:192 | a value stored as "1.234,56" counts as 1.234, since plain `parseFloat` stops at the comma |
| RootApp.HandleAdd | App.js:218-243 | nothing without a database; other collections keep the form's date; a deal without a valid date gets the current time; a valid date gets its Timestamp, and year 0000 ends in the caught error |
| RootApp.DealRow | App.js:265-291 | a row writes exactly when client, value, status and a trimmed date are filled and the date is valid outside year 0000; it throws exactly for a year-0000 date; the record's fields |
| RootApp.ImportedDealsBelong | App.js:273-276 | every written record carries the selected partner's id and name |
| RootApp.HandleImportDeals | App.js:245-308 | not started without a file, a database, a selected id or a matching partner; otherwise rejected on a parse error; never settles exactly when some row throws, which needs a year-0000 date; otherwise rejected on a failed commit, and on a successful one resolved with the number of writing rows and of the others, committing the writing rows' records one per row, in row order, each with the first matching partner's id and name |
| Pagination.TotalPages | src/hooks/usePagination.js:6 | the fewest pages holding all items: 0 exactly for an empty list |
| Pagination.PageOf | src/hooks/usePagination.js:9 | a page from page 1 on holds at most itemsPerPage items (the deal list carries an identical copy) |
| Pagination.PageContents | src/hooks/usePagination.js:9 | page p is the items from (p-1)·k to p·k, both cut back to the length |
| Pagination.PageInRange | src/hooks/usePagination.js:6-9 | every page from 1 to totalPages is non-empty, and all but the last are full |
| Pagination.PagesCoverData | src/hooks/usePagination.js:9 | pages 1 to totalPages, in order, give back the whole list |
| Pagination.PageState.constructor | src/hooks/usePagination.js:4-5 | the page starts at 1 |
| Pagination.PageState.SetPage | src/hooks/usePagination.js:22 | the paginator sets the page |
| Pagination.PageState.Clamp | src/hooks/usePagination.js:12-20 | a page past the end goes to the last page; a page before 1 goes to 1; otherwise the page is kept; afterwards the page is in range whenever there are pages (the third branch is never taken); the deal list carries an identical copy of the effect |
| DealList.PageIds | src/components/deals/DealList.js:64 | the ids of the page, one per deal, in page order |
| DealList.Selection.SelectAll | src/components/deals/DealList.js:64 | checking selects exactly the page's ids in order; unchecking empties the selection |
| DealList.Selection.SelectOne | src/components/deals/DealList.js:65 | checking appends the id; unchecking removes every occurrence of it |
| DealList.DeselectSpec | src/components/deals/DealList.js:65 | unchecking leaves no occurrence of the id, keeps every other id as many times as before and in order, and changes nothing when the id is absent |
| DealList.SelectThenDeselect | src/components/deals/DealList.js:65 | checking then unchecking a row is the same as unchecking it alone |
| DealList.Selection.DealsLengthChanged | src/components/deals/DealList.js:58-62 | the selection is emptied when a setter is given, and otherwise kept |
| DealList.HeaderCheckedOnOtherPage | src/components/deals/DealList.js:80 | for any 20 deals with distinct ids, after selecting all of page 1 and moving to page 2 the header shows as checked while no deal of page 2 is selected |
| DealList.HeaderAfterSelectAll | src/components/deals/DealList.js:80 | right after select-all the header is checked exactly when the page has deals; after unchecking it is not |
| DealList.HeaderReadingsAgree | src/components/deals/DealList.js:80 | with distinct ids and no ids from other pages, a fully selected page shows as checked |
| DealList.PartnerLabel | src/components/deals/DealList.js:94 | never empty: the current name of the last partner with the id when that is non-empty, else the name stored on the deal when that is non-empty, else 'Desconhecido' |
| DealList.PartnerColumn | src/components/deals/DealList.js:67-72 | the map built partner by partner gives each row exactly its label; no partner list means no map |
| Dashboard.StatsMeaning | src/components/pages/Dashboard.js:51-56 | one partner counted per partner, one opportunity per deal; with distinct partner ids the totals are the sums over the payments and won deals that belong to a known partner |
| Dashboard.TotalPaymentsAttributed | src/components/pages/Dashboard.js:46 | with distinct partner ids, summing payments received counts each payment of a known partner once, and no other payment |
| Dashboard.TotalRevenueAttributed | src/components/pages/Dashboard.js:47 | with distinct partner ids, summing generated revenue counts each won deal of a known partner once, and no other deal |
| Dashboard.FirstFive | src/components/pages/Dashboard.js:21 | at most five items, the first ones, in order |
| Dashboard.MiniListShowsAll | src/components/pages/Dashboard.js:78 | the mini deal list's first page shows all five deals it receives |
| Dashboard.ActivityPartnerLabel | src/components/pages/Dashboard.js:29 | never empty: the name of the last partner with the activity's partner id when that is non-empty, and 'Desconhecido' when there is no such partner or its name is empty |
| Dashboard.RecentActivities | src/components/pages/Dashboard.js:6-37 | the message exactly when there are no activities; otherwise one line per activity among the first five, with its title and partner label |
| PartnerDetail.PartnerDetailPage | src/components/partners/PartnerDetail.js:44-116 | not found exactly when no partner has the route's id; otherwise the first partner with it, and its activities as `PartnerActivities` gives them: those with the id, each as many times as in the input, in order; the add-activity seed carries the partner's id and name and no id of its own, so the form opens in add mode |
| PartnerDetail.PartnerActivitiesSpec | src/components/partners/PartnerDetail.js:46-48 | the activities with the partner's id, each as many times as in the input, in their original order, and no others |
| Search.SearchFilterSpec | src/components/nurturing/NurturingHub.js:8-13 | an empty term keeps everything; otherwise the items with a lowercased field containing the lowercased term, each as many times as in the input, in order, and no others |
| Search.SearchCaseAndRepeat | src/components/nurturing/NurturingHub.js:9 | the term's letter case does not matter, and searching twice is searching once |
| Search.SearchNarrowing | src/components/resources/ResourceHub.js:10-15 | a term containing another finds only what the other finds |
| NurturingHub.FilteredContent | src/components/nurturing/NurturingHub.js:7-14 | the list unchanged for an empty term; otherwise the articles whose lowercased title or body contains the lowercased term, each as many times as in the input, in order, and no others |
| NurturingHub.FilteredContentCaseAndRepeat | src/components/nurturing/NurturingHub.js:9-13 | independent of the term's letter case; filtering again with the same term changes nothing |
| ResourceHub.FilteredResources | src/components/resources/ResourceHub.js:8-16 | the list unchanged for an empty term; otherwise the resources whose lowercased title, description or category contains the lowercased term, each as many times as in the input, in order, and no others |
| ResourceHub.LongerTermNarrows | src/components/resources/ResourceHub.js:10-15 | when t is a substring of t', the results for t' are an ordered subsequence of those for t |

## Findings

| source | as written | input that shows it | evidently intended | confidence | as-written member | corrected member |
|---|---|---|---|---|---|---|
| src/components/deals/DealList.js:80 | the header checkbox is checked when the selection is as long as the page | select all on one page of 10 deals, then move to another page of 10: the header shows as checked though no deal on screen is selected | checked when every deal on the page is selected | medium, not executed | DealList.HeaderCheckedOnOtherPage | DealList.HeaderAfterSelectAll |
| src/App.js:212 (the payment date), with src/App.js:173-175 | an imported payment date is stored as `new Date("YYYY-MM-DD")`, which is UTC midnight, while the period filter reads its bounds in local time | import a payment dated 2024-03-10 in a browser at UTC-3 and select the period 2024-03-10 to 2024-03-10: the payment is stored at 21:00 local time on 9 March and is left out | a payment falls in the period of its own day | medium, not executed | Periods.UtcMidnightBeforeLocalDay | Periods.LocalMidnightInOwnDay |

The comment at line 62 says the selection is deliberately kept across pages, which is
what lets the two differ. `DealList.HeaderChecked` is the check as written.
`DealList.PageFullySelected` is the intended one. `DealList.HeaderReadingsAgree` shows
that the two agree whenever the selection holds only ids of the page on screen.

The imported date has the same mismatch in the root `App.js` (line 269 stores
`new Date(datePart)`, line 163 reads local midnight). The import model keeps the date as
written, at UTC midnight (`App.ImportedDate`); `Periods.LocalMidnightInOwnDay` states what
the local reading would give.

## Left out

- Firebase and Firestore I/O are left out: snapshot subscriptions, `addDoc`, `updateDoc`,
  `deleteDoc` and the batch commit. They are external services. A batch is the returned
  sequence, and the success of a commit is an input.
- `createdAt: serverTimestamp()` and `Timestamp.now()` are left out: the server's clock is
  not part of the model. The current time is the parameter `now`.
- Authentication and the sign-in page are left out; they are SDK calls.
- CSV parsing (PapaParse) is left out. Parsed rows are a given sequence of
  column-to-text maps, and a parse error is `None`.
- IEEE double arithmetic is left out: sums and products are exact reals, so rounding
  and overflow to Infinity are not modelled.
- `parseFloat` and `Number()` are modelled without `Infinity` and hexadecimal literals.
- `Intl.NumberFormat` and `toLocaleDateString` are left out: `formatCurrency` returns the
  amount it would format, not the text.
- `new Date(text)` is modelled only for the ECMAScript date-only forms. Expanded
  `+YYYYYY` years and each engine's lenient fallback formats (which would accept
  more import rows) are not modelled.
- Daylight-saving changes are left out; the time zone is a fixed offset.
- `timeSince` is left out; it reads the wall clock and feeds only a label.
- Rendering, routing, icons and colours are left out, along with the tier display
  attributes in `TIER_CONFIG` and the forms and modals. Only the modal's edit-or-add
  test is modelled, in `PartnerDetail.IsEditMode`.
- The older UI copies inside both App files are left out.
- Keys that JavaScript objects inherit (`"constructor"`, `"__proto__"`) are not modelled.
  The per-partner objects and the id-to-name maps are maps with no inherited keys.
- `usePagination` with a non-array `data` is left out: every caller passes an array.
- Pagination.TotalPages, Pagination.PageOf: a page size of 0 or less (which would give
  `Infinity` or `NaN` pages) is excluded, since every caller uses the default of 10.
- Records: a field the code reads as text is a string, and a missing one is the empty
  string; the cases where it is `undefined` and `toLowerCase` or `trim` would throw
  are not modelled.
- The search filters assume titles, descriptions and contents are strings.
- `Dashboard.TotalPaymentsAttributed` and `Dashboard.TotalRevenueAttributed` require
  distinct partner ids. With repeated ids, a payment is counted once per partner that
  shares the id.
- Tiers.TypeOf: the table object's own key "PRATA_MIN" and the keys every object
  inherits ("constructor", "toString", "__proto__" and the like) do not throw in the
  source. They give Prata with an undefined rate (a NaN commission) from 499 up, and
  N/A below. The model treats them like any other unknown type, as having no
  thresholds, so the figures throw.
- Js.ToLower: only ASCII and the Latin-1 capitals are lowered. The other scripts,
  mappings that change the length (such as "İ") and the final-sigma rule, which lowers
  "Σ" by its position in the word, are not modelled. This also affects the name matching
  of the payments import, where "ΩMEGA" and "ωmega" match in JavaScript but not here.
- IncludesToLower: holds for the model's per-character lowering only. Under JavaScript's
  final-sigma rule "Σ" is lowered to "σ" alone but to "ς" at the end of "ΑΣ", so an
  occurrence can be lost.
- SearchNarrowing: holds for the model's per-character lowering only; the final-sigma
  rule can make a longer term find an item the shorter one misses.
- LongerTermNarrows: holds for the model's per-character lowering only, for the same
  reason as `SearchNarrowing`.
