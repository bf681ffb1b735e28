/**
 * The regular expressions the MidCity scraper applies to page and card
 * text, each written out as the match Python's backtracking `re` engine
 * finds. `At` functions give the match starting at one position (the span
 * of its first group); `First` is re.search, the leftmost such position.
 *
 * For every pattern here the greedy quantifiers are forced: each is
 * followed by a character its class excludes, so giving characters back
 * never lets the rest match where the greedy run did not. The lazy
 * `[^}]*?` of the chart patterns is a search for the first position from
 * which the rest matches. `\d` and `\b` are read on ASCII digits and word
 * characters; `\s` is Python's str.isspace.
 */
module MeterPatterns {
  import opened Wrappers
  import opened Text
  import opened Numbers

  /** The captured group: `s[lo..hi]`. */
  datatype Span = Span(lo: nat, hi: nat)

  predicate InText(s: string, g: Span) { g.lo <= g.hi <= |s| }

  function Captured(s: string, g: Span): string
    requires InText(s, g)
  {
    s[g.lo..g.hi]
  }

  // ---------------------------------------------------------------------------
  // Runs and searches
  // ---------------------------------------------------------------------------

  /** The end of the run of characters satisfying `f` that starts at `i`. */
  function RunEnd(s: string, i: nat, f: char -> bool): (r: nat)
    requires i <= |s|
    decreases |s| - i
    ensures i <= r <= |s|
    ensures forall k :: i <= k < r ==> f(s[k])
    ensures r < |s| ==> !f(s[r])
  {
    if i < |s| && f(s[i]) then RunEnd(s, i + 1, f) else i
  }

  predicate NotDigit(c: char) { !IsDigit(c) }
  predicate DigitOrComma(c: char) { IsDigit(c) || c == ',' }
  /** The class `[:\s]`. */
  predicate ColonOrSpace(c: char) { c == ':' || IsPySpace(c) }

  /** The leftmost start in `from..n` where `at` matches, with the group it captures. */
  function Search(n: nat, from: nat, at: nat -> Option<Span>): (r: Option<(nat, Span)>)
    requires from <= n
    decreases n - from
    ensures r.Some? ==> from <= r.value.0 < n && at(r.value.0) == Some(r.value.1)
    ensures r.Some? ==> forall i :: from <= i < r.value.0 ==> at(i).None?
    ensures r.None? ==> forall i :: from <= i < n ==> at(i).None?
  {
    if from == n then None
    else match at(from)
      case Some(g) => Some((from, g))
      case None => Search(n, from + 1, at)
  }

  /** `n` ASCII digits at `i`. */
  predicate DigitsAt(s: string, i: nat, n: nat) {
    i + n <= |s| && forall k :: i <= k < i + n ==> IsDigit(s[k])
  }

  function Min(a: nat, b: nat): nat { if a < b then a else b }

  // ---------------------------------------------------------------------------
  // Meter numbers
  // ---------------------------------------------------------------------------

  /** `(\d{8,12})` at `i`: at least eight digits, of which at most twelve are taken. */
  function LongNumberAt(s: string, i: nat): (r: Option<Span>)
    ensures r.Some? ==> r.value.lo == i && 8 <= r.value.hi - i <= 12 && DigitsAt(s, i, r.value.hi - i)
  {
    if i >= |s| then None
    else
      var e := RunEnd(s, i, IsDigit);
      if e - i >= 8 then Some(Span(i, i + Min(e - i, 12))) else None
  }

  /** Word boundary before `i`, where `s[i]` is a word character. */
  predicate BoundaryBefore(s: string, i: nat) { i == 0 || (i <= |s| && !IsWordChar(s[i - 1])) }

  /**
   * `\b(\d{8,12})\b` at `i`: a whole run of eight to twelve digits, with no
   * word character on either side; a longer run has no boundary after any
   * eight to twelve of its digits.
   */
  function BoundedNumberAt(s: string, i: nat): (r: Option<Span>)
    ensures r.Some? ==> r.value.lo == i && 8 <= r.value.hi - i <= 12 && DigitsAt(s, i, r.value.hi - i)
    ensures r.Some? ==> BoundaryBefore(s, i) && (r.value.hi == |s| || !IsWordChar(s[r.value.hi]))
  {
    if i >= |s| || !BoundaryBefore(s, i) then None
    else
      var e := RunEnd(s, i, IsDigit);
      if 8 <= e - i <= 12 && (e == |s| || !IsWordChar(s[e])) then Some(Span(i, e)) else None
  }

  /** `Meter\s*:?\s*(\d+)` under re.I at `i`: the word, optional blanks around an optional colon, and every digit that follows. */
  function MeterDigitsAt(s: string, i: nat): (r: Option<Span>)
    ensures r.Some? ==> StartsAtPyFold(s, i, "meter") && i + 5 <= r.value.lo < r.value.hi && DigitsAt(s, r.value.lo, r.value.hi - r.value.lo)
    ensures r.Some? ==> r.value.hi == |s| || !IsDigit(s[r.value.hi])
  {
    if !StartsAtPyFold(s, i, "meter") then None
    else
      var j := RunEnd(s, i + 5, IsPySpace);
      var j2 := if j < |s| && s[j] == ':' then RunEnd(s, j + 1, IsPySpace) else j;
      var e := RunEnd(s, j2, IsDigit);
      if e > j2 then Some(Span(j2, e)) else None
  }

  /**
   * `(?:Meter|Account)[^\d]*(\d{10,12})` under re.I at `i`: the word, then
   * the first digits after it, when they run to at least ten (twelve are taken at most).
   */
  function AccountNumberAt(s: string, i: nat): (r: Option<Span>)
    ensures r.Some? ==> 10 <= r.value.hi - r.value.lo <= 12 && DigitsAt(s, r.value.lo, r.value.hi - r.value.lo)
    ensures r.Some? ==> (StartsAtPyFold(s, i, "meter") || StartsAtPyFold(s, i, "account")) && i < r.value.lo
  {
    var w := if StartsAtPyFold(s, i, "meter") then i + 5 else if StartsAtPyFold(s, i, "account") then i + 7 else 0;
    if w == 0 then None
    else
      var j := RunEnd(s, w, NotDigit);
      var e := RunEnd(s, j, IsDigit);
      if e - j >= 10 then Some(Span(j, j + Min(e - j, 12))) else None
  }

  // ---------------------------------------------------------------------------
  // Balances
  // ---------------------------------------------------------------------------

  /** `balance[:\s]+` under re.I at `i`: where the separator run ends. */
  function BalanceLabelAt(s: string, i: nat): (r: Option<nat>)
    ensures r.Some? ==> StartsAtPyFold(s, i, "balance") && i + 7 < r.value <= |s|
  {
    if !StartsAtPyFold(s, i, "balance") then None
    else
      var j := RunEnd(s, i + 7, ColonOrSpace);
      if j > i + 7 then Some(j) else None
  }

  /** The group holds only digits, commas and dots. */
  predicate AmountChars(s: string, g: Span) {
    InText(s, g) && forall k :: g.lo <= k < g.hi ==> DigitOrComma(s[k]) || s[k] == '.'
  }

  /** `[\d,]+\.?\d*` at `j`: where the amount ends. */
  function AmountEnd(s: string, j: nat): (r: Option<nat>)
    ensures r.Some? ==> j < r.value <= |s|
    ensures r.Some? ==> forall k :: j <= k < r.value ==> DigitOrComma(s[k]) || s[k] == '.'
    ensures r.Some? ==> DigitOrComma(s[j])
  {
    if j >= |s| then None
    else
      var k := RunEnd(s, j, DigitOrComma);
      if k == j then None
      else if k < |s| && s[k] == '.' then Some(RunEnd(s, k + 1, IsDigit))
      else Some(k)
  }

  /** `([\d,]+\.?\d*)\s*kWh` under re.I at `j`: the amount, then the unit after optional blanks. */
  function KwhAmountAt(s: string, j: nat): (r: Option<Span>)
    ensures r.Some? ==> r.value.lo == j && AmountEnd(s, j) == Some(r.value.hi)
    ensures r.Some? ==> StartsAtPyFold(s, RunEnd(s, r.value.hi, IsPySpace), "kwh")
    ensures r.Some? ==> AmountChars(s, r.value)
  {
    match AmountEnd(s, j)
    case None => None
    case Some(m) => if StartsAtPyFold(s, RunEnd(s, m, IsPySpace), "kwh") then Some(Span(j, m)) else None
  }

  /** `balance[:\s]+([\d,]+\.?\d*)\s*kWh` under re.I at `i`. */
  function KwhBalanceAt(s: string, i: nat): (r: Option<Span>)
    ensures r.Some? ==> BalanceLabelAt(s, i) == Some(r.value.lo) && KwhAmountAt(s, r.value.lo) == r
    ensures r.Some? ==> AmountChars(s, r.value)
  {
    match BalanceLabelAt(s, i)
    case None => None
    case Some(j) => KwhAmountAt(s, j)
  }

  /** The units a balance is stated in. */
  datatype Unit = Kwh | Litres | CubicMetres | Zar {
    /** The unit as the scraper writes it. */
    function Name(): (n: string)
      ensures |n| > 0
    {
      match this
      case Kwh => "kWh"
      case Litres => "L"
      case CubicMetres => "m³"
      case Zar => "ZAR"
    }
  }

  /**
   * The unit group `([Ll]|m³|m3)` under re.I at `n`, as the scraper reads
   * it: cubic metres when the matched text contains an m, litres otherwise.
   */
  function WaterUnitAt(s: string, n: nat): (u: Option<Unit>)
    ensures u.Some? ==> n < |s| && (u.value == Litres || u.value == CubicMetres)
    ensures u == Some(CubicMetres) <==> n + 1 < |s| && PyFold(s[n], 'm') && (s[n + 1] == '³' || s[n + 1] == '3')
    ensures u == Some(Litres) <==> n < |s| && PyFold(s[n], 'l')
  {
    if n < |s| && PyFold(s[n], 'l') then Some(Litres)
    else if n + 1 < |s| && PyFold(s[n], 'm') && (s[n + 1] == '³' || s[n + 1] == '3') then Some(CubicMetres)
    else None
  }

  /** `balance[:\s]+([\d,]+\.?\d*)\s*([Ll]|m³|m3)` under re.I at `i`: the amount, which a water unit follows. */
  function WaterBalanceAt(s: string, i: nat): (r: Option<Span>)
    ensures r.Some? ==> BalanceLabelAt(s, i) == Some(r.value.lo) && AmountEnd(s, r.value.lo) == Some(r.value.hi)
    ensures r.Some? ==> WaterUnitAt(s, RunEnd(s, r.value.hi, IsPySpace)).Some?
    ensures r.Some? ==> AmountChars(s, r.value)
  {
    match BalanceLabelAt(s, i)
    case None => None
    case Some(j) =>
      match AmountEnd(s, j)
      case None => None
      case Some(m) => if WaterUnitAt(s, RunEnd(s, m, IsPySpace)).Some? then Some(Span(j, m)) else None
  }

  /** `R\s*([\d,]+\.?\d*)` at `i`, case-sensitive: a capital R, optional blanks and an amount. */
  function RandAt(s: string, i: nat): (r: Option<Span>)
    ensures r.Some? ==> i < |s| && s[i] == 'R' && r.value.lo == RunEnd(s, i + 1, IsPySpace)
    ensures r.Some? ==> AmountEnd(s, r.value.lo) == Some(r.value.hi)
    ensures r.Some? ==> AmountChars(s, r.value)
  {
    if i >= |s| || s[i] != 'R' then None
    else
      var j := RunEnd(s, i + 1, IsPySpace);
      match AmountEnd(s, j)
      case None => None
      case Some(m) => Some(Span(j, m))
  }

  /** `balance[:\s]+([\d,]+\.\d+)` under re.I at `i`: an amount with a decimal point and decimals. */
  function DecimalBalanceAt(s: string, i: nat): (r: Option<Span>)
    ensures r.Some? ==> BalanceLabelAt(s, i) == Some(r.value.lo) && r.value.lo < r.value.hi <= |s| && AmountChars(s, r.value)
    ensures r.Some? ==> exists k :: r.value.lo < k < r.value.hi - 1 && s[k] == '.' && DigitsAt(s, k + 1, r.value.hi - k - 1)
  {
    match BalanceLabelAt(s, i)
    case None => None
    case Some(j) =>
      var k := RunEnd(s, j, DigitOrComma);
      if k == j || k >= |s| || s[k] != '.' then None
      else
        var e := RunEnd(s, k + 1, IsDigit);
        if e > k + 1 then Some(Span(j, e)) else None
  }

  // ---------------------------------------------------------------------------
  // The meters page
  // ---------------------------------------------------------------------------

  const NameLabel: string := "\"name\":\"Current balance\""
  const SeriesLabel: string := "\"series\":[{"
  const ZeroLabel: string := "\"0\":["
  const SuffixLabel: string := "\"valueSuffix\":\" kWh\""

  /** The group holds only digits and dots. */
  predicate NumberChars(s: string, g: Span) {
    InText(s, g) && forall j :: g.lo <= j < g.hi ==> DigitOrDot(s[j])
  }

  /** `"0":\[([0-9.]+)\]` at `k`: the number inside the chart's first data array. */
  function ArrayAt(s: string, k: nat): (r: Option<Span>)
    ensures r.Some? ==> StartsAt(s, k, ZeroLabel) && r.value.lo == k + |ZeroLabel| < r.value.hi < |s| && s[r.value.hi] == ']'
    ensures r.Some? ==> forall j :: r.value.lo <= j < r.value.hi ==> DigitOrDot(s[j])
  {
    if !StartsAt(s, k, ZeroLabel) then None
    else
      var e := RunEnd(s, k + |ZeroLabel|, DigitOrDot);
      if e > k + |ZeroLabel| && e < |s| && s[e] == ']' then Some(Span(k + |ZeroLabel|, e)) else None
  }

  /**
   * `"name":"Current balance"[^}]*?"0":\[([0-9.]+)\]` at `i`: the first data
   * array after the label with no closing brace in between.
   */
  function CurrentBalanceAt(s: string, i: nat): (r: Option<Span>)
    ensures r.Some? ==> StartsAt(s, i, NameLabel)
    ensures r.Some? ==> exists k :: i + |NameLabel| <= k && ArrayAt(s, k) == r && '}' !in s[i + |NameLabel|..k]
    ensures r.Some? ==> NumberChars(s, r.value) && r.value.lo < r.value.hi
  {
    if !StartsAt(s, i, NameLabel) then None
    else
      var from := i + |NameLabel|;
      var stop := NextBrace(s, from);
      match Search(stop, from, (k: nat) => ArrayAt(s, k))
      case None => None
      case Some((k, g)) => BraceFree(s, from, stop, k); Some(g)
  }

  /** The first `}` at or after `from`, or the end of the text. */
  function NextBrace(s: string, from: nat): (r: nat)
    requires from <= |s|
    ensures from <= r <= |s| && (r < |s| ==> s[r] == '}')
    ensures forall k :: from <= k < r ==> s[k] != '}'
  {
    RunEnd(s, from, c => c != '}')
  }

  lemma BraceFree(s: string, from: nat, stop: nat, k: nat)
    requires from <= k <= stop <= |s| && forall j :: from <= j < stop ==> s[j] != '}'
    ensures '}' !in s[from..k]
  {
    forall j | 0 <= j < k - from ensures s[from..k][j] != '}' {
      assert s[from..k][j] == s[from + j];
    }
  }

  /** The data array at `k` is followed, before the next closing brace, by the kWh suffix. */
  function ArrayWithSuffixAt(s: string, k: nat, stop: nat): (r: Option<Span>)
    ensures r.Some? ==> ArrayAt(s, k) == r
    ensures r.Some? ==> exists m :: r.value.hi < m && m + |SuffixLabel| <= stop && StartsAt(s, m, SuffixLabel)
  {
    match ArrayAt(s, k)
    case None => None
    case Some(g) =>
      match IndexFrom(s, SuffixLabel, g.hi + 1)
      case None => None
      case Some(m) => if m + |SuffixLabel| <= stop then Some(g) else None
  }

  /**
   * `"series":\[{[^}]*?"0":\[([0-9.]+)\][^}]*?"valueSuffix":" kWh"` at `i`:
   * the first data array after the label that is followed by the kWh
   * suffix, with no closing brace anywhere in between.
   */
  function SeriesBalanceAt(s: string, i: nat): (r: Option<Span>)
    ensures r.Some? ==> StartsAt(s, i, SeriesLabel)
    ensures r.Some? ==> exists k :: i + |SeriesLabel| <= k && ArrayAt(s, k) == r && '}' !in s[i + |SeriesLabel|..k]
    ensures r.Some? ==> NumberChars(s, r.value) && r.value.lo < r.value.hi
  {
    if !StartsAt(s, i, SeriesLabel) then None
    else
      var from := i + |SeriesLabel|;
      var stop := NextBrace(s, from);
      match Search(stop, from, (k: nat) => ArrayWithSuffixAt(s, k, stop))
      case None => None
      case Some((k, g)) => BraceFree(s, from, stop, k); Some(g)
  }

  /** `Current meter balance[:\s]+[\d.]+\s*kWh` under re.I at `i`: the line the page states its balance on. */
  predicate BalanceLineAt(s: string, i: nat) {
    && StartsAtPyFold(s, i, "current meter balance")
    && var j := RunEnd(s, i + 21, ColonOrSpace);
    && j > i + 21
    && var k := RunEnd(s, j, DigitOrDot);
    && k > j
    && StartsAtPyFold(s, RunEnd(s, k, IsPySpace), "kwh")
  }

  predicate HasBalanceLine(s: string) {
    exists i :: 0 <= i < |s| && BalanceLineAt(s, i)
  }

  /** `Predicted\s+0\s+balance\s+date[:\s]+` under re.I at `i`: where the date starts. */
  function PredictedLabelAt(s: string, i: nat): (r: Option<nat>)
    ensures r.Some? ==> StartsAtPyFold(s, i, "predicted") && i + 9 < r.value <= |s|
  {
    if !StartsAtPyFold(s, i, "predicted") then None
    else
      var a := RunEnd(s, i + 9, IsPySpace);
      if a == i + 9 || a >= |s| || s[a] != '0' then None
      else
        var b := RunEnd(s, a + 1, IsPySpace);
        if b == a + 1 || !StartsAtPyFold(s, b, "balance") then None
        else
          var c := RunEnd(s, b + 7, IsPySpace);
          if c == b + 7 || !StartsAtPyFold(s, c, "date") then None
          else
            var d := RunEnd(s, c + 4, ColonOrSpace);
            if d == c + 4 then None else Some(d)
  }

  /** `\d{4}-\d{2}-\d{2}` at `d`. */
  function IsoDateAt(s: string, d: nat): (r: Option<Span>)
    ensures r.Some? ==> r.value == Span(d, d + 10) && d + 10 <= |s|
    ensures r.Some? ==> DigitsAt(s, d, 4) && s[d + 4] == '-' && DigitsAt(s, d + 5, 2) && s[d + 7] == '-' && DigitsAt(s, d + 8, 2)
  {
    if DigitsAt(s, d, 4) && d + 10 <= |s| && s[d + 4] == '-' && DigitsAt(s, d + 5, 2) && s[d + 7] == '-' && DigitsAt(s, d + 8, 2)
    then Some(Span(d, d + 10)) else None
  }

  predicate DateSep(c: char) { c == '/' || c == '-' }

  /** `\d{1,2}`, greedy, at `i`: where it ends. */
  function ShortNumberEnd(s: string, i: nat): (r: Option<nat>)
    ensures r.Some? ==> i < r.value <= i + 2 && DigitsAt(s, i, r.value - i)
  {
    if DigitsAt(s, i, 2) then Some(i + 2) else if DigitsAt(s, i, 1) then Some(i + 1) else None
  }

  /**
   * `\d{1,2}[/-]\d{1,2}[/-]\d{4}` at `d`: day and month of one or two
   * digits, slashes or dashes, four year digits. Two digits are taken
   * whenever there are two, since a digit cannot be a separator.
   */
  function SlashDateAt(s: string, d: nat): (r: Option<Span>)
    ensures r.Some? ==> r.value.lo == d && d + 8 <= r.value.hi <= d + 10 && r.value.hi <= |s| && DigitsAt(s, r.value.hi - 4, 4)
  {
    match ShortNumberEnd(s, d)
    case None => None
    case Some(a) =>
      if a >= |s| || !DateSep(s[a]) then None
      else match ShortNumberEnd(s, a + 1)
        case None => None
        case Some(b) =>
          if b >= |s| || !DateSep(s[b]) || !DigitsAt(s, b + 1, 4) then None
          else Some(Span(d, b + 5))
  }

  /** `Predicted\s+0\s+balance\s+date[:\s]+(\d{4}-\d{2}-\d{2})` under re.I at `i`. */
  function IsoPredictedAt(s: string, i: nat): (r: Option<Span>)
    ensures r.Some? ==> PredictedLabelAt(s, i) == Some(r.value.lo) && IsoDateAt(s, r.value.lo) == r
  {
    match PredictedLabelAt(s, i)
    case None => None
    case Some(d) => IsoDateAt(s, d)
  }

  /** `Predicted\s+0\s+balance\s+date[:\s]+(\d{1,2}[/-]\d{1,2}[/-]\d{4})` under re.I at `i`. */
  function SlashPredictedAt(s: string, i: nat): (r: Option<Span>)
    ensures r.Some? ==> PredictedLabelAt(s, i) == Some(r.value.lo) && SlashDateAt(s, r.value.lo) == r
  {
    match PredictedLabelAt(s, i)
    case None => None
    case Some(d) => SlashDateAt(s, d)
  }

  // ---------------------------------------------------------------------------
  // re.search
  // ---------------------------------------------------------------------------

  /** The patterns above, by name. */
  datatype Pattern =
    | LongNumber | BoundedNumber | MeterDigits | AccountNumber
    | KwhBalance | WaterBalance | Rand | DecimalBalance | KwhAmount
    | CurrentBalance | SeriesBalance | IsoPredicted | SlashPredicted

  /** The patterns whose group is an amount with commas. */
  predicate AmountPattern(p: Pattern) {
    p == KwhBalance || p == WaterBalance || p == Rand || p == DecimalBalance || p == KwhAmount
  }

  /** What is known of the group of `p`, whatever the text around it. */
  predicate GroupShape(p: Pattern, s: string, g: Span) {
    InText(s, g) &&
    match p
    case LongNumber => 8 <= g.hi - g.lo <= 12 && DigitsAt(s, g.lo, g.hi - g.lo)
    case BoundedNumber => 8 <= g.hi - g.lo <= 12 && DigitsAt(s, g.lo, g.hi - g.lo)
    case MeterDigits => g.lo < g.hi && DigitsAt(s, g.lo, g.hi - g.lo)
    case AccountNumber => 10 <= g.hi - g.lo <= 12 && DigitsAt(s, g.lo, g.hi - g.lo)
    case CurrentBalance => g.lo < g.hi && NumberChars(s, g)
    case SeriesBalance => g.lo < g.hi && NumberChars(s, g)
    case IsoPredicted => IsoDateAt(s, g.lo) == Some(g)
    case SlashPredicted => SlashDateAt(s, g.lo) == Some(g)
    case _ => AmountChars(s, g)
  }

  /** The match of `p` starting at `i`. */
  function MatchAt(p: Pattern, s: string, i: nat): (r: Option<Span>)
    ensures r.Some? ==> GroupShape(p, s, r.value)
  {
    match p
    case LongNumber => LongNumberAt(s, i)
    case BoundedNumber => BoundedNumberAt(s, i)
    case MeterDigits => MeterDigitsAt(s, i)
    case AccountNumber => AccountNumberAt(s, i)
    case KwhBalance => KwhBalanceAt(s, i)
    case WaterBalance => WaterBalanceAt(s, i)
    case Rand => RandAt(s, i)
    case DecimalBalance => DecimalBalanceAt(s, i)
    case KwhAmount => KwhAmountAt(s, i)
    case CurrentBalance => CurrentBalanceAt(s, i)
    case SeriesBalance => SeriesBalanceAt(s, i)
    case IsoPredicted => IsoPredictedAt(s, i)
    case SlashPredicted => SlashPredictedAt(s, i)
  }

  /** re.search: the leftmost match of `p` in `s`. */
  function First(p: Pattern, s: string): (r: Option<(nat, Span)>)
    ensures r.Some? ==> r.value.0 < |s| && MatchAt(p, s, r.value.0) == Some(r.value.1)
    ensures r.Some? ==> GroupShape(p, s, r.value.1)
    ensures r.Some? ==> forall i :: 0 <= i < r.value.0 ==> MatchAt(p, s, i).None?
    ensures r.None? <==> forall i :: 0 <= i < |s| ==> MatchAt(p, s, i).None?
  {
    var at := (i: nat) => MatchAt(p, s, i);
    var r := Search(|s|, 0, at);
    forall i | 0 <= i < |s| ensures at(i) == MatchAt(p, s, i) {
    }
    r
  }
}
