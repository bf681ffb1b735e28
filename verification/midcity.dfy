/**
 * The MidCity Utilities scraper: how the meters page yields one reading
 * (a meter number, a balance in kWh and a predicted zero-balance date), how
 * a meter card yields a reading of any kind, and how a reading is named
 * and classed as a Home Assistant sensor.
 *
 * The parsed document is given as text: the page's strings in document
 * order, the option values of its meter select, its whole text and the
 * text of each script. A Python exception is the `Raises` outcome.
 */
module MidCity {
  import opened Wrappers
  import opened Text
  import opened Numbers
  import opened MeterPatterns

  /** A reading as the scraper reports it. */
  datatype Meter = Meter(meterNumber: string, balance: real, meterType: string, unit: Unit, predictedZeroDate: Option<string>)

  /** A Python call: it raises, or returns a value. */
  datatype Outcome<T> = Raises | Returns(value: T)


  /** Python's `a or b` on strings. */
  function Or(a: string, b: string): (r: string)
    ensures r == [] <==> a == [] && b == []
    ensures a != [] ==> r == a
  {
    if a != [] then a else b
  }

  /** `not balance`: no balance yet, or a zero one. */
  predicate Falsy(b: Option<real>) { b.None? || b.value == 0.0 }

  // ---------------------------------------------------------------------------
  // Amounts
  // ---------------------------------------------------------------------------

  /** Digits and dots: the text an amount is converted from. */
  type DecimalText = s: string | forall k :: 0 <= k < |s| ==> DigitOrDot(s[k])

  /** `s.replace(',', '')` on an amount: what is left is digits and dots. */
  function Uncomma(s: string): (r: DecimalText)
    requires forall k :: 0 <= k < |s| ==> DigitOrComma(s[k]) || s[k] == '.'
    ensures r == CharSub(s, ',', [])
  {
    ReplaceCharAll(s, ',', []);
    CharSubDrop(s, ',');
    var r := ReplaceAll(s, ",", "");
    assert r == CharSub(s, ',', []);
    forall k | 0 <= k < |r| ensures DigitOrDot(r[k]) {
      var x := r[k];
      assert x in r;
      assert x in s && x != ',';
      var j :| 0 <= j < |s| && s[j] == x;
      assert DigitOrComma(s[j]) || s[j] == '.';
    }
    r
  }

  /** The amount the leftmost match of `p` captures, without its commas. */
  function AmountGroup(p: Pattern, t: string): (r: Option<DecimalText>)
    requires AmountPattern(p)
    ensures r.None? <==> First(p, t).None?
  {
    match First(p, t)
    case None => None
    case Some((_, g)) =>
      AmountCaptured(p, t, g);
      Some(Uncomma(t[g.lo..g.hi]))
  }

  /** The group of an amount pattern holds only digits, commas and dots. */
  lemma AmountCaptured(p: Pattern, t: string, g: Span)
    requires AmountPattern(p) && GroupShape(p, t, g)
    ensures g.lo <= g.hi <= |t|
    ensures forall k :: 0 <= k < g.hi - g.lo ==> DigitOrComma(t[g.lo..g.hi][k]) || t[g.lo..g.hi][k] == '.'
  {
    assert AmountChars(t, g);
    forall k | 0 <= k < g.hi - g.lo ensures DigitOrComma(t[g.lo..g.hi][k]) || t[g.lo..g.hi][k] == '.' {
      assert t[g.lo..g.hi][k] == t[g.lo + k];
    }
  }

  /** Thousands separators are dropped and nothing else: `1,234.56` reads as `1234.56`. */
  lemma UncommaJoin(a: string, b: string)
    requires forall k :: 0 <= k < |a| ==> DigitOrDot(a[k])
    requires forall k :: 0 <= k < |b| ==> DigitOrDot(b[k])
    ensures forall k :: 0 <= k < |a + "," + b| ==> DigitOrComma((a + "," + b)[k]) || (a + "," + b)[k] == '.'
    ensures Uncomma(a + "," + b) == a + b
  {
    JoinedAmountChars(a, b);
    NoCommaIn(a);
    NoCommaIn(b);
    var head := a + ",";
    CharSubAppend(a, ",", ',', []);
    CharSubOne(',', []);
    CharSubAbsent(a, ',', []);
    assert CharSub(head, ',', []) == a;
    CharSubAppend(head, b, ',', []);
    CharSubAbsent(b, ',', []);
    assert CharSub(head + b, ',', []) == a + b;
  }

  lemma NoCommaIn(a: string)
    requires forall k :: 0 <= k < |a| ==> DigitOrDot(a[k])
    ensures ',' !in a
  {
    forall x | x in a ensures x != ',' {
      var k :| 0 <= k < |a| && a[k] == x;
    }
  }

  lemma JoinedAmountChars(a: string, b: string)
    requires forall k :: 0 <= k < |a| ==> DigitOrDot(a[k])
    requires forall k :: 0 <= k < |b| ==> DigitOrDot(b[k])
    ensures forall k :: 0 <= k < |a + "," + b| ==> DigitOrComma((a + "," + b)[k]) || (a + "," + b)[k] == '.'
  {
    var t := a + "," + b;
    forall k | 0 <= k < |t| ensures DigitOrComma(t[k]) || t[k] == '.' {
      if k < |a| { assert t[k] == a[k]; }
      else if k > |a| { assert t[k] == b[k - |a| - 1]; }
    }
  }

  // ---------------------------------------------------------------------------
  // The card balance cascade
  // ---------------------------------------------------------------------------

  /** What the four balance patterns capture in a card's text, commas removed, with the water unit. */
  datatype CardMatches = CardMatches(
    kwh: Option<DecimalText>,
    water: Option<(DecimalText, Unit)>,
    rand: Option<DecimalText>,
    decimal: Option<DecimalText>)

  /** The water unit named after the leftmost water balance. */
  function WaterUnit(t: string): (u: Option<Unit>)
    ensures u.Some? <==> First(WaterBalance, t).Some?
    ensures u.Some? ==> u.value == Litres || u.value == CubicMetres
  {
    match First(WaterBalance, t)
    case None => None
    case Some((_, g)) => WaterUnitAt(t, RunEnd(t, g.hi, IsPySpace))
  }

  function MatchCard(t: string): (m: CardMatches)
    ensures m.kwh.Some? <==> First(KwhBalance, t).Some?
    ensures m.water.Some? <==> First(WaterBalance, t).Some?
    ensures m.water.Some? ==> m.water.value.1 == Litres || m.water.value.1 == CubicMetres
    ensures m.rand.Some? <==> First(Rand, t).Some?
    ensures m.decimal.Some? <==> First(DecimalBalance, t).Some?
  {
    var w := AmountGroup(WaterBalance, t);
    CardMatches(
      AmountGroup(KwhBalance, t),
      if w.Some? then Some((w.value, WaterUnit(t).value)) else None,
      AmountGroup(Rand, t),
      AmountGroup(DecimalBalance, t))
  }

  /** What the cascade has found so far: the balance, and the unit last set. */
  datatype Found = Found(balance: Option<real>, unit: Option<Unit>)

  /** Strategy 1, `balance ... kWh`: the unit is set even when the amount does not convert. */
  function KwhStep(kwh: Option<DecimalText>): (f: Found)
    ensures f.unit == if kwh.Some? then Some(Kwh) else None
    ensures f.balance.Some? <==> kwh.Some? && ValidPyDecimal(kwh.value)
    ensures f.balance.Some? ==> f.balance.value >= 0.0
  {
    match kwh
    case None => Found(None, None)
    case Some(x) => Found(PyFloat(x), Some(Kwh))
  }

  /** Strategy 2, while the balance is falsy: `balance ... L` or `m³`; the unit is set even when the amount does not convert. */
  function WaterStep(f: Found, water: Option<(DecimalText, Unit)>): (r: Found)
    ensures !Falsy(f.balance) || water.None? ==> r == f
    ensures Falsy(f.balance) && water.Some? ==> r.unit == Some(water.value.1)
    ensures r.balance != f.balance ==> r.balance.Some? && r.balance.value >= 0.0
  {
    if !Falsy(f.balance) || water.None? then f
    else Found(PyFloat(water.value.0).OrElse(f.balance), Some(water.value.1))
  }

  /** An amount without a decimal point of 100000 or more: taken for a meter number, not money. */
  predicate LooksLikeMeterId(x: DecimalText) {
    '.' !in x && PyFloat(x).Some? && PyFloat(x).value >= 100000.0
  }

  /**
   * Strategy 3, while the balance is falsy: `R` and an amount, in rand.
   * The guard converts an amount without a decimal point outside the try,
   * so an empty amount raises.
   */
  function RandStep(f: Found, rand: Option<DecimalText>): (r: Outcome<Found>)
    ensures !Falsy(f.balance) || rand.None? ==> r == Returns(f)
    ensures r.Returns? && r.value.unit != f.unit ==> r.value.unit == Some(Zar)
    ensures r.Returns? && r.value.balance != f.balance ==> r.value.balance.Some? && r.value.balance.value >= 0.0
  {
    if !Falsy(f.balance) || rand.None? then Returns(f)
    else
      var x := rand.value;
      if '.' !in x && PyFloat(x).None? then Raises
      else if LooksLikeMeterId(x) then Returns(f)
      else Returns(Found(PyFloat(x).OrElse(f.balance), Some(Zar)))
  }

  /** Strategy 4, while the balance is falsy: `balance` and an amount with decimals; the unit is left as it is. */
  function DecimalStep(f: Found, decimal: Option<DecimalText>): (r: Found)
    ensures !Falsy(f.balance) || decimal.None? ==> r == f
    ensures r.unit == f.unit
    ensures r.balance != f.balance ==> r.balance.Some? && r.balance.value >= 0.0
  {
    if !Falsy(f.balance) || decimal.None? then f
    else Found(PyFloat(decimal.value).OrElse(f.balance), f.unit)
  }

  /** The cascade: kWh, water, rand, any decimal, each tried while the balance is still falsy. */
  function Cascade(m: CardMatches): (r: Outcome<Found>)
    ensures r.Returns? && r.value.balance.Some? ==> r.value.balance.value >= 0.0
  {
    var f := WaterStep(KwhStep(m.kwh), m.water);
    match RandStep(f, m.rand)
    case Raises => Raises
    case Returns(f') => Returns(DecimalStep(f', m.decimal))
  }

  /** The card's balance and unit. */
  function CardBalance(t: string): (r: Outcome<Found>)
    ensures r.Returns? && r.value.balance.Some? ==> r.value.balance.value >= 0.0
  {
    Cascade(MatchCard(t))
  }

  /** The cascade raises exactly when it reaches an R whose amount is all commas. */
  lemma CascadeRaises(m: CardMatches)
    ensures Cascade(m).Raises? <==> Falsy(WaterStep(KwhStep(m.kwh), m.water).balance) && m.rand == Some([])
  {
    var f := WaterStep(KwhStep(m.kwh), m.water);
    if Falsy(f.balance) && m.rand.Some? && m.rand.value != [] {
      var x := m.rand.value;
      if '.' !in x {
        assert IsDigit(x[0]);
        assert ValidPyDecimal(x);
      }
    }
  }

  /** A non-zero kWh balance settles the card. */
  lemma KwhSettles(m: CardMatches)
    requires KwhStep(m.kwh).balance.Some? && KwhStep(m.kwh).balance.value != 0.0
    ensures Cascade(m) == Returns(Found(KwhStep(m.kwh).balance, Some(Kwh)))
  {
  }

  /** A zero kWh balance does not stop the cascade: a converting water amount replaces it, with its unit. */
  lemma ZeroFallsThrough(m: CardMatches)
    requires KwhStep(m.kwh).balance == Some(0.0)
    requires m.water.Some? && PyFloat(m.water.value.0).Some? && PyFloat(m.water.value.0).value != 0.0
    ensures Cascade(m) == Returns(Found(PyFloat(m.water.value.0), Some(m.water.value.1)))
  {
  }

  /** The rand guard: an amount without a decimal point of 100000 or more is passed over. */
  lemma RandGuard(f: Found, x: DecimalText)
    requires Falsy(f.balance) && LooksLikeMeterId(x)
    ensures RandStep(f, Some(x)) == Returns(f)
  {
  }

  /** Any other converting amount is taken in rand. */
  lemma RandTaken(f: Found, x: DecimalText)
    requires Falsy(f.balance) && PyFloat(x).Some? && !LooksLikeMeterId(x)
    ensures RandStep(f, Some(x)) == Returns(Found(PyFloat(x), Some(Zar)))
  {
  }

  // ---------------------------------------------------------------------------
  // Meter cards
  // ---------------------------------------------------------------------------

  /**
   * A meter card: its text (the card's strings joined by single spaces),
   * its data attributes (empty when absent) and the text of its
   * meter-number and meter-type elements when it has them.
   */
  datatype Card = Card(
    text: string,
    meterIdAttr: string,
    meterAttr: string,
    numberElem: Option<string>,
    meterTypeAttr: string,
    typeAttr: string,
    typeElem: Option<string>)

  /** The number element's text, stripped; empty without the element. */
  function ElemNumber(c: Card): string {
    if c.numberElem.Some? then Strip(c.numberElem.value) else []
  }

  /**
   * The card's meter number before stripping: the data attributes, else
   * the number element, else a number in the text.
   */
  function CardNumber(c: Card): (n: string)
    ensures Or(c.meterIdAttr, c.meterAttr) != [] ==> n == Or(c.meterIdAttr, c.meterAttr)
    ensures Or(c.meterIdAttr, c.meterAttr) == [] && ElemNumber(c) != [] ==> n == ElemNumber(c)
    ensures Or(c.meterIdAttr, c.meterAttr) == [] && ElemNumber(c) == [] ==> AllDigits(n)
  {
    var attr := Or(c.meterIdAttr, c.meterAttr);
    if attr != [] then attr
    else if ElemNumber(c) != [] then ElemNumber(c)
    else TextNumber(c.text)
  }

  /** A number in the card text: a bounded 8-12 digit run, else the digits after "Meter". */
  function TextNumber(t: string): (n: string)
    ensures AllDigits(n)
    ensures First(BoundedNumber, t).Some? ==> 8 <= |n| <= 12
    ensures n == [] <==> First(BoundedNumber, t).None? && First(MeterDigits, t).None?
  {
    match First(BoundedNumber, t)
    case Some((_, g)) => DigitsSlice(t, g.lo, g.hi); t[g.lo..g.hi]
    case None =>
      match First(MeterDigits, t)
      case Some((_, g)) => DigitsSlice(t, g.lo, g.hi); t[g.lo..g.hi]
      case None => []
  }

  /** The meter type the unit implies, or "unknown". */
  function TypeOfUnit(unit: Option<Unit>): (ty: string)
    ensures unit == Some(Kwh) <==> ty == "electricity"
    ensures unit == Some(Litres) || unit == Some(CubicMetres) <==> ty == "water"
    ensures unit == Some(Zar) <==> ty == "prepaid"
    ensures unit.None? <==> ty == "unknown"
  {
    match unit
    case None => "unknown"
    case Some(u) =>
      match u
      case Kwh => "electricity"
      case Litres => "water"
      case CubicMetres => "water"
      case Zar => "prepaid"
  }

  /** Keywords in the lower-cased card text, electricity before water before gas. */
  function KeywordType(t: string): (ty: string)
    ensures ty == "electricity" <==> Contains(Lower(t), "electric")
    ensures ty == "water" <==> !Contains(Lower(t), "electric") && Contains(Lower(t), "water")
    ensures ty == "gas" <==> !Contains(Lower(t), "electric") && !Contains(Lower(t), "water") && Contains(Lower(t), "gas")
    ensures ty != "electricity" && ty != "water" && ty != "gas" ==> ty == "unknown"
  {
    var l := Lower(t);
    if Contains(l, "electricity") then ElectricityIsElectric(l); "electricity"
    else if Contains(l, "electric") then "electricity"
    else if Contains(l, "water") then "water"
    else if Contains(l, "gas") then "gas"
    else "unknown"
  }

  /** Every text holding "electricity" holds "electric". */
  lemma ElectricityIsElectric(l: string)
    requires Contains(l, "electricity")
    ensures Contains(l, "electric")
  {
    var i := IndexFrom(l, "electricity", 0).value;
    assert l[i..i + 8] == l[i..i + 11][..8];
    ContainsAt(l, "electric", i);
  }

  /**
   * The card's meter type: from the unit, else the data attributes, else
   * the type element (even when its text is empty), else keywords; lower-cased.
   */
  function CardType(c: Card, unit: Option<Unit>): (ty: string)
    ensures forall k :: 0 <= k < |ty| ==> !IsUpper(ty[k])
  {
    var t1 := TypeOfUnit(unit);
    var t2 := if t1 == "unknown" then Or(Or(c.meterTypeAttr, c.typeAttr), "unknown") else t1;
    var t3 := if t2 == "unknown" && c.typeElem.Some? then Strip(c.typeElem.value) else t2;
    var t4 := if t3 == "unknown" then KeywordType(c.text) else t3;
    Lower(t4)
  }

  /**
   * parse_meter_card: a reading when the stripped meter number is not
   * empty and a balance was found, None otherwise, and an exception when
   * the rand guard raises.
   */
  function ParseMeterCard(c: Card): (r: Outcome<Option<Meter>>)
    ensures r.Raises? <==> CardBalance(c.text).Raises?
    ensures r.Returns? ==> (r.value.Some? <==> Strip(CardNumber(c)) != [] && CardBalance(c.text).value.balance.Some?)
    ensures r.Returns? && r.value.Some? ==> var m := r.value.value;
      && m.meterNumber == Strip(CardNumber(c))
      && m.balance >= 0.0
      && m.meterType == CardType(c, CardBalance(c.text).value.unit)
      && m.unit == CardBalance(c.text).value.unit.GetOr(Kwh)
      && m.predictedZeroDate.None?
  {
    match CardBalance(c.text)
    case Raises => Raises
    case Returns(f) =>
      var n := CardNumber(c);
      if n != [] && Strip(n) != [] && f.balance.Some? then
        Returns(Some(Meter(Strip(n), f.balance.value, CardType(c, f.unit), f.unit.GetOr(Kwh), None)))
      else Returns(None)
  }

  /** The unit decides the type whenever there is one, whatever the attributes and elements say. */
  lemma UnitDecidesType(c: Card, unit: Option<Unit>)
    requires unit.Some?
    ensures CardType(c, unit) == TypeOfUnit(unit)
  {
    TypeNameLower(TypeOfUnit(unit));
  }

  /** The type names the model produces are already in lower case. */
  lemma TypeNameLower(ty: string)
    requires ty == "electricity" || ty == "water" || ty == "gas" || ty == "prepaid" || ty == "unknown"
    ensures Lower(ty) == ty
  {
  }

  /** Without a unit, a set data attribute decides the type, lower-cased. */
  lemma AttributeDecidesType(c: Card)
    requires Or(c.meterTypeAttr, c.typeAttr) != [] && Or(c.meterTypeAttr, c.typeAttr) != "unknown"
    ensures CardType(c, None) == Lower(Or(c.meterTypeAttr, c.typeAttr))
  {
  }

  /**
   * Without a unit or a set attribute, a type element decides the type by its
   * stripped text, lower-cased. An element with empty text thus gives the
   * empty type, and the keywords are never consulted.
   */
  lemma ElementDecidesType(c: Card)
    requires Or(c.meterTypeAttr, c.typeAttr) == [] || Or(c.meterTypeAttr, c.typeAttr) == "unknown"
    requires c.typeElem.Some? && Strip(c.typeElem.value) != "unknown"
    ensures CardType(c, None) == Lower(Strip(c.typeElem.value))
    ensures Strip(c.typeElem.value) == [] ==> CardType(c, None) == []
  {
  }

  /** Without unit, attributes or type element, the keywords decide. */
  lemma KeywordsDecideType(c: Card)
    requires Or(c.meterTypeAttr, c.typeAttr) == [] && c.typeElem.None?
    ensures CardType(c, None) == KeywordType(c.text)
  {
    TypeNameLower(KeywordType(c.text));
  }

  // ---------------------------------------------------------------------------
  // The meters page
  // ---------------------------------------------------------------------------

  /**
   * The meters page: its strings in document order, the option values of
   * its `meter_id` select (none without one; an option without a value
   * reads as empty), its whole text, and the text of each script (empty
   * when the script is not a single string).
   */
  datatype Page = Page(strings: seq<string>, options: seq<string>, text: string, scripts: seq<string>)

  /** The position of the first entry from `from` on that satisfies `p`. */
  function FirstWhere(xs: seq<string>, p: string -> bool, from: nat): (r: Option<nat>)
    requires from <= |xs|
    decreases |xs| - from
    ensures r.Some? ==> from <= r.value < |xs| && p(xs[r.value])
    ensures r.Some? ==> forall k :: from <= k < r.value ==> !p(xs[k])
    ensures r.None? ==> forall k :: from <= k < |xs| ==> !p(xs[k])
  {
    if from == |xs| then None else if p(xs[from]) then Some(from) else FirstWhere(xs, p, from + 1)
  }

  /** `k` is the first position whose entry satisfies `p`. */
  ghost predicate FirstIndex(xs: seq<string>, p: string -> bool, k: nat) {
    k < |xs| && p(xs[k]) && forall j :: 0 <= j < k ==> !p(xs[j])
  }

  /** The first entry satisfying `p` is the one FirstWhere finds. */
  lemma FirstWhereIs(xs: seq<string>, p: string -> bool, k: nat)
    requires FirstIndex(xs, p, k)
    ensures FirstWhere(xs, p, 0) == Some(k)
  {
  }

  predicate SelectMeterString(s: string) { Contains(s, "Select Meter") }

  /** An option value re.match accepts: it starts with eight digits. */
  predicate MeterOption(v: string) { DigitsAt(v, 0, 8) }

  /** Strategy 1: the first 8-12 digit run in the first string that mentions "Select Meter". */
  function SelectNumber(strings: seq<string>): (n: string)
    ensures n != [] ==> 8 <= |n| <= 12 && AllDigits(n)
    ensures n == [] <==> forall k: nat :: FirstIndex(strings, SelectMeterString, k) ==> First(LongNumber, strings[k]).None?
  {
    SelectNumberEmpty(strings);
    match FirstWhere(strings, SelectMeterString, 0)
    case None => []
    case Some(k) =>
      var s := strings[k];
      match First(LongNumber, s)
      case None => []
      case Some((_, g)) => DigitsSlice(s, g.lo, g.hi); s[g.lo..g.hi]
  }

  lemma SelectNumberEmpty(strings: seq<string>)
    ensures FirstWhere(strings, SelectMeterString, 0).None? ==> forall k: nat :: !FirstIndex(strings, SelectMeterString, k)
    ensures forall k: nat :: FirstIndex(strings, SelectMeterString, k) ==> FirstWhere(strings, SelectMeterString, 0) == Some(k)
  {
    forall k: nat | FirstIndex(strings, SelectMeterString, k) ensures FirstWhere(strings, SelectMeterString, 0) == Some(k) {
      FirstWhereIs(strings, SelectMeterString, k);
    }
  }

  /**
   * Strategy 1 reads the first string that mentions "Select Meter": its
   * leftmost 8-12 digit run is the number, and without one the strategy
   * gives nothing, whatever later strings hold.
   */
  lemma SelectNumberFirstHit(strings: seq<string>, k: nat)
    requires FirstIndex(strings, SelectMeterString, k)
    ensures First(LongNumber, strings[k]).None? ==> SelectNumber(strings) == []
    ensures First(LongNumber, strings[k]).Some? ==>
      var g := First(LongNumber, strings[k]).value.1;
      g.lo <= g.hi <= |strings[k]| && SelectNumber(strings) == strings[k][g.lo..g.hi]
  {
    FirstWhereIs(strings, SelectMeterString, k);
  }

  /** Strategy 3: the 10-12 digits after "Meter" or "Account" in the page text. */
  function PageAccountNumber(t: string): (n: string)
    ensures n != [] ==> 10 <= |n| <= 12 && AllDigits(n)
    ensures n == [] <==> First(AccountNumber, t).None?
  {
    match First(AccountNumber, t)
    case None => []
    case Some((_, g)) => DigitsSlice(t, g.lo, g.hi); t[g.lo..g.hi]
  }

  /**
   * The page's meter number: strategy 1, else the whole value of the first
   * option starting with eight digits, else strategy 3.
   */
  function PageNumber(p: Page): (n: string)
    ensures n != [] ==> (8 <= |n| <= 12 && AllDigits(n)) || (n in p.options && MeterOption(n))
    ensures n == [] <==>
      && SelectNumber(p.strings) == []
      && (forall k :: 0 <= k < |p.options| ==> !MeterOption(p.options[k]))
      && PageAccountNumber(p.text) == []
  {
    var s := SelectNumber(p.strings);
    if s != [] then s
    else match FirstWhere(p.options, MeterOption, 0)
      case Some(k) => p.options[k]
      case None => PageAccountNumber(p.text)
  }

  /**
   * The three strategies in order, each consulted only when the ones before
   * it found nothing: the "Select Meter" string, then the first option that
   * starts with eight digits, then the account number in the page text.
   */
  lemma PageNumberFirstHit(p: Page)
    ensures SelectNumber(p.strings) != [] ==> PageNumber(p) == SelectNumber(p.strings)
    ensures forall k: nat :: SelectNumber(p.strings) == [] && FirstIndex(p.options, MeterOption, k) ==> PageNumber(p) == p.options[k]
    ensures SelectNumber(p.strings) == [] && (forall k :: 0 <= k < |p.options| ==> !MeterOption(p.options[k])) ==>
      PageNumber(p) == PageAccountNumber(p.text)
  {
    forall k: nat | SelectNumber(p.strings) == [] && FirstIndex(p.options, MeterOption, k) ensures PageNumber(p) == p.options[k] {
      FirstWhereIs(p.options, MeterOption, k);
    }
  }

  predicate ChartScript(s: string) { s != [] && Contains(s, "chartObjects") }

  /** The number a chart script states: the "Current balance" series, else the kWh series. */
  function ChartNumber(s: string): (r: Option<DecimalText>)
    ensures r.Some? ==> r.value != []
    ensures r.None? <==> First(CurrentBalance, s).None? && First(SeriesBalance, s).None?
    ensures First(CurrentBalance, s).Some? ==>
      var g := First(CurrentBalance, s).value.1;
      g.lo <= g.hi <= |s| && r == Some(s[g.lo..g.hi])
    ensures First(CurrentBalance, s).None? && First(SeriesBalance, s).Some? ==>
      var g := First(SeriesBalance, s).value.1;
      g.lo <= g.hi <= |s| && r == Some(s[g.lo..g.hi])
  {
    match First(CurrentBalance, s)
    case Some((_, g)) => Some(Digits(s, g))
    case None =>
      match First(SeriesBalance, s)
      case Some((_, g)) => Some(Digits(s, g))
      case None => None
  }

  /** The group of a chart pattern. */
  function Digits(s: string, g: Span): (r: DecimalText)
    requires NumberChars(s, g) && g.lo < g.hi
    ensures |r| == g.hi - g.lo > 0
  {
    var x := s[g.lo..g.hi];
    assert forall k :: 0 <= k < |x| ==> x[k] == s[g.lo + k];
    x
  }

  /** The number each script states, for the chart scripts. */
  function ChartNumbers(scripts: seq<string>): (ns: seq<Option<DecimalText>>)
    ensures |ns| == |scripts|
    ensures forall k :: 0 <= k < |scripts| && !ChartScript(scripts[k]) ==> ns[k].None?
  {
    seq(|scripts|, k requires 0 <= k < |scripts| => if ChartScript(scripts[k]) then ChartNumber(scripts[k]) else None)
  }

  /** float() on a stated number: the balance, or an exception. */
  function Convert(x: DecimalText): (r: Outcome<Option<real>>)
    ensures r.Raises? <==> !ValidPyDecimal(x)
    ensures r.Returns? ==> r.value.Some? && r.value.value >= 0.0
  {
    match PyFloat(x)
    case None => Raises
    case Some(v) => Returns(Some(v))
  }

  /** The first stated number from `i` on, converted. */
  function ScriptBalance(nums: seq<Option<DecimalText>>, i: nat): (r: Outcome<Option<real>>)
    requires i <= |nums|
    decreases |nums| - i
    ensures r.Returns? && r.value.Some? ==> r.value.value >= 0.0
  {
    if i == |nums| then Returns(None)
    else match nums[i]
      case None => ScriptBalance(nums, i + 1)
      case Some(x) => Convert(x)
  }

  /** The position of the first stated number from `i` on. */
  function FirstStated(nums: seq<Option<DecimalText>>, i: nat): (r: Option<nat>)
    requires i <= |nums|
    decreases |nums| - i
    ensures r.Some? ==> i <= r.value < |nums| && nums[r.value].Some?
    ensures r.Some? ==> forall j :: i <= j < r.value ==> nums[j].None?
    ensures r.None? ==> forall j :: i <= j < |nums| ==> nums[j].None?
  {
    if i == |nums| then None else if nums[i].Some? then Some(i) else FirstStated(nums, i + 1)
  }

  /** The first stated number decides: none gives no balance, a malformed one raises, any other is the balance. */
  lemma {:induction false} ScriptBalanceFirst(nums: seq<Option<DecimalText>>, i: nat)
    requires i <= |nums|
    decreases |nums| - i
    ensures FirstStated(nums, i).None? ==> ScriptBalance(nums, i) == Returns(None)
    ensures FirstStated(nums, i).Some? ==> ScriptBalance(nums, i) == Convert(nums[FirstStated(nums, i).value].value)
  {
    if i < |nums| && nums[i].None? {
      ScriptBalanceFirst(nums, i + 1);
    }
  }

  /** A string stating the balance line. */
  predicate BalanceString(s: string) { HasBalanceLine(s) }

  /** The fallback's amount: the first `... kWh` amount in the first string stating the balance line, stripped. */
  function HtmlAmount(strings: seq<string>): (r: Option<DecimalText>)
    ensures (forall k :: 0 <= k < |strings| ==> !BalanceString(strings[k])) ==> r.None?
  {
    match FirstWhere(strings, BalanceString, 0)
    case None => None
    case Some(k) => AmountGroup(KwhAmount, Strip(strings[k]))
  }

  /** The scripts' balance, replaced by the text's amount while it is falsy. */
  function PageBalanceOf(script: Outcome<Option<real>>, html: Option<DecimalText>): (r: Outcome<Option<real>>)
    ensures script.Raises? ==> r.Raises?
    ensures script.Returns? && (!Falsy(script.value) || html.None?) ==> r == script
    ensures script.Returns? && Falsy(script.value) && html.Some? ==> r == Convert(html.value)
    ensures (script.Returns? && script.value.Some? ==> script.value.value >= 0.0) ==> (r.Returns? && r.value.Some? ==> r.value.value >= 0.0)
  {
    match script
    case Raises => Raises
    case Returns(b) =>
      if !Falsy(b) || html.None? then script
      else Convert(html.value)
  }

  function PageBalance(p: Page): Outcome<Option<real>> {
    PageBalanceOf(ScriptBalance(ChartNumbers(p.scripts), 0), HtmlAmount(p.strings))
  }

  /** A zero chart balance falls back to the text: its amount when it converts, the zero when there is none. */
  lemma ZeroChartFallsBack(html: Option<DecimalText>)
    ensures html.None? ==> PageBalanceOf(Returns(Some(0.0)), html) == Returns(Some(0.0))
    ensures html.Some? && ValidPyDecimal(html.value) ==> PageBalanceOf(Returns(Some(0.0)), html) == Returns(PyFloat(html.value))
    ensures html.Some? && ValidPyDecimal(html.value) ==> PageBalanceOf(Returns(Some(0.0)), html).value.value >= 0.0
    ensures html.Some? && !ValidPyDecimal(html.value) ==> PageBalanceOf(Returns(Some(0.0)), html) == Raises
  {
  }

  /** The predicted zero-balance date: the ISO form, else day/month/year. */
  function PredictedZeroDate(t: string): (d: Option<string>)
    ensures d.None? <==> First(IsoPredicted, t).None? && First(SlashPredicted, t).None?
  {
    match First(IsoPredicted, t)
    case Some((_, g)) => Some(t[g.lo..g.hi])
    case None =>
      match First(SlashPredicted, t)
      case Some((_, g)) => Some(t[g.lo..g.hi])
      case None => None
  }

  /** `YYYY-MM-DD`. */
  predicate IsoDateText(d: string) {
    |d| == 10 && d[4] == '-' && d[7] == '-' && AllDigits(d[..4]) && AllDigits(d[5..7]) && AllDigits(d[8..])
  }

  /** Eight to ten characters ending in a four-digit year. */
  predicate SlashDateText(d: string) {
    8 <= |d| <= 10 && AllDigits(d[|d| - 4..])
  }

  lemma IsoSpanShape(t: string, g: Span)
    requires GroupShape(IsoPredicted, t, g)
    ensures IsoDateText(t[g.lo..g.hi])
  {
    var d := t[g.lo..g.hi];
    DigitsSlice(t, g.lo, g.lo + 4);
    DigitsSlice(t, g.lo + 5, g.lo + 7);
    DigitsSlice(t, g.lo + 8, g.lo + 10);
    assert d[..4] == t[g.lo..g.lo + 4] && d[5..7] == t[g.lo + 5..g.lo + 7] && d[8..] == t[g.lo + 8..g.lo + 10];
  }

  lemma SlashSpanShape(t: string, g: Span)
    requires GroupShape(SlashPredicted, t, g)
    ensures SlashDateText(t[g.lo..g.hi])
  {
    DigitsSlice(t, g.hi - 4, g.hi);
    assert t[g.lo..g.hi][g.hi - g.lo - 4..] == t[g.hi - 4..g.hi];
  }

  /** An ISO date, when the text has one, is the date; otherwise a day/month/year date is. */
  lemma PredictedDateShape(t: string)
    ensures First(IsoPredicted, t).Some? ==> PredictedZeroDate(t).Some? && IsoDateText(PredictedZeroDate(t).value)
    ensures First(IsoPredicted, t).None? && PredictedZeroDate(t).Some? ==> SlashDateText(PredictedZeroDate(t).value)
  {
    match First(IsoPredicted, t)
    case Some((_, g)) => IsoSpanShape(t, g);
    case None =>
      match First(SlashPredicted, t)
      case Some((_, g)) => SlashSpanShape(t, g);
      case None =>
  }

  /**
   * get_meter_data on a fetched page: one electricity reading in kWh when
   * both a meter number and a balance are found, None otherwise and
   * whenever a conversion raises.
   */
  function GetMeterData(p: Page): (r: Option<Meter>)
    ensures r.Some? <==> PageNumber(p) != [] && PageBalance(p).Returns? && PageBalance(p).value.Some?
    ensures r.Some? ==> r.value == Meter(PageNumber(p), PageBalance(p).value.value, "electricity", Kwh, PredictedZeroDate(p.text))
  {
    match PageBalance(p)
    case Raises => None
    case Returns(b) =>
      var n := PageNumber(p);
      if n != [] && b.Some? then Some(Meter(n, b.value, "electricity", Kwh, PredictedZeroDate(p.text))) else None
  }

  /** A malformed chart number loses the whole reading, whatever else the page says. */
  lemma MalformedChartNumber(p: Page)
    requires ScriptBalance(ChartNumbers(p.scripts), 0).Raises?
    ensures GetMeterData(p).None?
  {
  }

  /** A page reading has a non-negative balance and a meter number of the expected shape. */
  lemma PageReadingShape(p: Page)
    requires GetMeterData(p).Some?
    ensures var m := GetMeterData(p).value;
      && m.balance >= 0.0
      && ((8 <= |m.meterNumber| <= 12 && AllDigits(m.meterNumber)) || (m.meterNumber in p.options && MeterOption(m.meterNumber)))
  {
    var b := PageBalance(p);
    assert b.Returns? && b.value.Some? ==> b.value.value >= 0.0;
    var n := PageNumber(p);
    assert n != [] ==> (8 <= |n| <= 12 && AllDigits(n)) || (n in p.options && MeterOption(n));
  }

  // ---------------------------------------------------------------------------
  // The Home Assistant sensor
  // ---------------------------------------------------------------------------

  /** The number as an entity id writes it: blanks as underscores, lower-cased. */
  function IdNumber(meterNumber: string): string {
    Lower(ReplaceAll(meterNumber, " ", "_"))
  }

  /** The entity id: "sensor.midcity_", the type, "_" and the number as an id writes it. */
  function EntityId(meterType: string, meterNumber: string): (id: string)
    ensures |id| == 16 + |meterType| + |IdNumber(meterNumber)|
    ensures HasPrefix(id, "sensor.midcity_")
    ensures id[15..15 + |meterType|] == meterType && id[15 + |meterType|] == '_'
    ensures id[16 + |meterType|..] == IdNumber(meterNumber)
  {
    "sensor." + "midcity_" + meterType + "_" + IdNumber(meterNumber)
  }

  /** The unique id keeps the number as it is. */
  function UniqueId(meterType: string, meterNumber: string): (id: string)
    ensures HasPrefix(id, "midcity_") && |id| == 9 + |meterType| + |meterNumber|
    ensures id[8..8 + |meterType|] == meterType && id[8 + |meterType|] == '_'
    ensures id[9 + |meterType|..] == meterNumber
  {
    "midcity_" + meterType + "_" + meterNumber
  }

  /** The id's number is the number, character by character, with blanks as underscores and in lower case. */
  lemma IdNumberEach(meterNumber: string)
    ensures |IdNumber(meterNumber)| == |meterNumber|
    ensures forall k :: 0 <= k < |meterNumber| ==>
      IdNumber(meterNumber)[k] == if meterNumber[k] == ' ' then '_' else LowerChar(meterNumber[k])
  {
    ReplaceCharAll(meterNumber, ' ', "_");
    CharSubEach(meterNumber, ' ', '_');
  }

  /** The id writes the number as it is exactly when it has no blank and no capital. */
  lemma IdNumberFixed(meterNumber: string)
    ensures IdNumber(meterNumber) == meterNumber <==>
      forall k :: 0 <= k < |meterNumber| ==> meterNumber[k] != ' ' && !IsUpper(meterNumber[k])
  {
    IdNumberEach(meterNumber);
    var x := IdNumber(meterNumber);
    if forall k :: 0 <= k < |meterNumber| ==> meterNumber[k] != ' ' && !IsUpper(meterNumber[k]) {
      assert forall k :: 0 <= k < |meterNumber| ==> x[k] == meterNumber[k];
    }
  }

  /** The entity id is "sensor." and the unique id exactly when the number has no blank and no capital. */
  lemma EntityIdIsUniqueId(meterType: string, meterNumber: string)
    ensures EntityId(meterType, meterNumber) == "sensor." + UniqueId(meterType, meterNumber) <==>
      forall k :: 0 <= k < |meterNumber| ==> meterNumber[k] != ' ' && !IsUpper(meterNumber[k])
  {
    IdNumberFixed(meterNumber);
    var pre := "sensor." + "midcity_" + meterType + "_";
    var x := IdNumber(meterNumber);
    assert "sensor." + UniqueId(meterType, meterNumber) == pre + meterNumber;
    if pre + x == pre + meterNumber {
      assert (pre + x)[|pre|..] == x && (pre + meterNumber)[|pre|..] == meterNumber;
    }
  }

  /** The device class, icon and unit of a sensor. */
  datatype SensorClass = SensorClass(deviceClass: string, icon: string, unit: string)

  /** Electricity is energy, water is water, anything else is money. */
  function DeviceClass(meterType: string, unit: string): (c: SensorClass)
    ensures c.deviceClass == "energy" <==> meterType == "electricity"
    ensures c.deviceClass == "water" <==> meterType == "water"
    ensures c.deviceClass == "monetary" <==> meterType != "electricity" && meterType != "water"
    ensures c.icon == "mdi:lightning-bolt" <==> c.deviceClass == "energy"
    ensures c.icon == "mdi:water" <==> c.deviceClass == "water"
    ensures c.icon == "mdi:cash" <==> c.deviceClass == "monetary"
    ensures c.unit == unit
  {
    if meterType == "electricity" then SensorClass("energy", "mdi:lightning-bolt", unit)
    else if meterType == "water" then SensorClass("water", "mdi:water", unit)
    else SensorClass("monetary", "mdi:cash", if unit == "ZAR" then "ZAR" else unit)
  }

  /** A page reading is an energy sensor in kWh. */
  lemma PageReadingIsEnergy(p: Page)
    requires GetMeterData(p).Some?
    ensures var m := GetMeterData(p).value;
      DeviceClass(m.meterType, m.unit.Name()) == SensorClass("energy", "mdi:lightning-bolt", "kWh")
  {
  }

  /** A card read in rand is a prepaid meter, and its sensor a money sensor in ZAR. */
  lemma RandCardIsMoney(c: Card)
    ensures CardType(c, Some(Zar)) == "prepaid"
    ensures DeviceClass(CardType(c, Some(Zar)), Zar.Name()) == SensorClass("monetary", "mdi:cash", "ZAR")
  {
    UnitDecidesType(c, Some(Zar));
  }

  predicate IsLetter(c: char) { IsUpper(c) || IsLower(c) }

  /** str.title(): a letter after a letter is lower-cased, any other letter upper-cased. */
  function Title(s: string): (r: string)
    ensures |r| == |s|
  {
    TitleFrom(s, false)
  }

  function TitleFrom(s: string, afterLetter: bool): (r: string)
    decreases |s|
    ensures |r| == |s|
  {
    if |s| == 0 then []
    else
      var c := if !IsLetter(s[0]) then s[0] else if afterLetter then LowerChar(s[0]) else UpperChar(s[0]);
      [c] + TitleFrom(s[1..], IsLetter(s[0]))
  }

  /** The letter at `k` starts a word: nothing or a non-letter comes before it. */
  predicate StartsWord(s: string, k: nat, afterLetter: bool)
    requires k < |s|
  {
    if k == 0 then !afterLetter else !IsLetter(s[k - 1])
  }

  /** Each letter is upper-cased when it starts a word and lower-cased otherwise; other characters are kept. */
  lemma {:induction false} TitleEach(s: string, afterLetter: bool)
    decreases |s|
    ensures forall k :: 0 <= k < |s| ==>
      TitleFrom(s, afterLetter)[k] == if !IsLetter(s[k]) then s[k] else if StartsWord(s, k, afterLetter) then UpperChar(s[k]) else LowerChar(s[k])
  {
    if |s| > 0 {
      TitleEach(s[1..], IsLetter(s[0]));
      assert forall k :: 1 <= k < |s| ==> s[1..][k - 1] == s[k];
    }
  }

  /** The sensor's friendly name. */
  function FriendlyName(meterType: string): (name: string)
    ensures HasPrefix(name, "MidCity ") && |name| == 8 + |meterType|
    ensures name[8..] == Title(meterType)
  {
    "MidCity " + Title(meterType)
  }
}
