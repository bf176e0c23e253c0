/**
 * `parse_signal` (main.py): the direction marker, the leading symbol and the four
 * labelled numbers of a free-text trading alert. Each regular expression of the
 * source is an explicit scanner here, next to a predicate saying when the
 * expression matches, so that the scanner can be proved to find exactly the
 * match `re.match` / `re.search` finds.
 */
module SignalParser {
  import opened Wrappers
  import opened Text
  import Decimal

  // ---------------------------------------------------------------------------
  // Direction and strength
  // ---------------------------------------------------------------------------

  /** The `signal_type` values: small long, long, small short, short. */
  datatype Marker = SmallLong | Long | SmallShort | Short

  datatype Side = Buy | Sell

  const SMALL_LONG: string := "小多單"
  const LONG: string := "多單"
  const SMALL_SHORT: string := "小空單"
  const SHORT: string := "空單"

  function MarkerText(m: Marker): string {
    match m
    case SmallLong => SMALL_LONG
    case Long => LONG
    case SmallShort => SMALL_SHORT
    case Short => SHORT
  }

  /** Both long markers buy, both short markers sell. */
  function SideOf(m: Marker): Side {
    if m == SmallLong || m == Long then Buy else Sell
  }

  /** The `side` string sent to the exchange. */
  function SideName(s: Side): string {
    match s
    case Buy => "Buy"
    case Sell => "Sell"
  }

  /** The `if`/`elif` chain of substring tests, in its order. */
  function Classify(text: string): (r: Option<Marker>)
    ensures r.Some? ==> Contains(text, MarkerText(r.value))
    ensures r.None? <==> !Contains(text, LONG) && !Contains(text, SHORT)
  {
    if Contains(text, SMALL_LONG) then
      assert SMALL_LONG == "小" + LONG;
      ContainsSuffix(text, "小", LONG);
      Some(SmallLong)
    else if Contains(text, LONG) then Some(Long)
    else if Contains(text, SMALL_SHORT) then
      assert SMALL_SHORT == "小" + SHORT;
      ContainsSuffix(text, "小", SHORT);
      Some(SmallShort)
    else if Contains(text, SHORT) then Some(Short)
    else None
  }

  /**
   * What the order of the tests means: a small marker always wins over the plain
   * marker it contains, every long marker wins over every short one, and there is
   * no direction exactly when neither plain marker occurs.
   */
  lemma {:induction false} ClassifySpec(text: string)
    ensures Classify(text) == Some(SmallLong) <==> Contains(text, SMALL_LONG)
    ensures Classify(text) == Some(Long) <==> Contains(text, LONG) && !Contains(text, SMALL_LONG)
    ensures Classify(text) == Some(SmallShort) <==> Contains(text, SMALL_SHORT) && !Contains(text, LONG)
    ensures Classify(text) == Some(Short) <==>
              Contains(text, SHORT) && !Contains(text, SMALL_SHORT) && !Contains(text, LONG)
    ensures Classify(text) == None <==> !Contains(text, LONG) && !Contains(text, SHORT)
  {
    if Contains(text, SMALL_LONG) {
      assert SMALL_LONG == "小" + LONG;
      ContainsSuffix(text, "小", LONG);
    }
    if Contains(text, SMALL_SHORT) {
      assert SMALL_SHORT == "小" + SHORT;
      ContainsSuffix(text, "小", SHORT);
    }
  }

  /** The side is `Buy` exactly when 多單 occurs, and `Sell` exactly when 空單 occurs without it. */
  lemma SideByMarker(text: string)
    ensures Classify(text).Some? && SideOf(Classify(text).value) == Buy <==> Contains(text, LONG)
    ensures Classify(text).Some? && SideOf(Classify(text).value) == Sell <==>
              Contains(text, SHORT) && !Contains(text, LONG)
  {
    ClassifySpec(text);
  }

  // ---------------------------------------------------------------------------
  // Symbol: re.match(r"^([A-Z]+USDT)", text), falling back to BTCUSDT
  // ---------------------------------------------------------------------------

  const DEFAULT_SYMBOL: string := "BTCUSDT"
  const QUOTE: string := "USDT"

  /** `text[..n]` matches `[A-Z]+USDT`. */
  predicate IsSymbolPrefix(text: string, n: nat) {
    5 <= n <= |text| && (forall k :: 0 <= k < n ==> IsUpper(text[k])) && text[n - 4..n] == QUOTE
  }

  ghost predicate HasSymbolPrefix(text: string) {
    exists n :: IsSymbolPrefix(text, n)
  }

  /**
   * The backtracking of the greedy `[A-Z]+` over the upper-case prefix `text[..n]`:
   * the longest prefix within it that ends in USDT after at least one letter.
   */
  function SymbolEnd(text: string, n: nat): (r: Option<nat>)
    requires n <= |text| && forall k :: 0 <= k < n ==> IsUpper(text[k])
    decreases n
    ensures r.Some? ==> r.value <= n && IsSymbolPrefix(text, r.value)
    ensures forall m :: (if r.Some? then r.value else 0) < m <= n ==> !IsSymbolPrefix(text, m)
  {
    if n < 5 then None
    else if text[n - 4..n] == QUOTE then Some(n)
    else SymbolEnd(text, n - 1)
  }

  /** The symbol: the longest `[A-Z]+USDT` prefix of the text, or BTCUSDT when it has none. */
  function Symbol(text: string): (r: string)
    ensures HasSymbolPrefix(text) ==>
              IsSymbolPrefix(text, |r|) && r == text[..|r|] &&
              forall m :: |r| < m ==> !IsSymbolPrefix(text, m)
    ensures !HasSymbolPrefix(text) ==> r == DEFAULT_SYMBOL
  {
    var run := UpperRunEnd(text, 0);
    assert forall m :: run < m ==> !IsSymbolPrefix(text, m);
    match SymbolEnd(text, run)
    case Some(n) => text[..n]
    case None => DEFAULT_SYMBOL
  }

  /** Only the start of the text can name the symbol: text that does not open with a capital letter trades BTCUSDT. */
  lemma SymbolOnlyAtStart(text: string)
    requires text == [] || !IsUpper(text[0])
    ensures Symbol(text) == DEFAULT_SYMBOL
  {
  }

  // ---------------------------------------------------------------------------
  // Labelled numbers: re.search(r"LABEL[:：]?\s*([\d.]+)", text)
  // ---------------------------------------------------------------------------

  /** The four labelled fields: entry price, stop-loss, first take-profit, risk budget. */
  datatype Label = Entry | StopLoss | TakeProfit | Risk

  const ENTRY_LABEL: string := "進場"
  const SL_LABEL: string := "SL"
  const TP_LABEL: string := "TP1"
  const RISK_LABEL: string := "風險"
  const RISK_WORD: string := "risk"

  /**
   * Where the label of field `f` ends when one starts at `i`. The first three labels
   * are case-sensitive; the risk label is `(風險|risk)` under IGNORECASE.
   */
  function LabelEnd(text: string, f: Label, i: nat): (r: Option<nat>)
    ensures r.Some? ==> i < r.value <= |text|
  {
    match f
    case Entry => if OccursAt(text, ENTRY_LABEL, i) then Some(i + |ENTRY_LABEL|) else None
    case StopLoss => if OccursAt(text, SL_LABEL, i) then Some(i + |SL_LABEL|) else None
    case TakeProfit => if OccursAt(text, TP_LABEL, i) then Some(i + |TP_LABEL|) else None
    case Risk =>
      if OccursAt(text, RISK_LABEL, i) then Some(i + |RISK_LABEL|)
      else if OccursFoldedAt(text, RISK_WORD, i) then Some(i + |RISK_WORD|)
      else None
  }

  /**
   * `risk` under IGNORECASE matches four characters exactly when each is its letter in
   * either case or one of the non-ASCII letters that fold onto it: İ or ı for `i`,
   * ſ for `s`, the Kelvin sign for `k`.
   */
  lemma RiskWordAnyCase(text: string, k: nat)
    requires k + 4 <= |text|
    ensures OccursFoldedAt(text, RISK_WORD, k) <==>
              && (text[k] == 'r' || text[k] == 'R')
              && (text[k + 1] == 'i' || text[k + 1] == 'I' || text[k + 1] == '\U{130}' || text[k + 1] == '\U{131}')
              && (text[k + 2] == 's' || text[k + 2] == 'S' || text[k + 2] == '\U{17F}')
              && (text[k + 3] == 'k' || text[k + 3] == 'K' || text[k + 3] == '\U{212A}')
  {
    assert RISK_WORD[0] == 'r' && RISK_WORD[1] == 'i' && RISK_WORD[2] == 's' && RISK_WORD[3] == 'k';
    if OccursFoldedAt(text, RISK_WORD, k) {
      assert Fold(text[k]) == 'r' && Fold(text[k + 1]) == 'i';
      assert Fold(text[k + 2]) == 's' && Fold(text[k + 3]) == 'k';
    }
  }

  /** `text[j..k]` matches `[:：]?\s*`. */
  predicate IsSeparator(text: string, j: nat, k: nat)
    requires j <= k <= |text|
  {
    AllSpace(text, j, k) || (j < k && IsColon(text[j]) && AllSpace(text, j + 1, k))
  }

  /** The field's whole pattern matches at `i`: label, separator, then at least one digit or dot. */
  ghost predicate MatchesAt(text: string, f: Label, i: nat) {
    match LabelEnd(text, f, i)
    case None => false
    case Some(j) => exists k :: j <= k < |text| && IsSeparator(text, j, k) && IsDigitOrDot(text[k])
  }

  /** The greedy `[:：]?\s*`: one colon if there is one, then all the whitespace. */
  function SeparatorEnd(text: string, j: nat): (k: nat)
    requires j <= |text|
    ensures j <= k <= |text| && IsSeparator(text, j, k)
    ensures j < |text| && IsColon(text[j]) ==> j < k
    ensures k == |text| || !IsSpace(text[k])
  {
    if j < |text| && IsColon(text[j]) then SpaceRunEnd(text, j + 1) else SpaceRunEnd(text, j)
  }

  /** A separator followed by a digit or dot can only be the greedy one: the regex has no other way to match. */
  lemma SeparatorUnique(text: string, j: nat, k: nat)
    requires j <= k < |text| && IsSeparator(text, j, k) && IsDigitOrDot(text[k])
    ensures k == SeparatorEnd(text, j)
  {
    if j < |text| && IsColon(text[j]) {
      assert !AllSpace(text, j, k) || k == j;
      SpaceRunUnique(text, j + 1, k);
    } else {
      SpaceRunUnique(text, j, k);
    }
  }

  /** Where the capture group `([\d.]+)` lies. */
  datatype Capture = Capture(start: nat, end: nat)

  /** The capture of the field's pattern at `i`, if the pattern matches there. */
  function CaptureAt(text: string, f: Label, i: nat): (r: Option<Capture>)
    ensures r.Some? <==> MatchesAt(text, f, i)
    ensures r.Some? ==>
              var j, c := LabelEnd(text, f, i).value, r.value;
              && j <= c.start < c.end <= |text|
              && IsSeparator(text, j, c.start)
              && AllDigitOrDot(text, c.start, c.end)
              && (c.end == |text| || !IsDigitOrDot(text[c.end]))
  {
    match LabelEnd(text, f, i)
    case None => None
    case Some(j) =>
      var s := SeparatorEnd(text, j);
      var e := DigitRunEnd(text, s);
      assert MatchesAt(text, f, i) ==> s < e by {
        if MatchesAt(text, f, i) {
          var k :| j <= k < |text| && IsSeparator(text, j, k) && IsDigitOrDot(text[k]);
          SeparatorUnique(text, j, k);
        }
      }
      if s < e then Some(Capture(s, e)) else None
  }

  /** `re.search`: the leftmost index at or after `i` where the field's pattern matches. */
  function FirstMatch(text: string, f: Label, i: nat): (r: Option<nat>)
    decreases |text| - i
    ensures r.Some? ==> i <= r.value < |text| && MatchesAt(text, f, r.value)
    ensures forall k :: i <= k < (if r.Some? then r.value else |text|) ==> !MatchesAt(text, f, k)
  {
    if i >= |text| then None
    else if CaptureAt(text, f, i).Some? then Some(i)
    else FirstMatch(text, f, i + 1)
  }

  /** `m.group(1)` (for the risk field, `m.group(2)`) of the search for field `f`, or `None`. */
  function Field(text: string, f: Label): (r: Option<string>)
    ensures r.Some? ==> r.value != [] && Decimal.IsNumeral(r.value)
    ensures r.None? <==> forall k :: 0 <= k < |text| ==> !MatchesAt(text, f, k)
  {
    match FirstMatch(text, f, 0)
    case None => None
    case Some(i) =>
      var c := CaptureAt(text, f, i).value;
      Some(text[c.start..c.end])
  }

  /** `re.search` finds the leftmost match: the index where the pattern first matches. */
  lemma FirstMatchIsLeftmost(text: string, f: Label, i: nat)
    requires i < |text| && MatchesAt(text, f, i)
    requires forall k :: 0 <= k < i ==> !MatchesAt(text, f, k)
    ensures FirstMatch(text, f, 0) == Some(i)
  {
    var r := FirstMatch(text, f, 0);
    if r.None? || r.value > i {
      assert false;
    } else if r.value < i {
      assert false;
    }
  }

  /**
   * The captured number is the greedy run of digits and dots after the label and the
   * greedy separator of the leftmost match.
   */
  lemma FieldAtFirstMatch(text: string, f: Label, i: nat)
    requires i < |text| && MatchesAt(text, f, i)
    requires forall k :: 0 <= k < i ==> !MatchesAt(text, f, k)
    ensures var start := SeparatorEnd(text, LabelEnd(text, f, i).value);
      Field(text, f) == Some(text[start..DigitRunEnd(text, start)])
  {
    FirstMatchIsLeftmost(text, f, i);
    var start := SeparatorEnd(text, LabelEnd(text, f, i).value);
    assert CaptureAt(text, f, i) == Some(Capture(start, DigitRunEnd(text, start)));
  }

  // ---------------------------------------------------------------------------
  // parse_signal
  // ---------------------------------------------------------------------------

  const DEFAULT_MAX_LOSS: real := 1.0

  /** `float(...) if m else None`, where `float` may raise on a numeral like "1.2." or ".". */
  datatype Conversion = Absent | Number(value: real) | Malformed

  function Convert(num: Option<string>): (r: Conversion)
    requires num.Some? ==> Decimal.IsNumeral(num.value)
    ensures r.Absent? <==> num.None?
    ensures r.Malformed? <==> num.Some? && !Decimal.WellFormed(num.value)
    ensures r.Number? ==> r.value == Decimal.Value(num.value) && r.value >= 0.0
  {
    match num
    case None => Absent
    case Some(s) =>
      match Decimal.ParseFloat(s)
      case None => Malformed
      case Some(v) => Number(v)
  }

  function ToOption(c: Conversion): Option<real> {
    if c.Number? then Some(c.value) else None
  }

  /** The 7-tuple `parse_signal` returns when a marker is present. */
  datatype Signal = Signal(
    symbol: string,
    marker: Marker,
    side: Side,
    entry: Option<real>,
    stopLoss: Option<real>,
    takeProfit: Option<real>,
    maxLoss: real)

  /**
   * What `parse_signal` produces: the all-`None` tuple when no marker is present, the
   * `ValueError` that `float()` raises on a malformed numeral, or the tuple.
   */
  datatype ParseResult = NoDirection | ValueError | Parsed(signal: Signal)

  function ParseSignal(text: string): (r: ParseResult)
    ensures r.NoDirection? <==> !Contains(text, LONG) && !Contains(text, SHORT)
    ensures r.Parsed? ==> Classify(text) == Some(r.signal.marker) && Contains(text, MarkerText(r.signal.marker))
    ensures r.Parsed? ==> r.signal.maxLoss >= 0.0
  {
    match Classify(text)
    case None => NoDirection
    case Some(m) =>
      var entry := Convert(Field(text, Entry));
      var sl := Convert(Field(text, StopLoss));
      var tp := Convert(Field(text, TakeProfit));
      var risk := Convert(Field(text, Risk));
      if entry.Malformed? || sl.Malformed? || tp.Malformed? || risk.Malformed? then ValueError
      else
        Parsed(Signal(Symbol(text), m, SideOf(m), ToOption(entry), ToOption(sl), ToOption(tp),
                      if risk.Number? then risk.value else DEFAULT_MAX_LOSS))
  }

  /** A numeral the field's pattern captures is malformed for `float()`. */
  predicate MalformedField(text: string, f: Label) {
    var num := Field(text, f);
    num.Some? && !Decimal.WellFormed(num.value)
  }

  /** The parser gives up on direction exactly when neither 多單 nor 空單 occurs; it raises exactly on a malformed numeral. */
  lemma ParseOutcomes(text: string)
    ensures ParseSignal(text).NoDirection? <==> !Contains(text, LONG) && !Contains(text, SHORT)
    ensures ParseSignal(text).ValueError? <==>
              (Contains(text, LONG) || Contains(text, SHORT)) &&
              (MalformedField(text, Entry) || MalformedField(text, StopLoss) ||
               MalformedField(text, TakeProfit) || MalformedField(text, Risk))
  {
    ClassifySpec(text);
  }

  /** The field's pattern captures a well-formed numeral whose `float()` value is `v`. */
  predicate CapturedValue(text: string, f: Label, v: real) {
    var num := Field(text, f);
    num.Some? && Decimal.WellFormed(num.value) && v == Decimal.Value(num.value)
  }

  /**
   * The fields of a parsed signal: the marker's side, the leading symbol, each price
   * present exactly when its pattern matches somewhere and then the `float()` value of its
   * capture, and the risk budget the value of the risk capture, defaulting to 1.
   */
  lemma ParsedFields(text: string)
    requires ParseSignal(text).Parsed?
    ensures var s := ParseSignal(text).signal;
      && Classify(text) == Some(s.marker)
      && Contains(text, MarkerText(s.marker))
      && (s.side == Buy <==> Contains(text, LONG))
      && s.symbol == Symbol(text)
      && (s.entry.None? <==> forall k :: 0 <= k < |text| ==> !MatchesAt(text, Entry, k))
      && (s.stopLoss.None? <==> forall k :: 0 <= k < |text| ==> !MatchesAt(text, StopLoss, k))
      && (s.takeProfit.None? <==> forall k :: 0 <= k < |text| ==> !MatchesAt(text, TakeProfit, k))
      && ((forall k :: 0 <= k < |text| ==> !MatchesAt(text, Risk, k)) ==> s.maxLoss == DEFAULT_MAX_LOSS)
      && s.maxLoss >= 0.0
      && (s.entry.Some? ==> CapturedValue(text, Entry, s.entry.value))
      && (s.stopLoss.Some? ==> CapturedValue(text, StopLoss, s.stopLoss.value))
      && (s.takeProfit.Some? ==> CapturedValue(text, TakeProfit, s.takeProfit.value))
      && (Field(text, Risk).Some? ==> CapturedValue(text, Risk, s.maxLoss))
  {
    SideByMarker(text);
    ClassifySpec(text);
  }
}
