/** The per-bar trading logic of `CupWithHandleStrategy`
    (src/algo/strategies.py). Flat, it looks for the first pattern whose
    handle low lies 1 to 27 days back and buys once the close reaches the
    close on the pattern's pivot date; exposed, it sends a close order for
    each of three independent exit checks. Dates are day numbers, prices
    are reals, the price table is a map from day to close, and the broker
    is the list of orders sent to it. */
module Strategy {
  import opened Values
  import opened DateCodec
  import opened PatternModel

  /** The entry window after the handle low, and the holding limit. */
  const WINDOW_DAYS: int := 28
  /** Take profit at 15% above the pivot close, stop loss at 5% below. */
  const TAKE_PROFIT: real := 1.15
  const STOP_LOSS: real := 0.95

  datatype Order = Buy(size: real) | Close

  /** What makes a bar raise: the price table has no close for the pivot
      date (a KeyError), the exposed branch runs before any pattern was
      entered (an AttributeError), or the buy size divides by a zero close
      (a ZeroDivisionError). */
  datatype Fault = MissingPrice(day: Day) | NoOngoingPattern | ZeroDivision

  /** The strategy's own state: the entered pattern, absent until the
      first buy, and the orders sent so far. */
  datatype Memory = Memory(ongoing: Option<CupWithHandle>, orders: seq<Order>)

  /** The state after a bar, and the exception the bar raised, if any. */
  datatype Step = Step(mem: Memory, fault: Option<Fault>)

  predicate Eligible(p: CupWithHandle, today: Day) {
    var difference := today - p.handleLowDate;
    difference > 0 && difference < WINDOW_DAYS
  }

  /** The position of the first eligible pattern, in list order. */
  function FirstEligibleIndex(ps: seq<CupWithHandle>, today: Day): (i: Option<nat>)
    ensures i.Some? ==> i.value < |ps| && Eligible(ps[i.value], today)
                        && forall j :: 0 <= j < i.value ==> !Eligible(ps[j], today)
    ensures i.None? ==> forall j :: 0 <= j < |ps| ==> !Eligible(ps[j], today)
  {
    if ps == [] then None
    else if Eligible(ps[0], today) then Some(0)
    else match FirstEligibleIndex(ps[1..], today)
         case Some(j) => Some(j + 1)
         case None => None
  }

  /** What `get_recent_pattern` returns. */
  function RecentPattern(ps: seq<CupWithHandle>, today: Day): Option<CupWithHandle> {
    match FirstEligibleIndex(ps, today)
    case Some(i) => Some(ps[i])
    case None => None
  }

  /** The close on the pattern's pivot date, if the table has one. */
  function PivotClose(closes: map<Day, real>, p: CupWithHandle): (r: Option<real>)
    ensures r.Some? <==> p.pivotPriceDate in closes
    ensures r.Some? ==> r.value == closes[p.pivotPriceDate]
  {
    if p.pivotPriceDate in closes then Some(closes[p.pivotPriceDate]) else None
  }

  /** `on_no_position`: the ongoing pattern is set before the buy size is
      computed, so a zero close leaves it set and sends nothing. A flat bar
      sends at most one order, a buy of `cash / close`; it only ever enters
      the first eligible pattern; and a bar that raises sends nothing. */
  function OnNoPositionSpec(ps: seq<CupWithHandle>, closes: map<Day, real>, m: Memory,
                            today: Day, close: real, cash: real): (s: Step)
    ensures s.mem.orders == m.orders || (close != 0.0 && s.mem.orders == m.orders + [Buy(cash / close)])
    ensures s.mem.ongoing == m.ongoing || s.mem.ongoing == RecentPattern(ps, today)
    ensures s.fault.Some? ==> s.mem.orders == m.orders
    ensures s.fault == Some(ZeroDivision) ==> close == 0.0 && s.mem.ongoing == RecentPattern(ps, today)
  {
    match RecentPattern(ps, today)
    case None => Step(m, None)
    case Some(p) =>
      match PivotClose(closes, p)
      case None => Step(m, Some(MissingPrice(p.pivotPriceDate)))
      case Some(pivot) =>
        if close >= pivot then
          if close == 0.0 then Step(Memory(Some(p), m.orders), Some(ZeroDivision))
          else Step(Memory(Some(p), m.orders + [Buy(cash / close)]), None)
        else Step(m, None)
  }

  predicate TakeProfit(pivot: real, close: real) { close >= pivot * TAKE_PROFIT }
  predicate StopLoss(pivot: real, close: real) { close <= pivot * STOP_LOSS }
  predicate Expired(p: CupWithHandle, today: Day) { today - p.handleLowDate >= WINDOW_DAYS }

  /** The close orders of the three exit checks, in the order they run. */
  function ExitOrders(p: CupWithHandle, pivot: real, today: Day, close: real): seq<Order> {
    (if TakeProfit(pivot, close) then [Close] else [])
    + (if StopLoss(pivot, close) then [Close] else [])
    + (if Expired(p, today) then [Close] else [])
  }

  /** `on_exposed`. An exposed bar keeps the entered pattern; it raises
      exactly when no pattern was entered or the table lacks its pivot
      date, and then changes nothing; otherwise it appends up to three close
      orders and nothing else. */
  function OnExposedSpec(closes: map<Day, real>, m: Memory, today: Day, close: real): (s: Step)
    ensures s.mem.ongoing == m.ongoing
    ensures s.fault.Some? <==> m.ongoing.None? || m.ongoing.value.pivotPriceDate !in closes
    ensures s.fault.Some? ==> s.mem == m
    ensures m.orders <= s.mem.orders && |s.mem.orders| <= |m.orders| + 3
    ensures forall i :: |m.orders| <= i < |s.mem.orders| ==> s.mem.orders[i] == Close
  {
    match m.ongoing
    case None => Step(m, Some(NoOngoingPattern))
    case Some(p) =>
      match PivotClose(closes, p)
      case None => Step(m, Some(MissingPrice(p.pivotPriceDate)))
      case Some(pivot) => Step(Memory(m.ongoing, m.orders + ExitOrders(p, pivot, today, close)), None)
  }

  /** `next`: the position's size picks the branch. Orders only grow; flat,
      only buys are added; exposed, only closes are added and the entered
      pattern does not change. */
  function NextSpec(ps: seq<CupWithHandle>, closes: map<Day, real>, m: Memory,
                    today: Day, close: real, size: real, cash: real): (s: Step)
    ensures m.orders <= s.mem.orders
    ensures size <= 0.0 ==> forall i :: |m.orders| <= i < |s.mem.orders| ==> s.mem.orders[i].Buy?
    ensures size > 0.0 ==> s.mem.ongoing == m.ongoing
                           && forall i :: |m.orders| <= i < |s.mem.orders| ==> s.mem.orders[i] == Close
  {
    if size <= 0.0 then OnNoPositionSpec(ps, closes, m, today, close, cash)
    else OnExposedSpec(closes, m, today, close)
  }

  // ---------------------------------------------------------------------
  // The strategy object
  // ---------------------------------------------------------------------

  /** The bar's date, close, the broker's cash and the position's size are
      what the engine supplies; they are the methods' parameters. */
  class CupWithHandleStrategy {
    const patterns: seq<CupWithHandle>
    const closes: map<Day, real>
    var ongoingPattern: Option<CupWithHandle>
    var orders: seq<Order>

    function State(): Memory
      reads this
    {
      Memory(ongoingPattern, orders)
    }

    /** The entered pattern is one of the strategy's patterns. */
    predicate Valid()
      reads this
    {
      ongoingPattern.Some? ==> ongoingPattern.value in patterns
    }

    constructor (cupWithHandles: seq<CupWithHandle>, table: map<Day, real>)
      ensures patterns == cupWithHandles && closes == table
      ensures ongoingPattern == None && orders == []
      ensures Valid()
    {
      patterns := cupWithHandles;
      closes := table;
      ongoingPattern := None;
      orders := [];
    }

    /** `get_price_at_pivot_price`: a lookup in the price table. */
    function GetPriceAtPivotPrice(pattern: CupWithHandle): (r: Option<real>)
      ensures r == PivotClose(closes, pattern)
    {
      PivotClose(closes, pattern)
    }

    /** `get_recent_pattern`: the first pattern, in list order, whose handle
        low lies strictly between 0 and 28 days before `today`. */
    method GetRecentPattern(today: Day) returns (recent: Option<CupWithHandle>)
      ensures recent.Some? ==> recent.value in patterns && Eligible(recent.value, today)
      ensures recent.None? <==> forall j :: 0 <= j < |patterns| ==> !Eligible(patterns[j], today)
      ensures recent == RecentPattern(patterns, today)
    {
      var i := 0;
      while i < |patterns|
        invariant 0 <= i <= |patterns|
        invariant forall j :: 0 <= j < i ==> !Eligible(patterns[j], today)
      {
        var pattern := patterns[i];
        var difference := today - pattern.handleLowDate;
        if difference > 0 && difference < 28 {
          ghost var k := FirstEligibleIndex(patterns, today);
          assert k == Some(i) by {
            assert k.Some?;
            assert !(k.value < i) && !(k.value > i);
          }
          return Some(pattern);
        }
        i := i + 1;
      }
      return None;
    }

    method OnNoPosition(today: Day, close: real, cash: real) returns (fault: Option<Fault>)
      requires Valid()
      modifies this
      ensures Step(State(), fault) == OnNoPositionSpec(patterns, closes, old(State()), today, close, cash)
      ensures Valid()
    {
      var recent := GetRecentPattern(today);
      if recent == None {
        return None;
      }
      var pattern := recent.value;
      var pivot := GetPriceAtPivotPrice(pattern);
      if pivot.None? {
        return Some(MissingPrice(pattern.pivotPriceDate));
      }
      if close >= pivot.value {
        ongoingPattern := recent;
        if close == 0.0 {
          return Some(ZeroDivision);
        }
        var size := cash / close;
        orders := orders + [Buy(size)];
      }
      return None;
    }

    method OnExposed(today: Day, close: real) returns (fault: Option<Fault>)
      requires Valid()
      modifies this
      ensures Step(State(), fault) == OnExposedSpec(closes, old(State()), today, close)
      ensures Valid()
    {
      if ongoingPattern.None? {
        return Some(NoOngoingPattern);
      }
      var pattern := ongoingPattern.value;
      var pivot := GetPriceAtPivotPrice(pattern);
      if pivot.None? {
        return Some(MissingPrice(pattern.pivotPriceDate));
      }
      ghost var before := orders;
      if close >= pivot.value * 1.15 {
        orders := orders + [Close];
      }
      if close <= pivot.value * 0.95 {
        orders := orders + [Close];
      }
      var difference := today - pattern.handleLowDate;
      if difference >= 28 {
        orders := orders + [Close];
      }
      assert orders == before + ExitOrders(pattern, pivot.value, today, close);
      return None;
    }

    /** `next`: one bar. */
    method Next(today: Day, close: real, size: real, cash: real) returns (fault: Option<Fault>)
      requires Valid()
      modifies this
      ensures Step(State(), fault) == NextSpec(patterns, closes, old(State()), today, close, size, cash)
      ensures Valid()
    {
      if size <= 0.0 {
        fault := OnNoPosition(today, close, cash);
      } else {
        fault := OnExposed(today, close);
      }
    }
  }

  // ---------------------------------------------------------------------
  // What a bar does
  // ---------------------------------------------------------------------

  /** The entry window is open from 1 to 27 days after the handle low; the
      day of the low itself and the 28th day after it are outside. */
  lemma EntryWindowBoundaries(p: CupWithHandle)
    ensures !Eligible(p, p.handleLowDate) && !Eligible(p, p.handleLowDate + 28)
    ensures Eligible(p, p.handleLowDate + 1) && Eligible(p, p.handleLowDate + 27)
    ensures forall today :: Eligible(p, today) <==> p.handleLowDate + 1 <= today <= p.handleLowDate + 27
  {
  }

  /** Flat, a bar buys exactly when an eligible pattern exists, the table
      has its pivot close, the close reaches it and is not zero; the buy is
      for `cash / close` and enters the first eligible pattern. Any other
      bar sends nothing. */
  lemma FlatBuysOnBreakout(ps: seq<CupWithHandle>, closes: map<Day, real>, m: Memory,
                           today: Day, close: real, cash: real)
    ensures var s := OnNoPositionSpec(ps, closes, m, today, close, cash);
            var i := FirstEligibleIndex(ps, today);
            && (s.mem.orders != m.orders <==>
                  i.Some? && ps[i.value].pivotPriceDate in closes
                  && close >= closes[ps[i.value].pivotPriceDate] && close != 0.0)
            && (s.mem.orders != m.orders ==>
                  s.mem.orders == m.orders + [Buy(cash / close)]
                  && s.mem.ongoing == Some(ps[i.value]) && s.fault.None?)
  {
    var s := OnNoPositionSpec(ps, closes, m, today, close, cash);
    if s.mem.orders != m.orders {
      assert |s.mem.orders| == |m.orders| + 1;
    }
  }

  /** Flat, no eligible pattern or a close below the pivot close leaves the
      whole state as it was. */
  lemma FlatStaysFlat(ps: seq<CupWithHandle>, closes: map<Day, real>, m: Memory,
                      today: Day, close: real, cash: real)
    requires var i := FirstEligibleIndex(ps, today);
             i.None? || (ps[i.value].pivotPriceDate in closes && close < closes[ps[i.value].pivotPriceDate])
    ensures OnNoPositionSpec(ps, closes, m, today, close, cash) == Step(m, None)
  {
  }

  /** Flat, a zero close that reaches the pivot close (one of zero or
      less) raises ZeroDivisionError after the pattern has been entered,
      and sends nothing. */
  lemma ZeroCloseRaises(ps: seq<CupWithHandle>, closes: map<Day, real>, m: Memory,
                        today: Day, cash: real)
    requires var i := FirstEligibleIndex(ps, today);
             i.Some? && ps[i.value].pivotPriceDate in closes && closes[ps[i.value].pivotPriceDate] <= 0.0
    ensures OnNoPositionSpec(ps, closes, m, today, 0.0, cash)
              == Step(Memory(RecentPattern(ps, today), m.orders), Some(ZeroDivision))
  {
  }

  /** A pivot date missing from the price table makes the bar raise, with
      no order sent and the state unchanged, in either branch. */
  lemma MissingPivotFaults(ps: seq<CupWithHandle>, closes: map<Day, real>, m: Memory,
                           today: Day, close: real, size: real, cash: real)
    ensures var i := FirstEligibleIndex(ps, today);
            size <= 0.0 && i.Some? && ps[i.value].pivotPriceDate !in closes ==>
              NextSpec(ps, closes, m, today, close, size, cash)
                == Step(m, Some(MissingPrice(ps[i.value].pivotPriceDate)))
    ensures size > 0.0 && m.ongoing.Some? && m.ongoing.value.pivotPriceDate !in closes ==>
              NextSpec(ps, closes, m, today, close, size, cash)
                == Step(m, Some(MissingPrice(m.ongoing.value.pivotPriceDate)))
  {
  }

  /** The number of close orders sent for the three checks. */
  function ExitCount(p: CupWithHandle, pivot: real, today: Day, close: real): (n: nat)
    ensures n <= 3
  {
    (if TakeProfit(pivot, close) then 1 else 0)
    + (if StopLoss(pivot, close) then 1 else 0)
    + (if Expired(p, today) then 1 else 0)
  }

  function Closes(n: nat): seq<Order> {
    seq(n, _ => Close)
  }

  /** Exposed, a bar whose pivot close is known keeps the entered pattern
      and sends one close order per check that holds, and nothing else. */
  lemma ExposedClosesPerCheck(closes: map<Day, real>, m: Memory, today: Day, close: real)
    requires m.ongoing.Some? && m.ongoing.value.pivotPriceDate in closes
    ensures var s := OnExposedSpec(closes, m, today, close);
            var p := m.ongoing.value;
            && s.fault.None? && s.mem.ongoing == m.ongoing
            && s.mem.orders == m.orders + Closes(ExitCount(p, closes[p.pivotPriceDate], today, close))
  {
    var p := m.ongoing.value;
    var pivot := closes[p.pivotPriceDate];
    var e := ExitOrders(p, pivot, today, close);
    assert |e| == ExitCount(p, pivot, today, close);
    assert forall i :: 0 <= i < |e| ==> e[i] == Close;
    assert e == Closes(ExitCount(p, pivot, today, close));
  }

  /** With a positive pivot close the take-profit and stop-loss checks
      exclude each other, so a bar sends at most two close orders. */
  lemma AtMostTwoCloses(p: CupWithHandle, pivot: real, today: Day, close: real)
    requires pivot > 0.0
    ensures !(TakeProfit(pivot, close) && StopLoss(pivot, close))
    ensures ExitCount(p, pivot, today, close) <= 2
  {
  }

  /** The bound needs the positive pivot: with a negative one all three
      checks can hold on the same bar. */
  lemma ThreeClosesForNegativePivot(p: CupWithHandle)
    ensures ExitCount(p, -1.0, p.handleLowDate + 28, -1.0) == 3
  {
  }

  /** The exit checks are inclusive: with a pivot close of 100, 115 takes
      profit and 114.99 does not, 95 stops the loss and 95.01 does not, and
      the 28th day after the handle low expires the pattern while the 27th
      does not. */
  lemma ExitBoundaries(p: CupWithHandle)
    ensures TakeProfit(100.0, 115.0) && !TakeProfit(100.0, 114.99)
    ensures StopLoss(100.0, 95.0) && !StopLoss(100.0, 95.01)
    ensures Expired(p, p.handleLowDate + 28) && !Expired(p, p.handleLowDate + 27)
  {
  }

  /** The entered pattern is always one of the strategy's patterns. */
  lemma OngoingAmongPatterns(ps: seq<CupWithHandle>, closes: map<Day, real>, m: Memory,
                             today: Day, close: real, size: real, cash: real)
    requires m.ongoing.Some? ==> m.ongoing.value in ps
    ensures var s := NextSpec(ps, closes, m, today, close, size, cash);
            s.mem.ongoing.Some? ==> s.mem.ongoing.value in ps
  {
  }

  /** A pattern with the given handle-low and pivot dates. */
  function PatternOn(handleLow: Day, pivotDate: Day): CupWithHandle {
    CupWithHandle(
      Null, 0, 0, Null, Null, Null, pivotDate, Null, Null, Null, 0, Int(1),
      0, handleLow, 0, 0, Null, Null, Null, Null, Null, Null, Null, Null,
      Null, Null, Null, Null, Null, Null, Null)
  }

  /** A pattern whose handle low and pivot are on one day with a close of
      100: nine days later, flat, a close of 101 and cash of 1000 buy
      1000/101 and enter the pattern. */
  lemma EntryScenario(low: Day)
    ensures var p := PatternOn(low, low);
            NextSpec([p], map[low := 100.0], Memory(None, []), low + 9, 101.0, 0.0, 1000.0)
              == Step(Memory(Some(p), [Buy(1000.0 / 101.0)]), None)
  {
    var p := PatternOn(low, low);
    assert FirstEligibleIndex([p], low + 9) == Some(0);
  }

  /** Then, exposed, a close of 96 sends nothing and a close of 94 on the
      following bar sends a close order by the stop loss. */
  lemma ExitScenario(low: Day)
    ensures var p := PatternOn(low, low);
            var m := Memory(Some(p), [Buy(1000.0 / 101.0)]);
            && NextSpec([p], map[low := 100.0], m, low + 10, 96.0, 1000.0 / 101.0, 0.0) == Step(m, None)
            && NextSpec([p], map[low := 100.0], m, low + 11, 94.0, 1000.0 / 101.0, 0.0)
                 == Step(Memory(Some(p), m.orders + [Close]), None)
  {
  }
}
