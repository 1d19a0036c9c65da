/** The busy-time accounting of scripts/analyze_tp_decode_trace.py: `merge_intervals` and the
    window clipping and grouping that feed it. */
module Intervals {
  import opened Sorting

  /** A half-open span of integer nanoseconds. */
  datatype Interval = Interval(start: int, end: int)

  /** Tuple order, as the list sort uses it. */
  predicate Before(x: Interval, y: Interval) {
    x.start < y.start || (x.start == y.start && x.end <= y.end)
  }

  predicate Covers(x: Interval, p: int) {
    x.start <= p < x.end
  }

  ghost function Range(lo: int, hi: int): set<int> {
    set p: int | lo <= p < hi && Covers(Interval(lo, hi), p)
  }

  /** The instants covered by at least one interval. */
  ghost function Points(s: seq<Interval>): set<int> {
    set i, p | 0 <= i < |s| && s[i].start <= p < s[i].end && Covers(s[i], p) :: p
  }

  /** An interval that ends before it starts. */
  predicate Inverted(x: Interval) {
    x.end < x.start
  }

  /** `x` starts strictly after `y` starts and no later than `y` ends. */
  predicate Absorbs(y: Interval, x: Interval) {
    y.start < x.start <= y.end
  }

  ghost predicate Absorbed(s: seq<Interval>, x: Interval) {
    exists y :: y in s && Absorbs(y, x)
  }

  /** Every inverted interval is absorbed by some other interval. */
  ghost predicate InvertedAbsorbed(s: seq<Interval>) {
    forall x | x in s && Inverted(x) :: Absorbed(s, x)
  }

  /** What an interval takes off the answer: its length below zero, unless something absorbs it. */
  ghost function Debt(s: seq<Interval>, x: Interval): nat {
    if Inverted(x) && !Absorbed(s, x) then x.start - x.end else 0
  }

  ghost function DebtIn(s: seq<Interval>): Interval -> nat {
    x => Debt(s, x)
  }

  /** By how much the answer falls short: the debts of the inverted intervals that nothing absorbs. */
  ghost function Shortfall(s: seq<Interval>): nat {
    Total(DebtIn(s), s)
  }

  lemma ShortfallZero(s: seq<Interval>)
    ensures Shortfall(s) == 0 <==> InvertedAbsorbed(s)
  {
    hide Total, Absorbed;
    TotalZero(DebtIn(s), s);
    if Shortfall(s) == 0 {
      forall x | x in s && Inverted(x) ensures Absorbed(s, x) {
        var i :| 0 <= i < |s| && s[i] == x;
        assert DebtIn(s)(s[i]) == 0;
      }
    }
  }

  lemma ShortfallRearranged(s: seq<Interval>, t: seq<Interval>)
    requires multiset(s) == multiset(t)
    ensures Shortfall(s) == Shortfall(t)
  {
    hide Total;
    SameMembers(s, t);
    TotalRearranged(DebtIn(s), s, t);
    forall i | 0 <= i < |t| ensures DebtIn(s)(t[i]) == DebtIn(t)(t[i]) {
      assert Absorbed(s, t[i]) <==> Absorbed(t, t[i]);
    }
    TotalSameWeights(DebtIn(s), DebtIn(t), t);
  }

  lemma {:induction false} RangeSize(lo: int, hi: int)
    ensures |Range(lo, hi)| == if lo <= hi then hi - lo else 0
    decreases hi - lo
  {
    if lo < hi {
      RangeSize(lo, hi - 1);
      assert Range(lo, hi) == Range(lo, hi - 1) + {hi - 1};
    } else {
      assert Range(lo, hi) == {};
    }
  }

  lemma PointsAppend(s: seq<Interval>, x: Interval)
    ensures Points(s + [x]) == Points(s) + Range(x.start, x.end)
  {
    var t := s + [x];
    forall p ensures p in Points(t) <==> p in Points(s) || p in Range(x.start, x.end) {
      if p in Points(s) {
        var i :| 0 <= i < |s| && s[i].start <= p < s[i].end;
        assert Covers(t[i], p);
      }
      if p in Points(t) {
        var i :| 0 <= i < |t| && t[i].start <= p < t[i].end;
        assert i < |s| ==> Covers(s[i], p);
        assert i == |s| ==> Covers(Interval(x.start, x.end), p);
      }
      if p in Range(x.start, x.end) {
        assert Covers(t[|s|], p);
      }
    }
  }

  lemma PointsSameMembers(s: seq<Interval>, t: seq<Interval>)
    requires forall x :: x in s <==> x in t
    ensures Points(s) == Points(t)
  {
    forall p ensures p in Points(s) <==> p in Points(t) {
      if p in Points(s) {
        var i :| 0 <= i < |s| && s[i].start <= p < s[i].end;
        assert s[i] in t;
        var j :| 0 <= j < |t| && t[j] == s[i];
        assert Covers(t[j], p);
      }
      if p in Points(t) {
        var i :| 0 <= i < |t| && t[i].start <= p < t[i].end;
        assert t[i] in s;
        var j :| 0 <= j < |s| && s[j] == t[i];
        assert Covers(s[j], p);
      }
    }
  }

  /** The sweep's state after the sorted prefix `s`: the open run [start, end) and the total of the closed runs, short by
      the debts so far. */
  ghost predicate Swept(s: seq<Interval>, start: int, end: int, total: int) {
    && |Points(s)| == total + (end - start) + Shortfall(s)
    && RunCovers(Points(s), start, end)
    && RunEnds(s, start, end)
  }

  /** From `start` on, `points` is the open run. */
  ghost predicate RunCovers(points: set<int>, start: int, end: int) {
    && (forall p | p in points :: p < start || p < end)
    && Range(start, end) <= points
  }

  /** Some interval ends where the run does, and none ends later; the run opened no later than some interval. */
  ghost predicate RunEnds(s: seq<Interval>, start: int, end: int) {
    && (forall y | y in s :: y.end <= end || y.end < start)
    && (exists y :: y in s && y.end == end)
    && (exists y :: y in s && start <= y.start)
  }

  lemma SweepFirst(x: Interval)
    ensures Swept([x], x.start, x.end, 0)
  {
    hide Total;
    PointsAppend([], x);
    assert [] + [x] == [x] && Points([]) == {};
    RangeSize(x.start, x.end);
    assert Points([x]) == Range(x.start, x.end);
    assert x in [x];
    assert forall y :: y in [x] <==> y == x;
    ShortfallAppend([], x);
    ShortfallZero([]);
    assert !Absorbed([], x);
  }

  /** The next interval in sorted order absorbs nothing before it, and only adds its own debt. */
  lemma ShortfallAppend(s: seq<Interval>, x: Interval)
    requires forall y | y in s :: Before(y, x)
    ensures Shortfall(s + [x]) == Shortfall(s) + Debt(s, x)
  {
    hide Total;
    var t := s + [x];
    AppendMembers(s, x);
    TotalMore(DebtIn(t), s, x);
    AbsorbedAppend(s, x, x);
    forall i | 0 <= i < |s| ensures DebtIn(t)(s[i]) == DebtIn(s)(s[i]) {
      assert s[i] in s;
      AbsorbedAppend(s, x, s[i]);
    }
    TotalSameWeights(DebtIn(t), DebtIn(s), s);
  }

  lemma AbsorbedAppend(s: seq<Interval>, x: Interval, z: Interval)
    requires z.start <= x.start
    ensures Absorbed(s + [x], z) <==> Absorbed(s, z)
  {
    AppendMembers(s, x);
  }

  lemma GrowRun(points: set<int>, start: int, end: int, x: Interval)
    requires RunCovers(points, start, end) && start <= x.start <= end
    ensures var end' := Later(end, x.end);
            && RunCovers(points + Range(x.start, x.end), start, end')
            && |points + Range(x.start, x.end)| == |points| + (end' - end)
  {
    var end' := Later(end, x.end);
    forall p | p in Range(x.start, x.end) ensures p in points || p in Range(end, end') {
      if p < end {
        assert Covers(Interval(start, end), p);
      } else {
        assert Covers(Interval(end, end'), p);
      }
    }
    assert points + Range(x.start, x.end) == points + Range(end, end') by {
      forall p | p in Range(end, end') ensures p in Range(x.start, x.end) {
        assert Covers(Interval(x.start, x.end), p);
      }
    }
    RangeSize(end, end');
    assert points !! Range(end, end');
    forall p | p in Range(start, end') ensures p in points || p in Range(end, end') {
      if p < end {
        assert Covers(Interval(start, end), p);
      } else {
        assert Covers(Interval(end, end'), p);
      }
    }
  }

  lemma CloseRun(points: set<int>, start: int, end: int, x: Interval)
    requires RunCovers(points, start, end) && start <= x.start && end < x.start
    ensures RunCovers(points + Range(x.start, x.end), x.start, x.end)
    ensures |points + Range(x.start, x.end)| == |points| + if Inverted(x) then 0 else x.end - x.start
  {
    RangeSize(x.start, x.end);
    assert points !! Range(x.start, x.end);
  }

  lemma AppendMembers(s: seq<Interval>, x: Interval)
    ensures forall y :: y in s + [x] <==> y in s || y == x
  {
  }

  /** The next interval starts inside the open run: the run grows, and absorbs it. */
  lemma SweepExtend(s: seq<Interval>, x: Interval, start: int, end: int, total: int)
    requires Swept(s, start, end, total)
    requires forall y | y in s :: Before(y, x)
    requires x.start <= end
    ensures Swept(s + [x], start, Later(end, x.end), total)
  {
    hide Shortfall, Points, Range, RunCovers, RunEnds;
    PointsAppend(s, x);
    RunStarted(s, x, start, end);
    GrowRun(Points(s), start, end, x);
    ShortfallAppend(s, x);
    RunAbsorbs(s, x, start, end);
    RunEndsLater(s, x, start, end);
  }

  lemma RunStarted(s: seq<Interval>, x: Interval, start: int, end: int)
    requires RunEnds(s, start, end) && forall y | y in s :: Before(y, x)
    ensures start <= x.start
  {
  }

  lemma RunAbsorbs(s: seq<Interval>, x: Interval, start: int, end: int)
    requires RunEnds(s, start, end) && (forall y | y in s :: Before(y, x)) && x.start <= end
    ensures Debt(s, x) == 0
  {
    var y :| y in s && y.end == end;
    assert Inverted(x) ==> Absorbs(y, x);
  }

  lemma RunEndsLater(s: seq<Interval>, x: Interval, start: int, end: int)
    requires RunEnds(s, start, end) && start <= x.start <= end
    ensures RunEnds(s + [x], start, Later(end, x.end))
  {
    AppendMembers(s, x);
    var y :| y in s && y.end == end;
    assert y in s + [x] && x in s + [x];
  }

  /** The next interval starts past the open run: the run is closed and added to the total. */
  lemma SweepClose(s: seq<Interval>, x: Interval, start: int, end: int, total: int)
    requires Swept(s, start, end, total)
    requires forall y | y in s :: Before(y, x)
    requires x.start > end
    ensures Swept(s + [x], x.start, x.end, total + end - start)
  {
    hide Shortfall, Points, Range, RunCovers, RunEnds;
    PointsAppend(s, x);
    RunStarted(s, x, start, end);
    CloseRun(Points(s), start, end, x);
    ShortfallAppend(s, x);
    RunMisses(s, x, start, end);
  }

  lemma RunMisses(s: seq<Interval>, x: Interval, start: int, end: int)
    requires RunEnds(s, start, end) && (forall y | y in s :: Before(y, x)) && x.start > end
    ensures !Absorbed(s, x) && RunEnds(s + [x], x.start, x.end)
  {
    RunStarted(s, x, start, end);
    AppendMembers(s, x);
    assert x in s + [x];
  }

  lemma BeforeIsTotal()
    ensures TotalOrder(Before) && TotalPreorder(Before)
  {
  }

  lemma SortedPrefix(s: seq<Interval>, k: nat)
    requires Sorted(Before, s) && k < |s|
    ensures forall y | y in s[..k] :: Before(y, s[k])
    ensures s[..k + 1] == s[..k] + [s[k]]
  {
    forall y | y in s[..k] ensures Before(y, s[k]) {
      var i :| 0 <= i < k && s[..k][i] == y;
      assert y == s[i];
    }
  }

  function Later(x: int, y: int): int {
    if x >= y then x else y
  }

  /** The loop's variables after the first `k` intervals of the sorted list. */
  datatype Run = Run(start: int, end: int, total: int)

  function RunAfter(s: seq<Interval>, k: nat): Run
    requires 1 <= k <= |s|
  {
    if k == 1 then Run(s[0].start, s[0].end, 0)
    else
      var r, x := RunAfter(s, k - 1), s[k - 1];
      if x.start <= r.end then Run(r.start, Later(r.end, x.end), r.total)
      else Run(x.start, x.end, r.total + r.end - r.start)
  }

  ghost predicate RunSwept(s: seq<Interval>, k: nat)
    requires 1 <= k <= |s|
  {
    var r := RunAfter(s, k);
    Swept(s[..k], r.start, r.end, r.total)
  }

  lemma RunStep(s: seq<Interval>, k: nat)
    requires Sorted(Before, s) && 1 <= k < |s| && RunSwept(s, k)
    ensures RunSwept(s, k + 1)
  {
    hide Swept, Sorted, Before;
    var r := RunAfter(s, k);
    SortedPrefix(s, k);
    if s[k].start <= r.end {
      SweepExtend(s[..k], s[k], r.start, r.end, r.total);
    } else {
      SweepClose(s[..k], s[k], r.start, r.end, r.total);
    }
  }

  lemma {:induction false} RunAfterSwept(s: seq<Interval>, k: nat)
    requires Sorted(Before, s) && 1 <= k <= |s|
    ensures RunSwept(s, k)
  {
    hide Swept, RunSwept, Sorted;
    if k == 1 {
      FirstRun(s);
    } else {
      RunAfterSwept(s, k - 1);
      RunStep(s, k - 1);
    }
  }

  lemma FirstRun(s: seq<Interval>)
    requires s != []
    ensures RunSwept(s, 1)
  {
    hide Swept;
    SweepFirst(s[0]);
    assert s[..1] == [s[0]];
  }

  /** The loop over the sorted list. */
  method Sweep(s: seq<Interval>) returns (total: int)
    requires Sorted(Before, s) && s != []
    ensures total == |Points(s)| - Shortfall(s)
  {
    hide Sorted, Points, Shortfall;
    total := 0;
    var start, end := s[0].start, s[0].end;
    var k := 1;
    while k < |s|
      invariant 1 <= k <= |s|
      invariant RunAfter(s, k) == Run(start, end, total)
    {
      if s[k].start <= end {
        end := Later(end, s[k].end);
      } else {
        total := total + end - start;
        start, end := s[k].start, s[k].end;
      }
      k := k + 1;
    }
    total := total + end - start;
    RunAfterSwept(s, k);
    assert s[..k] == s;
  }

  /** `merge_intervals`: the number of instants covered, short by the debts of the inverted intervals that nothing absorbs;
      so it is that number exactly when there are none, in particular whenever no interval is inverted. */
  method MergeIntervals(intervals: seq<Interval>) returns (total: int)
    ensures total == |Points(intervals)| - Shortfall(intervals)
    ensures total == |Points(intervals)| <==> InvertedAbsorbed(intervals)
  {
    hide Shortfall, Points, InvertedAbsorbed, Sort, Before;
    ShortfallZero(intervals);
    if intervals == [] {
      NothingCovered();
      return 0;
    }
    var s := Sort(Before, intervals);
    BeforeIsTotal();
    SortSorts(Before, intervals);
    SameMembers(s, intervals);
    PointsSameMembers(s, intervals);
    ShortfallRearranged(s, intervals);
    total := Sweep(s);
  }

  lemma NothingCovered()
    ensures Points([]) == {} && Shortfall([]) == 0
  {
  }

  /** The answer can be wrong, even negative: (5, 3) alone covers nothing and is counted as -2. */
  lemma InvertedUndercounts()
    ensures var s := [Interval(5, 3)]; !InvertedAbsorbed(s) && |Points(s)| == 0 && Shortfall(s) == 2
  {
    var x := Interval(5, 3);
    var s := [x];
    assert s[0] == x && x in s;
    assert forall y :: y in s ==> y == x;
    assert !Absorbed(s, x);
    assert Points(s) == {};
    NothingCovered();
    TotalMore(DebtIn(s), [], x);
    assert [] + [x] == s;
  }

  /** One kernel dispatch of the trace. */
  datatype Dispatch = Dispatch(agent: string, start: int, end: int)

  /** Whose dispatches count: one agent's, or everybody's. */
  datatype Who = Agent(name: string) | Anyone

  predicate Picks(who: Who, d: Dispatch) {
    who.Anyone? || d.agent == who.name
  }

  predicate Running(d: Dispatch, p: int) {
    d.start <= p < d.end
  }

  /** The instants of the window at which somebody `who` picks runs a kernel. */
  ghost function BusyInstants(trace: seq<Dispatch>, who: Who, windowStart: int, windowEnd: int): set<int> {
    set p: int | windowStart <= p < windowEnd && BusyAt(trace, who, p)
  }

  ghost predicate BusyAt(trace: seq<Dispatch>, who: Who, p: int) {
    exists i :: 0 <= i < |trace| && Picks(who, trace[i]) && Running(trace[i], p)
  }

  /** The span of a dispatch inside the window, or nothing. */
  function Clip(d: Dispatch, windowStart: int, windowEnd: int): seq<Interval> {
    if d.end <= windowStart || d.start > windowEnd then []
    else
      var lo := if d.start >= windowStart then d.start else windowStart;
      var hi := if d.end <= windowEnd then d.end else windowEnd;
      if hi <= lo then [] else [Interval(lo, hi)]
  }

  /** The clipped spans of the picked dispatches, in trace order. */
  function Collected(trace: seq<Dispatch>, who: Who, windowStart: int, windowEnd: int): seq<Interval> {
    if trace == [] then []
    else
      var d := trace[|trace| - 1];
      Collected(trace[..|trace| - 1], who, windowStart, windowEnd)
      + if Picks(who, d) then Clip(d, windowStart, windowEnd) else []
  }

  lemma ClipPoints(s: seq<Interval>, d: Dispatch, windowStart: int, windowEnd: int)
    ensures forall p :: p in Points(s + Clip(d, windowStart, windowEnd)) <==>
                        p in Points(s) || (windowStart <= p < windowEnd && Running(d, p))
  {
    var c := Clip(d, windowStart, windowEnd);
    if c != [] {
      PointsAppend(s, c[0]);
      assert c == [c[0]];
      forall p ensures p in Range(c[0].start, c[0].end) <==> windowStart <= p < windowEnd && Running(d, p) {
        if windowStart <= p < windowEnd && Running(d, p) {
          assert Covers(Interval(c[0].start, c[0].end), p);
        }
      }
    } else {
      assert s + c == s;
    }
  }

  lemma {:induction false} CollectedProper(trace: seq<Dispatch>, who: Who, windowStart: int, windowEnd: int)
    ensures forall x | x in Collected(trace, who, windowStart, windowEnd) :: x.start < x.end
  {
    if trace == [] {
    } else {
      CollectedProper(trace[..|trace| - 1], who, windowStart, windowEnd);
    }
  }

  lemma BusyLast(trace: seq<Dispatch>, who: Who, windowStart: int, windowEnd: int)
    requires trace != []
    ensures var d := trace[|trace| - 1];
            forall p :: p in BusyInstants(trace, who, windowStart, windowEnd) <==>
                        || p in BusyInstants(trace[..|trace| - 1], who, windowStart, windowEnd)
                        || (Picks(who, d) && windowStart <= p < windowEnd && Running(d, p))
  {
    var n := |trace| - 1;
    forall p ensures p in BusyInstants(trace, who, windowStart, windowEnd) <==>
                     || p in BusyInstants(trace[..n], who, windowStart, windowEnd)
                     || (Picks(who, trace[n]) && windowStart <= p < windowEnd && Running(trace[n], p))
    {
      if p in BusyInstants(trace, who, windowStart, windowEnd) {
        var i :| 0 <= i < |trace| && Picks(who, trace[i]) && Running(trace[i], p);
        assert i < n ==> trace[..n][i] == trace[i];
      }
      if p in BusyInstants(trace[..n], who, windowStart, windowEnd) {
        var i :| 0 <= i < n && Picks(who, trace[..n][i]) && Running(trace[..n][i], p);
        assert trace[i] == trace[..n][i];
      }
    }
  }

  /** The collected spans cover exactly the busy instants. */
  lemma {:induction false} CollectedPoints(trace: seq<Dispatch>, who: Who, windowStart: int, windowEnd: int)
    ensures Points(Collected(trace, who, windowStart, windowEnd)) == BusyInstants(trace, who, windowStart, windowEnd)
  {
    if trace == [] {
    } else {
      var n := |trace| - 1;
      CollectedPoints(trace[..n], who, windowStart, windowEnd);
      BusyLast(trace, who, windowStart, windowEnd);
      var earlier := Collected(trace[..n], who, windowStart, windowEnd);
      if Picks(who, trace[n]) {
        ClipPoints(earlier, trace[n], windowStart, windowEnd);
      } else {
        assert earlier + [] == earlier;
      }
    }
  }

  /** Busy time as the report computes it is the number of busy instants. */
  method BusyTime(trace: seq<Dispatch>, who: Who, windowStart: int, windowEnd: int, spans: seq<Interval>) returns (busy: int)
    requires spans == Collected(trace, who, windowStart, windowEnd)
    ensures busy == |BusyInstants(trace, who, windowStart, windowEnd)|
  {
    busy := MergeIntervals(spans);
    CollectedPoints(trace, who, windowStart, windowEnd);
    CollectedProper(trace, who, windowStart, windowEnd);
  }

  lemma CollectedMore(trace: seq<Dispatch>, k: nat, who: Who, windowStart: int, windowEnd: int)
    requires k < |trace|
    ensures Collected(trace[..k + 1], who, windowStart, windowEnd)
         == Collected(trace[..k], who, windowStart, windowEnd)
            + if Picks(who, trace[k]) then Clip(trace[k], windowStart, windowEnd) else []
  {
    hide Clip, Picks;
    assert trace[..k + 1][..k] == trace[..k];
  }

  /** The agents' lists after the first dispatches. */
  ghost predicate Grouped(perAgent: map<string, seq<Interval>>, trace: seq<Dispatch>, windowStart: int, windowEnd: int) {
    forall a :: AgentsList(perAgent, a) == Collected(trace, Agent(a), windowStart, windowEnd) && (a in perAgent ==> perAgent[a] != [])
  }

  /** An agent that is not listed has no spans. */
  function AgentsList(perAgent: map<string, seq<Interval>>, a: string): seq<Interval> {
    if a in perAgent then perAgent[a] else []
  }

  lemma GroupedMore(perAgent: map<string, seq<Interval>>, perAgent': map<string, seq<Interval>>, trace: seq<Dispatch>, k: nat,
                    windowStart: int, windowEnd: int)
    requires k < |trace| && Grouped(perAgent, trace[..k], windowStart, windowEnd)
    requires var d, span := trace[k], Clip(trace[k], windowStart, windowEnd);
             perAgent' == if span == [] then perAgent else perAgent[d.agent := AgentsList(perAgent, d.agent) + span]
    ensures Grouped(perAgent', trace[..k + 1], windowStart, windowEnd)
  {
    hide Collected, Clip;
    forall a ensures && AgentsList(perAgent', a) == Collected(trace[..k + 1], Agent(a), windowStart, windowEnd)
                     && (a in perAgent' ==> perAgent'[a] != [])
    {
      CollectedMore(trace, k, Agent(a), windowStart, windowEnd);
      assert AgentsList(perAgent, a) == Collected(trace[..k], Agent(a), windowStart, windowEnd);
    }
  }

  lemma NothingCollected(trace: seq<Dispatch>, windowStart: int, windowEnd: int)
    ensures Grouped(map[], trace[..0], windowStart, windowEnd)
    ensures Collected(trace[..0], Anyone, windowStart, windowEnd) == [] && trace[..|trace|] == trace
  {
  }

  /** The grouping loop: one list of clipped spans per agent seen in the window, and one list for everybody. */
  method Collect(trace: seq<Dispatch>, windowStart: int, windowEnd: int)
    returns (perAgent: map<string, seq<Interval>>, all: seq<Interval>)
    ensures all == Collected(trace, Anyone, windowStart, windowEnd)
    ensures forall a :: a in perAgent <==> Collected(trace, Agent(a), windowStart, windowEnd) != []
    ensures forall a | a in perAgent :: perAgent[a] == Collected(trace, Agent(a), windowStart, windowEnd)
  {
    hide Collected, Grouped, Clip;
    perAgent, all := map[], [];
    NothingCollected(trace, windowStart, windowEnd);
    for k := 0 to |trace|
      invariant all == Collected(trace[..k], Anyone, windowStart, windowEnd)
      invariant Grouped(perAgent, trace[..k], windowStart, windowEnd)
    {
      var d := trace[k];
      var span := Clip(d, windowStart, windowEnd);
      CollectedMore(trace, k, Anyone, windowStart, windowEnd);
      ghost var before := perAgent;
      if span != [] {
        perAgent := perAgent[d.agent := AgentsList(perAgent, d.agent) + span];
        all := all + span;
      }
      GroupedMore(before, perAgent, trace, k, windowStart, windowEnd);
    }
    GroupedFacts(perAgent, trace, windowStart, windowEnd);
  }

  lemma GroupedFacts(perAgent: map<string, seq<Interval>>, trace: seq<Dispatch>, windowStart: int, windowEnd: int)
    requires Grouped(perAgent, trace, windowStart, windowEnd)
    ensures forall a :: a in perAgent <==> Collected(trace, Agent(a), windowStart, windowEnd) != []
    ensures forall a | a in perAgent :: perAgent[a] == Collected(trace, Agent(a), windowStart, windowEnd)
  {
    hide Collected;
    forall a ensures a in perAgent <==> Collected(trace, Agent(a), windowStart, windowEnd) != [] {
      assert AgentsList(perAgent, a) == Collected(trace, Agent(a), windowStart, windowEnd);
    }
    forall a | a in perAgent ensures perAgent[a] == Collected(trace, Agent(a), windowStart, windowEnd) {
      assert AgentsList(perAgent, a) == Collected(trace, Agent(a), windowStart, windowEnd);
    }
  }

  ghost function SumBusy(trace: seq<Dispatch>, agents: seq<string>, windowStart: int, windowEnd: int): nat {
    if agents == [] then 0
    else |BusyInstants(trace, Agent(agents[0]), windowStart, windowEnd)|
         + SumBusy(trace, agents[1..], windowStart, windowEnd)
  }

  lemma UnionSize(a: set<int>, b: set<int>)
    ensures |a + b| <= |a| + |b|
  {
    assert a + b == a + (b - a);
    SubsetSize(b - a, b);
  }

  lemma {:induction false} SubsetSize(a: set<int>, b: set<int>)
    requires a <= b
    ensures |a| <= |b|
  {
    assert b == a + (b - a);
  }

  /** The instants at which one of `agents` is busy. */
  ghost function UnionBusy(trace: seq<Dispatch>, agents: seq<string>, windowStart: int, windowEnd: int): (r: set<int>)
    ensures forall a | a in agents :: BusyInstants(trace, Agent(a), windowStart, windowEnd) <= r
  {
    if agents == [] then {}
    else BusyInstants(trace, Agent(agents[0]), windowStart, windowEnd)
         + UnionBusy(trace, agents[1..], windowStart, windowEnd)
  }

  lemma {:induction false} UnionAtMostSum(trace: seq<Dispatch>, agents: seq<string>, windowStart: int, windowEnd: int)
    ensures |UnionBusy(trace, agents, windowStart, windowEnd)| <= SumBusy(trace, agents, windowStart, windowEnd)
  {
    if agents == [] {
    } else {
      UnionAtMostSum(trace, agents[1..], windowStart, windowEnd);
      UnionSize(BusyInstants(trace, Agent(agents[0]), windowStart, windowEnd),
                UnionBusy(trace, agents[1..], windowStart, windowEnd));
    }
  }

  /** Every agent's busy time is at most the window and at most the any-GPU busy time, which is itself at most the
      window and at most the sum of the busy times of the agents that appear in the trace. */
  lemma BusyBounds(trace: seq<Dispatch>, agents: seq<string>, windowStart: int, windowEnd: int, a: string)
    requires windowStart <= windowEnd
    requires forall i | 0 <= i < |trace| :: trace[i].agent in agents
    ensures |BusyInstants(trace, Agent(a), windowStart, windowEnd)| <= |BusyInstants(trace, Anyone, windowStart, windowEnd)|
    ensures |BusyInstants(trace, Anyone, windowStart, windowEnd)| <= windowEnd - windowStart
    ensures |BusyInstants(trace, Anyone, windowStart, windowEnd)| <= SumBusy(trace, agents, windowStart, windowEnd)
  {
    var any := BusyInstants(trace, Anyone, windowStart, windowEnd);
    forall p | p in BusyInstants(trace, Agent(a), windowStart, windowEnd) ensures p in any {
      var i :| 0 <= i < |trace| && Picks(Agent(a), trace[i]) && Running(trace[i], p);
      assert Picks(Anyone, trace[i]);
    }
    SubsetSize(BusyInstants(trace, Agent(a), windowStart, windowEnd), any);
    forall p | p in any ensures p in Range(windowStart, windowEnd) {
      assert Covers(Interval(windowStart, windowEnd), p);
    }
    SubsetSize(any, Range(windowStart, windowEnd));
    RangeSize(windowStart, windowEnd);
    forall p | p in any ensures p in UnionBusy(trace, agents, windowStart, windowEnd) {
      var i :| 0 <= i < |trace| && Picks(Anyone, trace[i]) && Running(trace[i], p);
      assert Picks(Agent(trace[i].agent), trace[i]);
      assert p in BusyInstants(trace, Agent(trace[i].agent), windowStart, windowEnd);
    }
    SubsetSize(any, UnionBusy(trace, agents, windowStart, windowEnd));
    UnionAtMostSum(trace, agents, windowStart, windowEnd);
  }

  /** The report: per-agent and any-GPU busy times of a window. */
  method Report(trace: seq<Dispatch>, windowStart: int, windowEnd: int)
    returns (busy: map<string, int>, anyBusy: int)
    ensures anyBusy == |BusyInstants(trace, Anyone, windowStart, windowEnd)|
    ensures forall a | a in busy :: busy[a] == |BusyInstants(trace, Agent(a), windowStart, windowEnd)|
    ensures forall a | a !in busy :: BusyInstants(trace, Agent(a), windowStart, windowEnd) == {}
  {
    var perAgent, all := Collect(trace, windowStart, windowEnd);
    busy := map[];
    var todo := perAgent.Keys;
    while todo != {}
      invariant todo <= perAgent.Keys && busy.Keys == perAgent.Keys - todo
      invariant forall a | a in busy :: busy[a] == |BusyInstants(trace, Agent(a), windowStart, windowEnd)|
      decreases todo
    {
      var a :| a in todo;
      var t := BusyTime(trace, Agent(a), windowStart, windowEnd, perAgent[a]);
      busy := busy[a := t];
      todo := todo - {a};
    }
    anyBusy := BusyTime(trace, Anyone, windowStart, windowEnd, all);
    forall a | a !in busy ensures BusyInstants(trace, Agent(a), windowStart, windowEnd) == {} {
      CollectedPoints(trace, Agent(a), windowStart, windowEnd);
      assert Points([]) == {};
    }
  }
}
