/** The rolling-row edit distance of scripts/grade_dots_ocr_e2e.py and its normalised ratio.

    The reference notion is an edit script: a list of keep, substitute, delete and insert
    operations that turns one string into the other. */
module Levenshtein {

  datatype Op = Keep | Substitute | Delete | Insert

  /** A script, last operation outermost. */
  datatype Script = Empty | Then(before: Script, op: Op)

  function Cost(s: Script): nat {
    match s
    case Empty => 0
    case Then(before, op) => Cost(before) + if op == Keep then 0 else 1
  }

  /** `s` turns `a` into `b`. */
  predicate Turns<T(==)>(s: Script, a: seq<T>, b: seq<T>) {
    match s
    case Empty => a == [] && b == []
    case Then(before, Keep) => a != [] && b != [] && Last(a) == Last(b) && Turns(before, Init(a), Init(b))
    case Then(before, Substitute) => a != [] && b != [] && Turns(before, Init(a), Init(b))
    case Then(before, Delete) => a != [] && Turns(before, Init(a), b)
    case Then(before, Insert) => b != [] && Turns(before, a, Init(b))
  }

  function Last<T>(s: seq<T>): T
    requires s != []
  {
    s[|s| - 1]
  }

  function Init<T>(s: seq<T>): (r: seq<T>)
    requires s != []
    ensures |r| == |s| - 1
  {
    s[..|s| - 1]
  }

  function Min(x: nat, y: nat): nat {
    if x <= y then x else y
  }

  function Max(x: nat, y: nat): nat {
    if x >= y then x else y
  }

  /** The cell recurrence the loop evaluates, as a function of two whole strings. */
  function Distance<T(==)>(a: seq<T>, b: seq<T>): nat
    decreases |a| + |b|
  {
    if a == [] then |b|
    else if b == [] then |a|
    else Min(Min(Distance(Init(a), b) + 1, Distance(a, Init(b)) + 1),
             Distance(Init(a), Init(b)) + if Last(a) == Last(b) then 0 else 1)
  }

  function Deletes(n: nat): Script {
    if n == 0 then Empty else Then(Deletes(n - 1), Delete)
  }

  function Inserts(n: nat): Script {
    if n == 0 then Empty else Then(Inserts(n - 1), Insert)
  }

  lemma {:induction false} DeletesTurns<T>(a: seq<T>)
    ensures Turns(Deletes(|a|), a, []) && Cost(Deletes(|a|)) == |a|
  {
    if a == [] {
    } else {
      DeletesTurns(Init(a));
    }
  }

  lemma {:induction false} InsertsTurns<T>(b: seq<T>)
    ensures Turns(Inserts(|b|), [], b) && Cost(Inserts(|b|)) == |b|
  {
    if b == [] {
    } else {
      InsertsTurns(Init(b));
    }
  }

  /** Some script achieves the distance. */
  lemma {:induction false} BestScript<T>(a: seq<T>, b: seq<T>) returns (s: Script)
    ensures Turns(s, a, b) && Cost(s) == Distance(a, b)
    decreases |a| + |b|
  {
    if a == [] {
      s := Inserts(|b|);
      InsertsTurns(b);
    } else if b == [] {
      s := Deletes(|a|);
      DeletesTurns(a);
    } else {
      var keep := Distance(Init(a), Init(b)) + if Last(a) == Last(b) then 0 else 1;
      if Distance(a, b) == keep {
        var t := BestScript(Init(a), Init(b));
        s := Then(t, if Last(a) == Last(b) then Keep else Substitute);
      } else if Distance(a, b) == Distance(Init(a), b) + 1 {
        var t := BestScript(Init(a), b);
        s := Then(t, Delete);
      } else {
        var t := BestScript(a, Init(b));
        s := Then(t, Insert);
      }
    }
  }

  /** A script against an empty string costs at least the other string's length. */
  lemma {:induction false} EmptySideCost<T>(s: Script, a: seq<T>, b: seq<T>)
    requires Turns(s, a, b) && (a == [] || b == [])
    ensures Cost(s) >= |a| + |b|
  {
    match s
    case Empty =>
    case Then(before, op) =>
      if op == Delete {
        EmptySideCost(before, Init(a), b);
      } else if op == Insert {
        EmptySideCost(before, a, Init(b));
      }
  }

  /** No script is cheaper than the distance. */
  lemma {:induction false} NoCheaperScript<T>(s: Script, a: seq<T>, b: seq<T>)
    requires Turns(s, a, b)
    ensures Distance(a, b) <= Cost(s)
  {
    if a == [] || b == [] {
      EmptySideCost(s, a, b);
    } else {
      match s
      case Then(before, Keep) => NoCheaperScript(before, Init(a), Init(b));
      case Then(before, Substitute) => NoCheaperScript(before, Init(a), Init(b));
      case Then(before, Delete) => NoCheaperScript(before, Init(a), b);
      case Then(before, Insert) => NoCheaperScript(before, a, Init(b));
    }
  }

  /** The distance is the minimum cost over all edit scripts. */
  lemma DistanceIsMinimum<T>(a: seq<T>, b: seq<T>)
    ensures exists s :: Turns(s, a, b) && Cost(s) == Distance(a, b)
    ensures forall s | Turns(s, a, b) :: Distance(a, b) <= Cost(s)
  {
    var s := BestScript(a, b);
    forall s | Turns(s, a, b) ensures Distance(a, b) <= Cost(s) {
      NoCheaperScript(s, a, b);
    }
  }

  /** Running a script after another, fused into one script that costs no more than both. */
  function Compose(s: Script, t: Script): Script
    decreases s, t
  {
    match (s, t)
    case (Empty, _) => t
    case (Then(p, Delete), _) => Then(Compose(p, t), Delete)
    case (_, Empty) => s
    case (_, Then(q, Insert)) => Then(Compose(s, q), Insert)
    case (Then(p, Insert), Then(q, Delete)) => Compose(p, q)
    case (Then(p, Insert), Then(q, _)) => Then(Compose(p, q), Insert)
    case (Then(p, _), Then(q, Delete)) => Then(Compose(p, q), Delete)
    case (Then(p, op), Then(q, op')) => Then(Compose(p, q), if op' == Keep then op else op')
  }

  lemma {:induction false} ComposeTurns<T>(s: Script, t: Script, a: seq<T>, b: seq<T>, c: seq<T>)
    requires Turns(s, a, b) && Turns(t, b, c)
    ensures Turns(Compose(s, t), a, c)
    ensures Cost(Compose(s, t)) <= Cost(s) + Cost(t)
    decreases s, t
  {
    match (s, t)
    case (Empty, _) =>
    case (Then(p, Delete), _) => ComposeTurns(p, t, Init(a), b, c);
    case (_, Empty) =>
    case (_, Then(q, Insert)) => ComposeTurns(s, q, a, b, Init(c));
    case (Then(p, Insert), Then(q, Delete)) => ComposeTurns(p, q, a, Init(b), c);
    case (Then(p, Insert), Then(q, _)) => ComposeTurns(p, q, a, Init(b), Init(c));
    case (Then(p, _), Then(q, Delete)) => ComposeTurns(p, q, Init(a), Init(b), c);
    case (Then(p, _), Then(q, _)) => ComposeTurns(p, q, Init(a), Init(b), Init(c));
  }

  lemma TriangleInequality<T>(a: seq<T>, b: seq<T>, c: seq<T>)
    ensures Distance(a, c) <= Distance(a, b) + Distance(b, c)
  {
    var s := BestScript(a, b);
    var t := BestScript(b, c);
    ComposeTurns(s, t, a, b, c);
    NoCheaperScript(Compose(s, t), a, c);
  }

  lemma {:induction false} Symmetry<T>(a: seq<T>, b: seq<T>)
    ensures Distance(a, b) == Distance(b, a)
    decreases |a| + |b|
  {
    if a != [] && b != [] {
      Symmetry(Init(a), b);
      Symmetry(a, Init(b));
      Symmetry(Init(a), Init(b));
    }
  }

  lemma {:induction false} FreeScriptKeepsAll<T>(s: Script, a: seq<T>, b: seq<T>)
    requires Turns(s, a, b) && Cost(s) == 0
    ensures a == b
  {
    match s
    case Empty =>
    case Then(before, op) =>
      FreeScriptKeepsAll(before, Init(a), Init(b));
      assert a == Init(a) + [Last(a)];
      assert b == Init(b) + [Last(b)];
  }

  lemma {:induction false} SelfDistance<T>(a: seq<T>)
    ensures Distance(a, a) == 0
  {
    if a == [] {
    } else {
      SelfDistance(Init(a));
    }
  }

  lemma ZeroIffEqual<T>(a: seq<T>, b: seq<T>)
    ensures Distance(a, b) == 0 <==> a == b
  {
    if a == b {
      SelfDistance(a);
    } else {
      var s := BestScript(a, b);
      if Cost(s) == 0 {
        FreeScriptKeepsAll(s, a, b);
      }
    }
  }

  /** At most the longer length, at least the difference of the lengths. */
  lemma {:induction false} DistanceBounds<T>(a: seq<T>, b: seq<T>)
    ensures Distance(a, b) <= Max(|a|, |b|)
    ensures Max(|a|, |b|) - Min(|a|, |b|) <= Distance(a, b)
    decreases |a| + |b|
  {
    if a != [] && b != [] {
      DistanceBounds(Init(a), b);
      DistanceBounds(a, Init(b));
      DistanceBounds(Init(a), Init(b));
    }
  }

  /** Row of the table for `a`: distances of `a` to every prefix of `b`. */
  ghost function Row<T>(a: seq<T>, b: seq<T>): (r: seq<nat>)
    ensures |r| == |b| + 1
  {
    seq(|b| + 1, j requires 0 <= j <= |b| => Distance(a, b[..j]))
  }

  /** The cell recurrence relating a row to the one before it. */
  ghost predicate Follows<T>(cur: seq<nat>, prev: seq<nat>, ca: T, b: seq<T>, i: nat) {
    && |cur| == |prev| == |b| + 1
    && cur[0] == i
    && forall j | 1 <= j <= |b| ::
         cur[j] == Min(Min(prev[j] + 1, cur[j - 1] + 1), prev[j - 1] + if ca == b[j - 1] then 0 else 1)
  }

  lemma {:induction false} DistanceByLasts<T>(x: seq<T>, y: seq<T>)
    requires x != [] && y != []
    ensures Distance(x, y) == Min(Min(Distance(Init(x), y) + 1, Distance(x, Init(y)) + 1),
                                  Distance(Init(x), Init(y)) + if Last(x) == Last(y) then 0 else 1)
  {
  }

  lemma NextCell<T>(a: seq<T>, ca: T, b: seq<T>, j: nat)
    requires j < |b|
    ensures Distance(a + [ca], b[..j + 1])
         == Min(Min(Distance(a, b[..j + 1]) + 1, Distance(a + [ca], b[..j]) + 1),
                Distance(a, b[..j]) + if ca == b[j] then 0 else 1)
  {
    hide Distance;
    var x, y := a + [ca], b[..j + 1];
    DistanceByLasts(x, y);
    assert Init(x) == a;
    assert Init(y) == b[..j];
    assert Last(x) == ca && Last(y) == b[j];
  }

  lemma FirstCell<T>(a: seq<T>, b: seq<T>)
    ensures Row(a, b)[0] == |a|
  {
    assert b[..0] == [];
  }

  lemma RowFollows<T>(a: seq<T>, ca: T, b: seq<T>)
    ensures Follows(Row(a + [ca], b), Row(a, b), ca, b, |a| + 1)
  {
    hide Distance;
    FirstCell(a + [ca], b);
    forall j | 1 <= j <= |b| ensures
      var cur, prev := Row(a + [ca], b), Row(a, b);
      cur[j] == Min(Min(prev[j] + 1, cur[j - 1] + 1), prev[j - 1] + if ca == b[j - 1] then 0 else 1)
    {
      NextCell(a, ca, b, j - 1);
    }
  }

  /** One pass of the outer loop fills the row that follows `prev`. */
  method NextRow<T(==)>(ca: T, b: seq<T>, i: nat, prev: seq<nat>, ghost want: seq<nat>) returns (cur: seq<nat>)
    requires Follows(want, prev, ca, b, i)
    ensures cur == want
  {
    cur := [i] + seq(|b|, _ => 0);
    var j := 1;
    while j <= |b|
      invariant 1 <= j <= |b| + 1 && |cur| == |b| + 1
      invariant cur[..j] == want[..j]
    {
      var cost := if ca == b[j - 1] then 0 else 1;
      assert cur[..j][j - 1] == want[..j][j - 1];
      cur := cur[j := Min(Min(prev[j] + 1, cur[j - 1] + 1), prev[j - 1] + cost)];
      assert cur[..j + 1] == want[..j] + [cur[j]];
      j := j + 1;
    }
  }

  lemma FirstRow<T>(b: seq<T>)
    ensures Row([], b) == seq(|b| + 1, j requires 0 <= j => j as nat)
  {
    assert forall j | 0 <= j <= |b| :: |b[..j]| == j;
  }

  lemma LastCell<T>(a: seq<T>, b: seq<T>)
    ensures Row(a, b)[|b|] == Distance(a, b)
  {
    assert b[..|b|] == b;
  }

  method RollRows<T(==)>(a: seq<T>, b: seq<T>) returns (prev: seq<nat>)
    ensures prev == Row(a, b)
  {
    prev := seq(|b| + 1, j requires 0 <= j => j as nat);
    FirstRow(b);
    var i := 0;
    assert a[..0] == [];
    while i < |a|
      invariant 0 <= i <= |a|
      invariant prev == Row(a[..i], b)
    {
      RowFollows(a[..i], a[i], b);
      assert a[..i] + [a[i]] == a[..i + 1];
      prev := NextRow(a[i], b, i + 1, prev, Row(a[..i + 1], b));
      i := i + 1;
    }
    assert a[..|a|] == a;
  }

  /** `levenshtein`: the rolling-row loop, with its argument swap, computes the distance. */
  method EditDistance<T(==)>(a0: seq<T>, b0: seq<T>) returns (d: nat)
    ensures d == Distance(a0, b0)
  {
    var a, b := a0, b0;
    if |a| < |b| {
      a, b := b, a;
      Symmetry(a0, b0);
    }
    if b == [] {
      return |a|;
    }
    var row := RollRows(a, b);
    LastCell(a, b);
    d := row[|row| - 1];
  }

  /** The quotient `text_distance_ratio` returns. */
  function Ratio(d: nat, n: nat): (r: real)
    requires d <= n
    ensures 0.0 <= r <= 1.0
    ensures r == 0.0 <==> d == 0
    ensures r * n as real == d as real
  {
    if n == 0 then 0.0 else d as real / n as real
  }

  lemma RatioInput<T>(a: seq<T>, b: seq<T>)
    ensures Distance(a, b) <= Max(|a|, |b|)
    ensures Distance(a, b) == 0 <==> a == b
    ensures a == b <==> Ratio(Distance(a, b), Max(|a|, |b|)) == 0.0
  {
    DistanceBounds(a, b);
    ZeroIffEqual(a, b);
  }

  /** `text_distance_ratio`: always in [0, 1], and 0 exactly for equal strings. */
  method TextDistanceRatio<T(==)>(a: seq<T>, b: seq<T>) returns (r: real)
    ensures Distance(a, b) <= Max(|a|, |b|)
    ensures r == Ratio(Distance(a, b), Max(|a|, |b|))
    ensures 0.0 <= r <= 1.0
    ensures r == 0.0 <==> a == b
  {
    var n := Max(|a|, |b|);
    var d := 0;
    if n != 0 {
      d := EditDistance(a, b);
    }
    RatioInput(a, b);
    r := Ratio(d, n);
  }
}
