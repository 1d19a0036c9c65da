/** Sorting by a total order, and the fact that makes sorted output independent of input order. */
module Sorting {

  ghost predicate TotalOrder<T(!new)>(le: (T, T) -> bool) {
    && (forall x, y :: le(x, y) || le(y, x))
    && (forall x, y :: le(x, y) && le(y, x) ==> x == y)
    && (forall x, y, z :: le(x, y) && le(y, z) ==> le(x, z))
  }

  /** A total preorder: ties are allowed. */
  ghost predicate TotalPreorder<T(!new)>(le: (T, T) -> bool) {
    && (forall x, y :: le(x, y) || le(y, x))
    && (forall x, y, z :: le(x, y) && le(y, z) ==> le(x, z))
  }

  ghost predicate Sorted<T(!new)>(le: (T, T) -> bool, s: seq<T>) {
    forall i, j | 0 <= i < j < |s| :: le(s[i], s[j])
  }

  lemma MultisetOfCons<T>(x: T, s: seq<T>)
    ensures multiset([x] + s) == multiset(s) + multiset{x}
  {
  }

  lemma MultisetOfHead<T>(s: seq<T>)
    requires s != []
    ensures multiset(s) == multiset(s[1..]) + multiset{s[0]} && multiset(s) - multiset{s[0]} == multiset(s[1..])
  {
    assert s == [s[0]] + s[1..];
  }

  /** Inserts before the first larger element, so equal elements keep their order. */
  function Insert<T>(le: (T, T) -> bool, x: T, s: seq<T>): (r: seq<T>)
    ensures |r| == |s| + 1
    ensures multiset(r) == multiset(s) + multiset{x}
  {
    if s == [] then [x]
    else if le(x, s[0]) then
      MultisetOfCons(x, s);
      [x] + s
    else
      MultisetOfHead(s);
      var t := Insert(le, x, s[1..]);
      MultisetOfCons(s[0], t);
      [s[0]] + t
  }

  function Sort<T>(le: (T, T) -> bool, s: seq<T>): (r: seq<T>)
    ensures |r| == |s|
    ensures multiset(r) == multiset(s)
  {
    if s == [] then []
    else
      MultisetOfHead(s);
      Insert(le, s[0], Sort(le, s[1..]))
  }

  lemma {:induction false} InsertSorted<T(!new)>(le: (T, T) -> bool, x: T, s: seq<T>)
    requires TotalPreorder(le) && Sorted(le, s)
    ensures Sorted(le, Insert(le, x, s))
  {
    if s == [] {
    } else if le(x, s[0]) {
    } else {
      InsertSorted(le, x, s[1..]);
      var r := Insert(le, x, s[1..]);
      forall k | 0 <= k < |r| ensures le(s[0], r[k]) {
        assert r[k] in multiset(r);
        assert r[k] == x || r[k] in s[1..];
      }
    }
  }

  lemma {:induction false} SortSorts<T(!new)>(le: (T, T) -> bool, s: seq<T>)
    requires TotalPreorder(le)
    ensures Sorted(le, Sort(le, s))
  {
    if s == [] {
    } else {
      SortSorts(le, s[1..]);
      InsertSorted(le, s[0], Sort(le, s[1..]));
    }
  }

  lemma SameMembers<T>(a: seq<T>, b: seq<T>)
    requires multiset(a) == multiset(b)
    ensures forall x :: x in a <==> x in b
  {
    forall x ensures x in a <==> x in b {
      assert x in a <==> x in multiset(a);
      assert x in b <==> x in multiset(b);
    }
  }

  /** Two sorted arrangements of the same elements are the same sequence. */
  lemma {:induction false} SortedUnique<T(!new)>(le: (T, T) -> bool, a: seq<T>, b: seq<T>)
    requires TotalOrder(le) && Sorted(le, a) && Sorted(le, b)
    requires multiset(a) == multiset(b)
    ensures a == b
  {
    assert |a| == |multiset(a)| == |multiset(b)| == |b|;
    hide Sorted, TotalOrder;
    if a == [] {
    } else {
      SortedHeads(le, a, b);
      SortedUnique(le, a[1..], b[1..]);
      assert a == [a[0]] + a[1..] == b;
    }
  }

  lemma SortedHeads<T(!new)>(le: (T, T) -> bool, a: seq<T>, b: seq<T>)
    requires TotalOrder(le) && Sorted(le, a) && Sorted(le, b)
    requires multiset(a) == multiset(b) && a != [] && b != []
    ensures a[0] == b[0] && Sorted(le, a[1..]) && Sorted(le, b[1..]) && multiset(a[1..]) == multiset(b[1..])
  {
    MultisetOfHead(a);
    MultisetOfHead(b);
    SameMembers(a, b);
    assert a[0] in b && b[0] in a;
    assert le(a[0], b[0]) && le(b[0], a[0]);
  }

  /** Sorting forgets the order of its input. */
  lemma SortOrderIndependent<T(!new)>(le: (T, T) -> bool, a: seq<T>, b: seq<T>)
    requires TotalOrder(le) && multiset(a) == multiset(b)
    ensures Sort(le, a) == Sort(le, b)
  {
    SortSorts(le, a);
    SortSorts(le, b);
    SortedUnique(le, Sort(le, a), Sort(le, b));
  }

  /** Leaving out one position. */
  lemma MultisetWithout<T>(s: seq<T>, j: nat)
    requires j < |s|
    ensures multiset(s[..j] + s[j + 1..]) == multiset(s) - multiset{s[j]}
    ensures multiset(s) == multiset(s[..j] + s[j + 1..]) + multiset{s[j]}
  {
    assert s == s[..j] + ([s[j]] + s[j + 1..]);
    MultisetOfCons(s[j], s[j + 1..]);
  }

  /** The sum of a weight over a list. */
  ghost function Total<T(!new)>(weight: T -> nat, s: seq<T>): nat {
    if s == [] then 0 else Total(weight, s[..|s| - 1]) + weight(s[|s| - 1])
  }

  lemma TotalMore<T(!new)>(weight: T -> nat, s: seq<T>, x: T)
    ensures Total(weight, s + [x]) == Total(weight, s) + weight(x)
  {
    assert (s + [x])[..|s|] == s;
  }

  lemma {:induction false} TotalWithout<T(!new)>(weight: T -> nat, s: seq<T>, j: nat)
    requires j < |s|
    ensures Total(weight, s) == Total(weight, s[..j] + s[j + 1..]) + weight(s[j])
  {
    hide Total;
    var n := |s| - 1;
    assert s == s[..n] + [s[n]];
    TotalMore(weight, s[..n], s[n]);
    if j == n {
      assert s[..j] + s[j + 1..] == s[..n];
    } else {
      TotalWithout(weight, s[..n], j);
      var rest := s[..n][..j] + s[..n][j + 1..];
      assert s[..j] + s[j + 1..] == rest + [s[n]];
      TotalMore(weight, rest, s[n]);
    }
  }

  lemma RearrangedWithout<T>(a: seq<T>, b: seq<T>, j: nat)
    requires multiset(a) == multiset(b) && a != [] && j < |b| && b[j] == a[|a| - 1]
    ensures multiset(a[..|a| - 1]) == multiset(b[..j] + b[j + 1..])
  {
    MultisetWithout(a, |a| - 1);
    assert a[..|a| - 1] + a[|a|..] == a[..|a| - 1];
    MultisetWithout(b, j);
  }

  /** The total does not depend on the order. */
  lemma {:induction false} TotalRearranged<T(!new)>(weight: T -> nat, a: seq<T>, b: seq<T>)
    requires multiset(a) == multiset(b)
    ensures Total(weight, a) == Total(weight, b)
  {
    assert |a| == |multiset(a)| == |multiset(b)| == |b|;
    if a == [] {
    } else {
      var n := |a| - 1;
      SameMembers(a, b);
      assert a[n] in b;
      var j :| 0 <= j < |b| && b[j] == a[n];
      RearrangedWithout(a, b, j);
      TotalWithout(weight, b, j);
      TotalRearranged(weight, a[..n], b[..j] + b[j + 1..]);
    }
  }

  lemma {:induction false} TotalSameWeights<T(!new)>(v: T -> nat, w: T -> nat, s: seq<T>)
    requires forall i | 0 <= i < |s| :: v(s[i]) == w(s[i])
    ensures Total(v, s) == Total(w, s)
  {
    if s == [] {
    } else {
      TotalSameWeights(v, w, s[..|s| - 1]);
    }
  }

  lemma {:induction false} TotalZero<T(!new)>(weight: T -> nat, s: seq<T>)
    ensures Total(weight, s) == 0 <==> forall i | 0 <= i < |s| :: weight(s[i]) == 0
  {
    if s == [] {
    } else {
      TotalZero(weight, s[..|s| - 1]);
    }
  }

  ghost predicate NoRepeats<T(!new)>(s: seq<T>) {
    forall i, j | 0 <= i < j < |s| :: s[i] != s[j]
  }

  ghost predicate KeysDistinct<T(!new), K(!new)>(key: T -> K, s: seq<T>) {
    forall i, j | 0 <= i < j < |s| :: key(s[i]) != key(s[j])
  }

  lemma TwiceInMultiset<T>(s: seq<T>, i: nat, j: nat)
    requires i < j < |s| && s[i] == s[j]
    ensures multiset(s)[s[i]] >= 2
  {
    assert s == s[..j] + s[j..];
    assert s[i] in multiset(s[..j]) by { assert s[..j][i] == s[i]; }
    assert s[i] in multiset(s[j..]) by { assert s[j..][0] == s[i]; }
  }

  lemma OnceInMultiset<T(!new), K(!new)>(key: T -> K, s: seq<T>, p: nat)
    requires p < |s| && KeysDistinct(key, s)
    ensures multiset(s)[s[p]] == 1
  {
    assert s == s[..p] + [s[p]] + s[p + 1..];
    assert s[p] !in s[..p] && s[p] !in s[p + 1..];
    assert multiset(s)[s[p]] == multiset(s[..p])[s[p]] + 1 + multiset(s[p + 1..])[s[p]];
  }

  /** Rearranging a list with distinct keys keeps them distinct. */
  lemma KeysStayDistinct<T(!new), K(!new)>(key: T -> K, a: seq<T>, b: seq<T>)
    requires KeysDistinct(key, a) && multiset(a) == multiset(b)
    ensures KeysDistinct(key, b)
  {
    forall i, j | 0 <= i < j < |b| ensures key(b[i]) != key(b[j]) {
      if key(b[i]) == key(b[j]) {
        SameMembers(a, b);
        assert b[i] in a && b[j] in a;
        var p :| 0 <= p < |a| && a[p] == b[i];
        var q :| 0 <= q < |a| && a[q] == b[j];
        assert p == q;
        TwiceInMultiset(b, i, j);
        OnceInMultiset(key, a, p);
        assert false;
      }
    }
  }
}
