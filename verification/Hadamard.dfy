/** The Walsh-Hadamard transform over exact reals, defined by halves: linearity, the Hadamard matrix, and what it does to
    a vector and to its sum of squares. */
module Hadamard {

  // ---------- vectors ----------

  function Add(a: seq<real>, b: seq<real>): (r: seq<real>)
    requires |a| == |b|
    ensures |r| == |a| && forall i | 0 <= i < |a| :: r[i] == a[i] + b[i]
  {
    seq(|a|, i requires 0 <= i < |a| => a[i] + b[i])
  }

  function Sub(a: seq<real>, b: seq<real>): (r: seq<real>)
    requires |a| == |b|
    ensures |r| == |a| && forall i | 0 <= i < |a| :: r[i] == a[i] - b[i]
  {
    seq(|a|, i requires 0 <= i < |a| => a[i] - b[i])
  }

  function Times(a: seq<real>, b: seq<real>): (r: seq<real>)
    requires |a| == |b|
    ensures |r| == |a| && forall i | 0 <= i < |a| :: r[i] == a[i] * b[i]
  {
    seq(|a|, i requires 0 <= i < |a| => a[i] * b[i])
  }

  /** The loop's final factor, 0.0625. */
  function Sixteenth(a: seq<real>): (r: seq<real>)
    ensures |r| == |a| && forall i | 0 <= i < |a| :: r[i] == a[i] * 0.0625
  {
    seq(|a|, i requires 0 <= i < |a| => a[i] * 0.0625)
  }

  /** Sum of `q` over a vector; with `q` the square, the sum of squares. */
  ghost function Energy(q: real -> real, a: seq<real>): real {
    if a == [] then 0.0 else Energy(q, a[..|a| - 1]) + q(a[|a| - 1])
  }

  /** The parallelogram law of a square, and its behaviour under the factor 1/16 and a change of sign. */
  ghost predicate Law(q: real -> real, x: real, y: real) {
    && q(x + y) + q(x - y) == 2.0 * (q(x) + q(y))
    && 256.0 * q(x * 0.0625) == q(x)
    && q(-x) == q(x)
  }

  ghost predicate Quadratic(q: real -> real) {
    forall x, y :: Law(q, x, y)
  }

  lemma {:induction false} EnergyConcat(q: real -> real, a: seq<real>, b: seq<real>)
    ensures Energy(q, a + b) == Energy(q, a) + Energy(q, b)
  {
    if b == [] {
      assert a + b == a;
    } else {
      assert (a + b)[..|a + b| - 1] == a + b[..|b| - 1];
      EnergyConcat(q, a, b[..|b| - 1]);
    }
  }

  lemma {:induction false} EnergySixteenth(q: real -> real, a: seq<real>)
    requires Quadratic(q)
    ensures 256.0 * Energy(q, Sixteenth(a)) == Energy(q, a)
  {
    if a == [] {
    } else {
      var n := |a| - 1;
      EnergySixteenth(q, a[..n]);
      assert Sixteenth(a)[..n] == Sixteenth(a[..n]);
      assert Law(q, a[n], 0.0);
    }
  }

  /** |a+b|^2 + |a-b|^2 = 2|a|^2 + 2|b|^2. */
  lemma {:induction false} Parallelogram(q: real -> real, a: seq<real>, b: seq<real>)
    requires |a| == |b| && Quadratic(q)
    ensures Energy(q, Add(a, b)) + Energy(q, Sub(a, b)) == 2.0 * (Energy(q, a) + Energy(q, b))
  {
    if a == [] {
    } else {
      var n := |a| - 1;
      Parallelogram(q, a[..n], b[..n]);
      assert Add(a, b)[..n] == Add(a[..n], b[..n]);
      assert Sub(a, b)[..n] == Sub(a[..n], b[..n]);
      assert Law(q, a[n], b[n]);
    }
  }

  // ---------- the Walsh-Hadamard transform ----------

  predicate Pow2(n: nat) {
    n == 1 || (n >= 2 && n % 2 == 0 && Pow2(n / 2))
  }

  /** The butterfly on two halves: sums, then differences. */
  function Combine(a: seq<real>, b: seq<real>): (r: seq<real>)
    requires |a| == |b|
    ensures |r| == 2 * |a|
  {
    Add(a, b) + Sub(a, b)
  }

  /** The transform by halves. */
  function Wht(x: seq<real>): (r: seq<real>)
    requires Pow2(|x|)
    ensures |r| == |x|
    decreases |x|
  {
    if |x| == 1 then x
    else var h := |x| / 2; Combine(Wht(x[..h]), Wht(x[h..]))
  }

  lemma WhtHalves(x: seq<real>, a: seq<real>, b: seq<real>)
    requires Pow2(|x|) && |x| > 1 && |a| == |b| && x == a + b
    ensures Pow2(|a|) && Wht(x) == Combine(Wht(a), Wht(b))
  {
    assert x[..|a|] == a && x[|a|..] == b;
  }

  lemma AddHalves(a: seq<real>, b: seq<real>, h: nat)
    requires |a| == |b| && h <= |a|
    ensures Add(a, b) == Add(a[..h], b[..h]) + Add(a[h..], b[h..])
    ensures Sub(a, b) == Sub(a[..h], b[..h]) + Sub(a[h..], b[h..])
  {
  }

  lemma CombineAdd(p: seq<real>, q: seq<real>, r: seq<real>, s: seq<real>)
    requires |p| == |q| == |r| == |s|
    ensures Combine(Add(p, q), Add(r, s)) == Add(Combine(p, r), Combine(q, s))
    ensures Combine(Sub(p, q), Sub(r, s)) == Sub(Combine(p, r), Combine(q, s))
  {
  }

  lemma {:induction false} WhtAdd(a: seq<real>, b: seq<real>)
    requires |a| == |b| && Pow2(|a|)
    ensures Wht(Add(a, b)) == Add(Wht(a), Wht(b))
    decreases |a|
  {
    if |a| <= 1 {
    } else {
      hide Wht, Combine, Add, Sub;
      var h := |a| / 2;
      WhtHalves(a, a[..h], a[h..]);
      WhtHalves(b, b[..h], b[h..]);
      WhtAdd(a[..h], b[..h]);
      WhtAdd(a[h..], b[h..]);
      AddHalves(a, b, h);
      WhtHalves(Add(a, b), Add(a[..h], b[..h]), Add(a[h..], b[h..]));
      CombineAdd(Wht(a[..h]), Wht(b[..h]), Wht(a[h..]), Wht(b[h..]));
    }
  }

  lemma {:induction false} WhtSub(a: seq<real>, b: seq<real>)
    requires |a| == |b| && Pow2(|a|)
    ensures Wht(Sub(a, b)) == Sub(Wht(a), Wht(b))
    decreases |a|
  {
    if |a| <= 1 {
    } else {
      hide Wht, Combine, Add, Sub;
      var h := |a| / 2;
      WhtHalves(a, a[..h], a[h..]);
      WhtHalves(b, b[..h], b[h..]);
      WhtSub(a[..h], b[..h]);
      WhtSub(a[h..], b[h..]);
      AddHalves(a, b, h);
      WhtHalves(Sub(a, b), Sub(a[..h], b[..h]), Sub(a[h..], b[h..]));
      CombineAdd(Wht(a[..h]), Wht(b[..h]), Wht(a[h..]), Wht(b[h..]));
    }
  }

  lemma CombineSixteenth(a: seq<real>, b: seq<real>)
    requires |a| == |b|
    ensures Combine(Sixteenth(a), Sixteenth(b)) == Sixteenth(Combine(a, b))
    ensures Sixteenth(a + b) == Sixteenth(a) + Sixteenth(b)
  {
  }

  lemma {:induction false} WhtSixteenth(a: seq<real>)
    requires Pow2(|a|)
    ensures Wht(Sixteenth(a)) == Sixteenth(Wht(a))
    decreases |a|
  {
    if |a| <= 1 {
    } else {
      hide Wht, Combine, Sixteenth;
      var h := |a| / 2;
      WhtHalves(a, a[..h], a[h..]);
      WhtSixteenth(a[..h]);
      WhtSixteenth(a[h..]);
      assert a == a[..h] + a[h..];
      CombineSixteenth(a[..h], a[h..]);
      CombineSixteenth(Wht(a[..h]), Wht(a[h..]));
      WhtHalves(Sixteenth(a), Sixteenth(a[..h]), Sixteenth(a[h..]));
    }
  }

  lemma {:induction false} WhtTwiceDoubles(x: seq<real>)
    requires Pow2(|x|)
    ensures Wht(Wht(x)) == TimesPow2(|x|, x)
    decreases |x|
  {
    hide Wht, TimesPow2;
    if |x| == 1 {
      WhtOne(x);
    } else {
      var h := |x| / 2;
      assert |x| == 2 * h && x == x[..h] + x[h..];
      WhtTwiceDoubles(x[..h]);
      WhtTwiceDoubles(x[h..]);
      InvolutionStep(x[..h], x[h..], h);
    }
  }

  lemma WhtOne(x: seq<real>)
    requires |x| == 1
    ensures Wht(x) == x && TimesPow2(1, x) == x
  {
  }

  lemma WhtTwice(a: seq<real>, b: seq<real>, h: nat)
    requires |a| == |b| == h && Pow2(h) && Pow2(2 * h)
    ensures Wht(Wht(a + b)) == Combine(Add(Wht(Wht(a)), Wht(Wht(b))), Sub(Wht(Wht(a)), Wht(Wht(b))))
  {
    hide Wht, Add, Sub;
    WhtHalves(a + b, a, b);
    WhtAdd(Wht(a), Wht(b));
    WhtSub(Wht(a), Wht(b));
    WhtHalves(Wht(a + b), Add(Wht(a), Wht(b)), Sub(Wht(a), Wht(b)));
  }

  lemma InvolutionStep(a: seq<real>, b: seq<real>, h: nat)
    requires |a| == |b| == h && Pow2(h) && Pow2(2 * h)
    requires Wht(Wht(a)) == TimesPow2(h, a) && Wht(Wht(b)) == TimesPow2(h, b)
    ensures Wht(Wht(a + b)) == TimesPow2(2 * h, a + b)
  {
    hide Wht, Combine, Add, Sub;
    WhtTwice(a, b, h);
    var p, q := TimesPow2(h, a), TimesPow2(h, b);
    DoubleCombine(p, q);
    TimesPow2Concat(h, a, b);
    AddConcat(p, q);
    assert (2 * h) / 2 == h;
  }

  /** Doubling as often as `n` can be halved: `n` times `x` when `n` is a power of two. */
  ghost function TimesPow2(n: nat, x: seq<real>): (r: seq<real>)
    requires Pow2(n)
    ensures |r| == |x|
  {
    if n == 1 then x else Add(TimesPow2(n / 2, x), TimesPow2(n / 2, x))
  }

  lemma DoubleCombine(p: seq<real>, q: seq<real>)
    requires |p| == |q|
    ensures Combine(Add(p, q), Sub(p, q)) == Add(p, p) + Add(q, q)
  {
  }

  lemma AddConcat(u: seq<real>, v: seq<real>)
    ensures Add(u + v, u + v) == Add(u, u) + Add(v, v)
  {
  }

  lemma {:induction false} TimesPow2Concat(n: nat, a: seq<real>, b: seq<real>)
    requires Pow2(n)
    ensures TimesPow2(n, a + b) == TimesPow2(n, a) + TimesPow2(n, b)
    decreases n
  {
    if n <= 1 {
    } else {
      TimesPow2Concat(n / 2, a, b);
      AddConcat(TimesPow2(n / 2, a), TimesPow2(n / 2, b));
    }
  }

  /** The same doubling on one number. */
  ghost function Doubled(n: nat, v: real): real
    requires Pow2(n)
  {
    if n == 1 then v else 2.0 * Doubled(n / 2, v)
  }

  lemma {:induction false} TimesPow2At(n: nat, x: seq<real>, i: nat)
    requires Pow2(n) && i < |x|
    ensures TimesPow2(n, x)[i] == Doubled(n, x[i])
    decreases n
  {
    if n <= 1 {
    } else {
      TimesPow2At(n / 2, x, i);
    }
  }

  lemma {:induction false} DoubledIsTimes(n: nat, v: real)
    requires Pow2(n)
    ensures Doubled(n, v) == n as real * v
    decreases n
  {
    if n <= 1 {
    } else {
      DoubledIsTimes(n / 2, v);
      assert n as real == 2.0 * (n / 2) as real;
    }
  }

  /** Applied twice, the transform multiplies by the length. */
  lemma WhtInvolution(x: seq<real>)
    requires Pow2(|x|)
    ensures forall i | 0 <= i < |x| :: Wht(Wht(x))[i] == |x| as real * x[i]
  {
    hide Wht, TimesPow2, Doubled, Pow2;
    WhtTwiceDoubles(x);
    forall i | 0 <= i < |x| ensures Wht(Wht(x))[i] == |x| as real * x[i] {
      TimesPow2At(|x|, x, i);
      DoubledIsTimes(|x|, x[i]);
    }
  }

  lemma {:induction false} DoubledAdd(n: nat, u: real, v: real)
    requires Pow2(n)
    ensures Doubled(n, u + v) == Doubled(n, u) + Doubled(n, v)
    decreases n
  {
    if n <= 1 {
    } else {
      DoubledAdd(n / 2, u, v);
    }
  }

  /** What the proof needs of a squared norm: it adds over concatenation and doubles over a butterfly. */
  ghost predicate NormLaw(norm: seq<real> -> real, p: seq<real>, r: seq<real>) {
    |p| == |r| ==> norm(p + r) == norm(p) + norm(r) && norm(Combine(p, r)) == 2.0 * (norm(p) + norm(r))
  }

  ghost predicate IsNorm(norm: seq<real> -> real) {
    forall p, r :: NormLaw(norm, p, r)
  }

  /** The transform multiplies a squared norm by the length. */
  lemma WhtParseval(norm: seq<real> -> real, x: seq<real>)
    requires Pow2(|x|) && IsNorm(norm)
    ensures norm(Wht(x)) == |x| as real * norm(x)
  {
    hide Wht, Doubled, IsNorm;
    NormDoubles(norm, x);
    DoubledIsTimes(|x|, norm(x));
  }

  lemma {:induction false} NormDoubles(norm: seq<real> -> real, x: seq<real>)
    requires Pow2(|x|) && IsNorm(norm)
    ensures norm(Wht(x)) == Doubled(|x|, norm(x))
    decreases |x|
  {
    if |x| <= 1 {
    } else {
      hide Wht, Combine;
      var h := |x| / 2;
      var a, b := x[..h], x[h..];
      WhtHalves(x, a, b);
      NormDoubles(norm, a);
      NormDoubles(norm, b);
      assert NormLaw(norm, Wht(a), Wht(b));
      assert NormLaw(norm, a, b);
      assert x == a + b;
      DoubledAdd(h, norm(a), norm(b));
    }
  }

  /** The sum of squares is such a norm. */
  lemma EnergyIsNorm(q: real -> real, norm: seq<real> -> real)
    requires Quadratic(q) && forall a :: norm(a) == Energy(q, a)
    ensures IsNorm(norm)
  {
    forall p: seq<real>, r: seq<real> ensures NormLaw(norm, p, r) {
      if |p| == |r| {
        EnergyConcat(q, p, r);
        EnergyConcat(q, Add(p, r), Sub(p, r));
        Parallelogram(q, p, r);
      }
    }
  }

  // ---------- the Hadamard matrix ----------

  /** Whether `i` and `j` share an odd number of one bits. */
  predicate OddOverlap(i: nat, j: nat) {
    i > 0 && j > 0 && ((i % 2 == 1 && j % 2 == 1) != OddOverlap(i / 2, j / 2))
  }

  /** Entry (i, j) of the Sylvester-Hadamard matrix, -1 to the number of shared bits, times `v`. */
  function Signed(i: nat, j: nat, v: real): real {
    if OddOverlap(i, j) then -v else v
  }

  lemma OverlapStep(i: nat, j: nat)
    ensures OddOverlap(i, j) == ((i % 2 == 1 && j % 2 == 1) != OddOverlap(i / 2, j / 2))
  {
  }

  lemma {:induction false} OverlapHighBit(h: nat, i: nat, j: nat)
    requires Pow2(h) && i < h && j < h
    ensures OddOverlap(i + h, j) == OddOverlap(i, j) == OddOverlap(i, j + h)
    ensures OddOverlap(i + h, j + h) == !OddOverlap(i, j)
    decreases h
  {
    if h > 1 {
      var m := h / 2;
      OverlapHighBit(m, i / 2, j / 2);
      assert (i + h) / 2 == i / 2 + m && (j + h) / 2 == j / 2 + m;
      assert (i + h) % 2 == i % 2 && (j + h) % 2 == j % 2;
      OverlapStep(i, j);
      OverlapStep(i + h, j);
      OverlapStep(i, j + h);
      OverlapStep(i + h, j + h);
    } else {
      OverlapStep(1, 1);
    }
  }

  /** Row `i` of the matrix, from column `from` on, times `x`. */
  ghost function RowTimes(i: nat, from: nat, x: seq<real>): real {
    if x == [] then 0.0
    else RowTimes(i, from, x[..|x| - 1]) + Signed(i, from + |x| - 1, x[|x| - 1])
  }

  lemma {:induction false} RowTimesConcat(i: nat, from: nat, a: seq<real>, b: seq<real>)
    ensures RowTimes(i, from, a + b) == RowTimes(i, from, a) + RowTimes(i, from + |a|, b)
  {
    if b == [] {
      assert a + b == a;
    } else {
      assert (a + b)[..|a + b| - 1] == a + b[..|b| - 1];
      RowTimesConcat(i, from, a, b[..|b| - 1]);
    }
  }

  /** The other quarters of the matrix repeat the upper left one, the last with its sign changed. */
  lemma {:induction false} RowTimesQuarter(h: nat, i: nat, x: seq<real>)
    requires Pow2(h) && i < h && |x| <= h
    ensures RowTimes(i, h, x) == RowTimes(i, 0, x) == RowTimes(i + h, 0, x)
    ensures RowTimes(i + h, h, x) == -RowTimes(i, 0, x)
  {
    if x == [] {
    } else {
      var n := |x| - 1;
      RowTimesQuarter(h, i, x[..n]);
      OverlapHighBit(h, i, n);
    }
  }

  lemma HadamardStep(h: nat, k: nat, a: seq<real>, b: seq<real>)
    requires Pow2(h) && |a| == |b| == h && k < h
    ensures RowTimes(k, 0, a + b) == RowTimes(k, 0, a) + RowTimes(k, 0, b)
    ensures RowTimes(k + h, 0, a + b) == RowTimes(k, 0, a) - RowTimes(k, 0, b)
  {
    RowTimesConcat(k, 0, a, b);
    RowTimesConcat(k + h, 0, a, b);
    RowTimesQuarter(h, k, a);
    RowTimesQuarter(h, k, b);
  }

  /** What the proof needs of the matrix rows: how a row acts on two halves. */
  ghost predicate RowLaw(row: (nat, seq<real>) -> real, k: nat, a: seq<real>, b: seq<real>) {
    var h := |a|;
    Pow2(h) && |b| == h && k < h ==>
      && row(k, a + b) == row(k, a) + row(k, b)
      && row(k + h, a + b) == row(k, a) - row(k, b)
  }

  ghost predicate IsRows(row: (nat, seq<real>) -> real) {
    && (forall k, a, b :: RowLaw(row, k, a, b))
    && (forall a | |a| == 1 :: row(0, a) == a[0])
  }

  lemma WhtAt(a: seq<real>, b: seq<real>, k: nat)
    requires |a| == |b| && Pow2(|a|) && Pow2(|a + b|) && k < |a|
    ensures Wht(a + b)[k] == Wht(a)[k] + Wht(b)[k]
    ensures Wht(a + b)[k + |a|] == Wht(a)[k] - Wht(b)[k]
  {
    hide Wht;
    WhtHalves(a + b, a, b);
  }

  lemma RowsStep(row: (nat, seq<real>) -> real, a: seq<real>, b: seq<real>, k: nat)
    requires |a| == |b| && Pow2(|a|) && Pow2(|a + b|) && k < |a|
    requires RowLaw(row, k, a, b) && Wht(a)[k] == row(k, a) && Wht(b)[k] == row(k, b)
    ensures Wht(a + b)[k] == row(k, a + b) && Wht(a + b)[k + |a|] == row(k + |a|, a + b)
  {
    hide Wht;
    WhtAt(a, b, k);
  }

  lemma {:induction false} WhtByRows(row: (nat, seq<real>) -> real, x: seq<real>, i: nat)
    requires Pow2(|x|) && i < |x| && IsRows(row)
    ensures Wht(x)[i] == row(i, x)
    decreases |x|
  {
    hide Wht, RowLaw;
    if |x| == 1 {
      WhtOne(x);
    } else {
      var h := |x| / 2;
      var a, b := x[..h], x[h..];
      assert |x| == 2 * h && x == a + b;
      var k := if i < h then i else i - h;
      WhtByRows(row, a, k);
      WhtByRows(row, b, k);
      assert RowLaw(row, k, a, b);
      RowsStep(row, a, b, k);
    }
  }

  /** The transform is multiplication by the Hadamard matrix. */
  lemma WhtIsHadamard(x: seq<real>, i: nat)
    requires Pow2(|x|) && i < |x|
    ensures Wht(x)[i] == RowTimes(i, 0, x)
  {
    var row := (k: nat, a: seq<real>) => RowTimes(k, 0, a);
    forall k: nat, a: seq<real>, b: seq<real> ensures RowLaw(row, k, a, b) {
      if Pow2(|a|) && |b| == |a| && k < |a| {
        HadamardStep(|a|, k, a, b);
      }
    }
    forall a: seq<real> | |a| == 1 ensures row(0, a) == a[0] {
      assert RowTimes(0, 0, a[..0]) == 0.0;
    }
    WhtByRows(row, x, i);
  }
}
