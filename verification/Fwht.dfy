/** The in-place 256-point rotation of scripts/astrea.py and the two forms of scripts/analyze_quant_mse.py, proved
    against the Walsh-Hadamard transform. */
module Fwht {
  import opened Wrappers
  import opened Hadamard

  /** `n` is `size` added to itself some number of times. */
  predicate Multiple(n: nat, size: nat)
    decreases n
  {
    n == 0 || (1 <= size <= n && Multiple(n - size, size))
  }

  lemma {:induction false} MultipleSum(a: nat, b: nat, size: nat)
    requires Multiple(a, size) && Multiple(b, size)
    ensures Multiple(a + b, size)
    decreases b
  {
    if b == 0 {
    } else {
      MultipleSum(a, b - size, size);
    }
  }

  lemma {:induction false} MultipleOfHalf(n: nat, size: nat)
    requires size >= 1 && Multiple(n, 2 * size)
    ensures Multiple(n, size)
    decreases n
  {
    if n == 0 {
    } else {
      MultipleOfHalf(n - 2 * size, size);
      assert Multiple(n - size, size);
    }
  }

  lemma {:induction false} Pow2Multiple(n: nat, size: nat)
    requires Pow2(n) && Pow2(size) && size <= n
    ensures Multiple(n, size)
    decreases n
  {
    if size == n {
      assert Multiple(0, size);
    } else {
      Pow2Gap(n, size);
      Pow2Multiple(n / 2, size);
      MultipleSum(n / 2, n / 2, size);
    }
  }

  lemma {:induction false} Pow2Gap(n: nat, size: nat)
    requires Pow2(n) && Pow2(size) && size < n
    ensures 2 * size <= n
    decreases n
  {
    if size <= 1 {
    } else {
      Pow2Gap(n / 2, size / 2);
    }
  }

  // ---------- one stage ----------

  /** One stage on values: every group of 2*stride elements is replaced by its butterfly. */
  ghost function Stage(x: seq<real>, stride: nat): (r: seq<real>)
    requires Multiple(|x|, 2 * stride)
    ensures |r| == |x|
    decreases |x|
  {
    if x == [] then []
    else
      var i := |x| - 2 * stride;
      Stage(x[..i], stride) + Combine(x[i..i + stride], x[i + stride..])
  }

  /** The transform of every aligned block of `size` elements. */
  ghost function BlockWht(x: seq<real>, size: nat): (r: seq<real>)
    requires Pow2(size) && Multiple(|x|, size)
    ensures |r| == |x|
    decreases |x|
  {
    if x == [] then []
    else var i := |x| - size; BlockWht(x[..i], size) + Wht(x[i..])
  }

  lemma StageAppend(head: seq<real>, a: seq<real>, b: seq<real>, stride: nat)
    requires stride >= 1 && Multiple(|head|, 2 * stride) && |a| == |b| == stride
    ensures Multiple(|head + a + b|, 2 * stride)
    ensures Stage(head + a + b, stride) == Stage(head, stride) + Combine(a, b)
  {
    var x, i := head + a + b, |head|;
    assert x[..i] == head && x[i..i + stride] == a && x[i + stride..] == b;
  }

  /** The first `j` pairs of the group at `i` are done and nothing else has changed. */
  ghost predicate GroupDone(x: seq<real>, was: seq<real>, i: nat, stride: nat, j: nat)
    requires |x| == |was| && j <= stride && i + 2 * stride <= |x|
  {
    && (forall p | i <= p < i + j :: x[p] == was[p] + was[p + stride])
    && (forall p | i + stride <= p < i + stride + j :: x[p] == was[p - stride] - was[p])
    && (forall p | 0 <= p < |x| && !(i <= p < i + j) && !(i + stride <= p < i + stride + j) :: x[p] == was[p])
  }

  lemma GroupStep(x: seq<real>, was: seq<real>, i: nat, stride: nat, j: nat)
    requires |x| == |was| && j < stride && i + 2 * stride <= |x|
    requires GroupDone(x, was, i, stride, j)
    ensures var p, q := i + j, i + j + stride;
            GroupDone(x[p := x[p] + x[q]][q := x[p] - x[q]], was, i, stride, j + 1)
  {
    var p, q := i + j, i + j + stride;
    assert x[p] == was[p] && x[q] == was[q];
  }

  lemma GroupStart(was: seq<real>, i: nat, stride: nat)
    requires i + 2 * stride <= |was|
    ensures GroupDone(was, was, i, stride, 0)
  {
  }

  /** The innermost loop: one group, in place. */
  method Butterfly(x: array<real>, i: nat, stride: nat)
    requires i + 2 * stride <= x.Length
    modifies x
    ensures GroupDone(x[..], old(x[..]), i, stride, stride)
  {
    hide GroupDone;
    ghost var was := x[..];
    GroupStart(was, i, stride);
    for j := 0 to stride
      invariant GroupDone(x[..], was, i, stride, j)
    {
      ghost var before := x[..];
      var a := x[i + j];
      var b := x[i + j + stride];
      x[i + j] := a + b;
      x[i + j + stride] := a - b;
      assert x[..] == before[i + j := a + b][i + j + stride := a - b];
      GroupStep(before, was, i, stride, j);
    }
  }

  lemma GroupParts(after: seq<real>, head: seq<real>, a: seq<real>, b: seq<real>, tail: seq<real>)
    requires |a| == |b| && |after| == |head + a + b + tail|
    requires GroupDone(after, head + a + b + tail, |head|, |a|, |a|)
    ensures after == head + Combine(a, b) + tail
  {
    var was, want := head + a + b + tail, head + Combine(a, b) + tail;
    var i, s := |head|, |a|;
    forall p | 0 <= p < |after| ensures after[p] == want[p] {
      if i <= p < i + s {
        assert was[p] == a[p - i] && was[p + s] == b[p - i];
      } else if i + s <= p < i + 2 * s {
        assert was[p - s] == a[p - s - i] && was[p] == b[p - s - i];
      }
    }
  }

  /** A stage of which the groups before `i` are done. */
  ghost function HalfStage(was: seq<real>, stride: nat, i: nat): (r: seq<real>)
    requires i <= |was| && Multiple(i, 2 * stride)
    ensures |r| == |was|
  {
    Stage(was[..i], stride) + was[i..]
  }

  lemma StageNext(after: seq<real>, was: seq<real>, stride: nat, i: nat)
    requires stride >= 1 && |after| == |was| && i + 2 * stride <= |was| && Multiple(i, 2 * stride)
    requires GroupDone(after, HalfStage(was, stride, i), i, stride, stride)
    ensures Multiple(i + 2 * stride, 2 * stride) && after == HalfStage(was, stride, i + 2 * stride)
  {
    hide Stage, Combine, GroupDone;
    var head := Stage(was[..i], stride);
    var a, b, tail := was[i..i + stride], was[i + stride..i + 2 * stride], was[i + 2 * stride..];
    assert was[i..] == a + b + tail;
    assert HalfStage(was, stride, i) == head + a + b + tail;
    GroupParts(after, head, a, b, tail);
    StageAppend(was[..i], a, b, stride);
    assert was[..i + 2 * stride] == was[..i] + a + b;
  }

  lemma StageEnds(was: seq<real>, stride: nat)
    requires Multiple(|was|, 2 * stride)
    ensures HalfStage(was, stride, 0) == was
    ensures HalfStage(was, stride, |was|) == Stage(was, stride)
  {
    assert was[..0] == [] && was[0..] == was;
    assert was[..|was|] == was && was[|was|..] == [];
  }

  /** The middle loop: one stage, group after group. */
  method ButterflyStage(x: array<real>, stride: nat)
    requires stride >= 1 && Multiple(x.Length, 2 * stride)
    modifies x
    ensures x[..] == Stage(old(x[..]), stride)
  {
    hide Stage, HalfStage, GroupDone;
    ghost var was := x[..];
    var i := 0;
    StageEnds(was, stride);
    while i < x.Length
      invariant i <= x.Length && Multiple(i, 2 * stride) && Multiple(x.Length - i, 2 * stride)
      invariant x[..] == HalfStage(was, stride, i)
      decreases x.Length - i
    {
      Butterfly(x, i, stride);
      StageNext(x[..], was, stride, i);
      i := i + stride * 2;
    }
  }

  // ---------- all stages ----------

  lemma BlocksAppend(head: seq<real>, a: seq<real>, b: seq<real>, size: nat)
    requires Pow2(size) && Multiple(|head|, size) && |a| == |b| == size
    ensures Multiple(|head + a + b|, size)
    ensures BlockWht(head + a + b, size) == BlockWht(head, size) + Wht(a) + Wht(b)
  {
    var x := head + a + b;
    assert x[..|x| - size] == head + a && x[|x| - size..] == b;
    assert (head + a)[..|head|] == head && (head + a)[|head|..] == a;
  }

  /** A stage turns transformed blocks of `size` into transformed blocks of twice that size. */
  lemma {:induction false} StageOfBlocks(x: seq<real>, size: nat)
    requires Pow2(size) && Pow2(2 * size) && Multiple(|x|, 2 * size)
    ensures Multiple(|x|, size) && Stage(BlockWht(x, size), size) == BlockWht(x, 2 * size)
    decreases |x|
  {
    hide BlockWht, Wht, Stage;
    MultipleOfHalf(|x|, size);
    if x == [] {
      NoBlocks(size);
    } else {
      var i := |x| - 2 * size;
      var a, b := x[i..i + size], x[i + size..];
      MultipleOfHalf(i, size);
      StageOfBlocks(x[..i], size);
      BlocksStep(x[..i], a, b, size);
      LastBlock(x, 2 * size);
      assert x == x[..i] + a + b && x[i..] == a + b;
    }
  }

  lemma NoBlocks(size: nat)
    requires Pow2(size) && Pow2(2 * size)
    ensures Stage(BlockWht([], size), size) == BlockWht([], 2 * size)
  {
  }

  lemma LastBlock(x: seq<real>, size: nat)
    requires Pow2(size) && Multiple(|x|, size) && x != []
    ensures BlockWht(x, size) == BlockWht(x[..|x| - size], size) + Wht(x[|x| - size..])
  {
    hide Wht;
  }

  lemma BlocksStep(head: seq<real>, a: seq<real>, b: seq<real>, size: nat)
    requires Pow2(size) && Pow2(2 * size) && Multiple(|head|, size) && Multiple(|head|, 2 * size) && |a| == |b| == size
    requires Stage(BlockWht(head, size), size) == BlockWht(head, 2 * size)
    ensures Multiple(|head + a + b|, size) && Multiple(|head + a + b|, 2 * size)
    ensures Stage(BlockWht(head + a + b, size), size) == BlockWht(head, 2 * size) + Wht(a + b)
  {
    hide BlockWht, Wht, Stage;
    BlocksAppend(head, a, b, size);
    StageAppend(BlockWht(head, size), Wht(a), Wht(b), size);
    WhtHalves(a + b, a, b);
  }

  lemma {:induction false} BlocksOfOne(x: seq<real>)
    ensures Multiple(|x|, 1) && BlockWht(x, 1) == x
  {
    hide BlockWht, Wht;
    if x == [] {
      NoBlocksOfOne();
    } else {
      var n := |x| - 1;
      BlocksOfOne(x[..n]);
      Pow2OfOne();
      LastBlock(x, 1);
      WhtOne(x[n..]);
      assert x == x[..n] + x[n..];
    }
  }

  lemma NoBlocksOfOne()
    ensures Pow2(1) && BlockWht([], 1) == []
  {
  }

  lemma OneBlock(x: seq<real>)
    requires Pow2(|x|)
    ensures Multiple(|x|, |x|) && BlockWht(x, |x|) == Wht(x)
  {
    assert Multiple(0, |x|);
    assert x[..0] == [] && x[0..] == x;
    assert BlockWht(x[..0], |x|) == [];
  }

  /** The three nested loops: stages of stride 1, 2, 4, ... in place. */
  method Transform(x: array<real>)
    requires Pow2(x.Length)
    modifies x
    ensures x[..] == Wht(old(x[..]))
  {
    hide BlockWht, Wht, Stage;
    ghost var was := x[..];
    var stride := 1;
    BlocksOfOne(was);
    while stride < x.Length
      invariant 1 <= stride <= x.Length && Pow2(stride) && Multiple(x.Length, stride)
      invariant x[..] == BlockWht(was, stride)
      decreases x.Length - stride
    {
      NextStride(x.Length, stride);
      ButterflyStage(x, stride);
      StageOfBlocks(was, stride);
      stride := stride * 2;
    }
    OneBlock(was);
  }

  lemma NextStride(n: nat, stride: nat)
    requires Pow2(n) && Pow2(stride) && stride < n
    ensures Pow2(2 * stride) && 2 * stride <= n && Multiple(n, 2 * stride)
  {
    Pow2Gap(n, stride);
    assert (2 * stride) / 2 == stride;
    Pow2Multiple(n, 2 * stride);
  }

  // ---------- the rotation ----------

  lemma Pow2Of256()
    ensures Pow2(256)
  {
    assert Pow2(1) && Pow2(2) && Pow2(4) && Pow2(8);
    assert Pow2(16) && Pow2(32) && Pow2(64) && Pow2(128);
  }

  /** A vector of 256 signs. */
  ghost predicate Signs(s: seq<real>) {
    |s| == 256 && forall i | 0 <= i < 256 :: s[i] == 1.0 || s[i] == -1.0
  }

  /** The signed, scaled transform: signs, Walsh-Hadamard, 1/16, signs.  The inverse is the same with the sign vectors
      exchanged. */
  ghost function Rotate(x: seq<real>, signs1: seq<real>, signs2: seq<real>): (r: seq<real>)
    requires |x| == |signs1| == |signs2| == 256
    ensures |r| == 256
  {
    Pow2Of256();
    Times(Sixteenth(Wht(Times(x, signs1))), signs2)
  }

  /** Entry i of the rotation is the i-th Hadamard row applied to the signed input, scaled and signed. */
  lemma RotateEntry(x: seq<real>, signs1: seq<real>, signs2: seq<real>, i: nat)
    requires |x| == |signs1| == |signs2| == 256 && i < 256
    ensures Rotate(x, signs1, signs2)[i] == RowTimes(i, 0, Times(x, signs1)) * 0.0625 * signs2[i]
  {
    hide Wht, RowTimes;
    Pow2Of256();
    WhtIsHadamard(Times(x, signs1), i);
  }

  /** Multiplying by a sign vector twice changes nothing. */
  lemma SignsCancel(x: seq<real>, s: seq<real>)
    requires Signs(s) && |x| == 256
    ensures Times(Times(x, s), s) == x
  {
    forall i | 0 <= i < 256 ensures x[i] * s[i] * s[i] == x[i] {
    }
  }

  /** Two sixteenths undo the factor 256. */
  lemma ScalesCancel(v: seq<real>, w: seq<real>)
    requires |w| == |v| && forall i | 0 <= i < |v| :: w[i] == 256.0 * v[i]
    ensures Sixteenth(Sixteenth(w)) == v
  {
    forall i | 0 <= i < |v| ensures Sixteenth(Sixteenth(w))[i] == v[i] {
      assert Sixteenth(Sixteenth(w))[i] == (w[i] * 0.0625) * 0.0625;
    }
  }

  /** Rotating back with the sign vectors exchanged undoes the rotation. */
  lemma InverseUndoes(x: seq<real>, signs1: seq<real>, signs2: seq<real>)
    requires |x| == 256 && Signs(signs1) && Signs(signs2)
    ensures Rotate(Rotate(x, signs1, signs2), signs2, signs1) == x
  {
    hide Wht, Times, Sixteenth;
    Pow2Of256();
    var v := Times(x, signs1);
    var y := Sixteenth(Wht(v));
    SignsCancel(y, signs2);
    WhtSixteenth(Wht(v));
    WhtInvolution(v);
    ScalesCancel(v, Wht(Wht(v)));
    SignsCancel(x, signs1);
  }

  function Square(x: real): real {
    x * x
  }

  lemma SquareIsQuadratic()
    ensures Quadratic(Square)
  {
    forall x: real, y: real ensures Law(Square, x, y) {
      SquareLaw(x, y);
    }
  }

  lemma SquareLaw(x: real, y: real)
    ensures Law(Square, x, y)
  {
    assert (x + y) * (x + y) + (x - y) * (x - y) == 2.0 * (x * x + y * y);
  }

  ghost function SumSq(a: seq<real>): real {
    Energy(Square, a)
  }

  lemma {:induction false} SignsKeepEnergy(q: real -> real, a: seq<real>, s: seq<real>)
    requires Quadratic(q) && |a| == |s| && forall i | 0 <= i < |s| :: s[i] == 1.0 || s[i] == -1.0
    ensures Energy(q, Times(a, s)) == Energy(q, a)
    decreases |a|
  {
    if a == [] {
    } else {
      var n := |a| - 1;
      SignsKeepEnergy(q, a[..n], s[..n]);
      assert Times(a, s)[..n] == Times(a[..n], s[..n]);
      assert Law(q, a[n], 0.0);
      SignCases(a[n], s[n]);
    }
  }

  lemma SignCases(x: real, s: real)
    requires s == 1.0 || s == -1.0
    ensures x * s == x || x * s == -x
  {
  }

  lemma RotationKeepsEnergy(q: real -> real, x: seq<real>, signs1: seq<real>, signs2: seq<real>)
    requires Quadratic(q) && |x| == 256 && Signs(signs1) && Signs(signs2)
    ensures Energy(q, Rotate(x, signs1, signs2)) == Energy(q, x)
  {
    hide Wht, Times, Sixteenth, Energy, Quadratic, IsNorm;
    Pow2Of256();
    var norm := (a: seq<real>) => Energy(q, a);
    EnergyIsNorm(q, norm);
    var v := Times(x, signs1);
    SignsKeepEnergy(q, x, signs1);
    WhtParseval(norm, v);
    assert Energy(q, Wht(v)) == norm(Wht(v)) && norm(v) == Energy(q, v);
    EnergySixteenth(q, Wht(v));
    SignsKeepEnergy(q, Sixteenth(Wht(v)), signs2);
  }

  /** Parseval: the rotation preserves the sum of squares. */
  lemma RotationKeepsSumSq(x: seq<real>, signs1: seq<real>, signs2: seq<real>)
    requires |x| == 256 && Signs(signs1) && Signs(signs2)
    ensures SumSq(Rotate(x, signs1, signs2)) == SumSq(x)
  {
    hide Energy, Rotate, Quadratic;
    SquareIsQuadratic();
    RotationKeepsEnergy(Square, x, signs1, signs2);
  }

  lemma TimesSub(a: seq<real>, b: seq<real>, s: seq<real>)
    requires |a| == |b| == |s|
    ensures Times(Sub(a, b), s) == Sub(Times(a, s), Times(b, s))
  {
    forall i | 0 <= i < |a| ensures Times(Sub(a, b), s)[i] == Sub(Times(a, s), Times(b, s))[i] {
      Distribute(a[i], b[i], s[i]);
    }
  }

  lemma Distribute(x: real, y: real, s: real)
    ensures (x - y) * s == x * s - y * s
  {
  }

  lemma SixteenthSub(a: seq<real>, b: seq<real>)
    requires |a| == |b|
    ensures Sixteenth(Sub(a, b)) == Sub(Sixteenth(a), Sixteenth(b))
  {
  }

  /** The rotation of a difference is the difference of the rotations. */
  lemma RotateSub(a: seq<real>, b: seq<real>, signs1: seq<real>, signs2: seq<real>)
    requires |a| == |b| == |signs1| == |signs2| == 256
    ensures Rotate(Sub(a, b), signs1, signs2) == Sub(Rotate(a, signs1, signs2), Rotate(b, signs1, signs2))
  {
    hide Wht, Times, Sixteenth, Sub;
    Pow2Of256();
    TimesSub(a, b, signs1);
    WhtSub(Times(a, signs1), Times(b, signs1));
    SixteenthSub(Wht(Times(a, signs1)), Wht(Times(b, signs1)));
    TimesSub(Sixteenth(Wht(Times(a, signs1))), Sixteenth(Wht(Times(b, signs1))), signs2);
  }

  /** `cpu_fwht_256` (and, row by row, `fwht_256_numpy` and `fwht_256_correct`): refuses any length but 256, else computes
      the rotation with the in-place loops. */
  method CpuFwht256(values: seq<real>, signs1: seq<real>, signs2: seq<real>) returns (r: Option<seq<real>>)
    requires |signs1| == |signs2| == 256
    ensures r == if |values| == 256 then Some(Rotate(values, signs1, signs2)) else None
  {
    if |values| != 256 {
      return None;
    }
    hide Wht, Sixteenth, Pow2;
    var x := new real[256](i requires 0 <= i < 256 => values[i] * signs1[i]);
    assert x[..] == Times(values, signs1);
    Pow2Of256();
    Transform(x);
    r := Some(Times(Sixteenth(x[..]), signs2));
  }

  // ---------- the reshape form ----------

  /** `reshape(-1, width)`: the vector cut into rows. */
  function Reshape(x: seq<real>, width: nat): (rows: seq<seq<real>>)
    requires Multiple(|x|, width)
    ensures forall r <- rows :: |r| == width
    decreases |x|
  {
    if x == [] then []
    else var i := |x| - width; Reshape(x[..i], width) + [x[i..]]
  }

  /** Back to one row. */
  function Flatten(rows: seq<seq<real>>): seq<real> {
    if rows == [] then [] else Flatten(rows[..|rows| - 1]) + rows[|rows| - 1]
  }

  /** Every row's left half plus and minus its right half. */
  function CombineRows(rows: seq<seq<real>>, stride: nat): seq<seq<real>>
    requires forall r <- rows :: |r| == 2 * stride
  {
    seq(|rows|, i requires 0 <= i < |rows| =>
      assert rows[i] in rows; Combine(rows[i][..stride], rows[i][stride..]))
  }

  function FastStage(x: seq<real>, stride: nat): seq<real>
    requires Multiple(|x|, 2 * stride)
  {
    Flatten(CombineRows(Reshape(x, 2 * stride), stride))
  }

  lemma CombineRowsAppend(head: seq<seq<real>>, last: seq<real>, stride: nat)
    requires |last| == 2 * stride && forall r <- head :: |r| == 2 * stride
    ensures forall r <- head + [last] :: |r| == 2 * stride
    ensures Flatten(CombineRows(head + [last], stride))
         == Flatten(CombineRows(head, stride)) + Combine(last[..stride], last[stride..])
  {
    hide Combine;
    var all := CombineRows(head + [last], stride);
    assert all[..|all| - 1] == CombineRows(head, stride);
  }

  /** Doing all groups of a stage at once through the reshape is the stage. */
  lemma {:induction false} FastStageIsStage(x: seq<real>, stride: nat)
    requires Multiple(|x|, 2 * stride)
    ensures FastStage(x, stride) == Stage(x, stride)
    decreases |x|
  {
    hide Combine, CombineRows, Flatten, Stage, Reshape;
    if x == [] {
      FastStageEmpty(stride);
    } else {
      var i := |x| - 2 * stride;
      FastStageIsStage(x[..i], stride);
      CombineRowsAppend(Reshape(x[..i], 2 * stride), x[i..], stride);
      LastRow(x, 2 * stride);
      assert x[i..][..stride] == x[i..i + stride] && x[i..][stride..] == x[i + stride..];
      LastGroup(x, stride);
    }
  }

  lemma LastRow(x: seq<real>, width: nat)
    requires Multiple(|x|, width) && x != []
    ensures Reshape(x, width) == Reshape(x[..|x| - width], width) + [x[|x| - width..]]
  {
  }

  lemma LastGroup(x: seq<real>, stride: nat)
    requires Multiple(|x|, 2 * stride) && x != []
    ensures var i := |x| - 2 * stride;
            Stage(x, stride) == Stage(x[..i], stride) + Combine(x[i..i + stride], x[i + stride..])
  {
    hide Combine;
  }

  lemma FastStageEmpty(stride: nat)
    ensures FastStage([], stride) == Stage([], stride)
  {
  }

  /** `fwht_256_fast`: the reshape form computes the same rotation as the reference loop on every input. */
  method Fwht256Fast(values: seq<real>, signs1: seq<real>, signs2: seq<real>) returns (r: seq<real>)
    requires |values| == |signs1| == |signs2| == 256
    ensures r == Rotate(values, signs1, signs2)
  {
    hide Wht, Sixteenth, Stage, BlockWht, FastStage, Pow2, Multiple, Times;
    Pow2Of256();
    var x := Times(values, signs1);
    ghost var was := x;
    var stride := 1;
    BlocksOfOne(was);
    assert Pow2(1) by { Pow2OfOne(); }
    while stride < 256
      invariant 1 <= stride <= 256 && |x| == 256 && Pow2(stride) && Multiple(256, stride)
      invariant x == BlockWht(was, stride)
      decreases 256 - stride
    {
      NextStride(256, stride);
      FastStageIsStage(x, stride);
      StageOfBlocks(was, stride);
      x := FastStage(x, stride);
      stride := stride * 2;
    }
    OneBlock(was);
    r := Times(Sixteenth(x), signs2);
  }

  lemma Pow2OfOne()
    ensures Pow2(1)
  {
  }

  // ---------- the sign vectors ----------

  /** The generator's step and the sign it yields. */
  function NextState(state: int): int {
    (state * 1103515245 + 12345) % 0x8000_0000
  }

  function SignOf(state: int): real {
    if (state / 0x1_0000) % 2 == 1 then 1.0 else -1.0
  }

  function StateAfter(seed: int, n: nat): int {
    if n == 0 then seed else NextState(StateAfter(seed, n - 1))
  }

  /** The n-th power of the generator's multiplier. */
  function Power(n: nat): nat {
    if n == 0 then 1 else 1103515245 * Power(n - 1)
  }

  /** The sum of the first n powers. */
  function PowerSum(n: nat): nat {
    if n == 0 then 0 else PowerSum(n - 1) + Power(n - 1)
  }

  /** Horner's rule for the sum of powers. */
  lemma {:induction false} PowerSumStep(n: nat)
    ensures PowerSum(n + 1) == 1103515245 * PowerSum(n) + 1
  {
    if n == 0 {
    } else {
      PowerSumStep(n - 1);
    }
  }

  lemma {:induction false} ModShift(k: int, y: int, m: int)
    requires m > 0
    ensures (k * m + y) % m == y % m
  {
    var x := k * m + y;
    var d := x / m - y / m - k;
    assert x == (x / m) * m + x % m && y == (y / m) * m + y % m;
    assert d * m == y % m - x % m;
    SmallMultiple(d, m, y % m - x % m);
  }

  lemma AtLeastOnce(d: int, m: int)
    requires d >= 1 && m > 0
    ensures d * m >= m && (-d) * m <= -m
  {
    assert (d - 1) * m >= 0;
  }

  lemma SmallMultiple(d: int, m: int, x: int)
    requires d * m == x && -m < x < m
    ensures x == 0
  {
    if d >= 1 {
      AtLeastOnce(d, m);
      assert false;
    } else if d <= -1 {
      AtLeastOnce(-d, m);
      assert false;
    }
  }

  lemma ModStep(x: int, a: int, c: int, m: int)
    requires m > 0
    ensures ((x % m) * a + c) % m == (x * a + c) % m
  {
    var q, r := x / m, x % m;
    assert x == q * m + r;
    assert x * a + c == (q * a) * m + (r * a + c);
    ModShift(q * a, r * a + c, m);
  }

  /** The n-th state of the generator in closed form. */
  lemma {:induction false} StateInClosedForm(seed: int, n: nat)
    requires n >= 1
    ensures StateAfter(seed, n) == (Power(n) * seed + 12345 * PowerSum(n)) % 0x8000_0000
  {
    if n == 1 {
      assert Power(1) == 1103515245 && PowerSum(1) == 1;
      assert StateAfter(seed, 0) == seed;
    } else {
      StateInClosedForm(seed, n - 1);
      PowerSumStep(n - 1);
      ClosedStep(seed, n);
    }
  }

  lemma ClosedStep(seed: int, n: nat)
    requires n >= 2 && StateAfter(seed, n - 1) == (Power(n - 1) * seed + 12345 * PowerSum(n - 1)) % 0x8000_0000
    requires PowerSum(n) == 1103515245 * PowerSum(n - 1) + 1
    ensures StateAfter(seed, n) == (Power(n) * seed + 12345 * PowerSum(n)) % 0x8000_0000
  {
    hide PowerSum;
    var p := Power(n - 1) * seed;
    var x := p + 12345 * PowerSum(n - 1);
    ModStep(x, 1103515245, 12345, 0x8000_0000);
    assert Power(n) * seed == 1103515245 * p;
  }

  /** `gen_fwht_signs`: n signs, the i-th plus exactly when bit 16 of the (i+1)-th generator state is set. */
  method GenFwhtSigns(seed: int, n: nat) returns (signs: seq<real>)
    ensures |signs| == n && forall i | 0 <= i < n :: signs[i] == SignOf(StateAfter(seed, i + 1))
    ensures forall i | 0 <= i < n ::
              signs[i] == if (Power(i + 1) * seed + 12345 * PowerSum(i + 1)) % 0x8000_0000 / 0x1_0000 % 2 == 1 then 1.0 else -1.0
    ensures n == 256 ==> Signs(signs)
  {
    hide NextState;
    var state := seed;
    signs := [];
    var i := 0;
    while i < n
      invariant i <= n && |signs| == i && state == StateAfter(seed, i)
      invariant forall j | 0 <= j < i :: signs[j] == SignOf(StateAfter(seed, j + 1))
    {
      state := NextState(state);
      signs := signs + [SignOf(state)];
      i := i + 1;
    }
    hide Power, PowerSum, StateAfter;
    forall j | 0 <= j < n
      ensures signs[j] == if (Power(j + 1) * seed + 12345 * PowerSum(j + 1)) % 0x8000_0000 / 0x1_0000 % 2 == 1 then 1.0 else -1.0
    {
      StateInClosedForm(seed, j + 1);
    }
  }
}
