/** MQ4 block quantisation of scripts/astrea.py over exact reals: the min/max affine codes, the alternating
    least-squares refit, and the error of a whole block after the inverse rotation. */
module Mq4 {
  import opened Hadamard
  import opened Fwht

  /** One quantised block: 4-bit codes and the affine map back to values. */
  datatype Fit = Fit(codes: seq<int>, scale: real, zero: real)

  ghost predicate Codes(q: seq<int>) {
    forall i | 0 <= i < |q| :: 0 <= q[i] <= 15
  }

  /** What a code stands for. */
  function Value(code: int, scale: real, zero: real): real {
    code as real * scale + zero
  }

  function Dequantize(f: Fit): (r: seq<real>)
    ensures |r| == |f.codes|
  {
    seq(|f.codes|, i requires 0 <= i < |f.codes| => Value(f.codes[i], f.scale, f.zero))
  }

  /** Squared error of a block. */
  ghost function Error(r: seq<real>, f: Fit): real
    requires |r| == |f.codes|
    decreases |r|
  {
    if r == [] then 0.0
    else
      var n := |r| - 1;
      Error(r[..n], f.(codes := f.codes[..n])) + Square(r[n] - Value(f.codes[n], f.scale, f.zero))
  }

  /** The block error is the sum of squares of the difference vector. */
  lemma {:induction false} ErrorIsSumSq(r: seq<real>, f: Fit)
    requires |r| == |f.codes|
    ensures Error(r, f) == SumSq(Sub(r, Dequantize(f)))
    decreases |r|
  {
    hide Value, Square;
    if r == [] {
    } else {
      var n := |r| - 1;
      var g := f.(codes := f.codes[..n]);
      ErrorIsSumSq(r[..n], g);
      var d := Sub(r, Dequantize(f));
      assert d[..n] == Sub(r[..n], Dequantize(g));
    }
  }

  // ---------- nearest code ----------

  function Clip15(x: int): int {
    if x < 0 then 0 else if x > 15 then 15 else x
  }

  /** The inverse scale the code uses: zero unless the scale is positive. */
  function Inverse(scale: real): real {
    if scale > 0.0 then 1.0 / scale else 0.0
  }

  /** Where a value sits on the code axis. */
  function Position(v: real, scale: real, zero: real): real {
    (v - zero) * Inverse(scale)
  }

  /** Rounds to the nearest code, halves up, and clips. */
  function Code(v: real, scale: real, zero: real): int {
    Clip15((Position(v, scale, zero) + 0.5).Floor)
  }

  /** `x` is no further from zero than `y`. */
  ghost predicate NoFurther(x: real, y: real) {
    (y >= 0.0 ==> -y <= x <= y) && (y <= 0.0 ==> y <= x <= -y)
  }

  lemma NearestInteger(t: real, c: int)
    requires 0 <= c <= 15
    ensures var k := Clip15((t + 0.5).Floor);
            0 <= k <= 15 && NoFurther(t - k as real, t - c as real)
  {
  }

  lemma SquaresFollow(scale: real, x: real, y: real, u: real, w: real)
    requires NoFurther(x, y) && u == scale * x && w == scale * y
    ensures Square(u) <= Square(w)
  {
    AbsSquare(x, y);
    ScaleLe(scale * scale, x * x, y * y);
    assert (scale * x) * (scale * x) == (scale * scale) * (x * x);
    assert (scale * y) * (scale * y) == (scale * scale) * (y * y);
  }

  lemma AbsSquare(x: real, y: real)
    requires NoFurther(x, y)
    ensures x * x <= y * y
  {
    assert y >= 0.0 ==> (y - x) * (y + x) >= 0.0;
    assert y <= 0.0 ==> (-y - x) * (-y + x) >= 0.0;
  }

  lemma ScaleLe(c: real, x: real, y: real)
    requires c >= 0.0 && x <= y
    ensures c * x <= c * y
  {
    assert c * (y - x) >= 0.0;
  }

  lemma Residual(v: real, scale: real, zero: real, k: int)
    requires scale > 0.0
    ensures v - Value(k, scale, zero) == scale * (Position(v, scale, zero) - k as real)
  {
    var inv := 1.0 / scale;
    var d := v - zero;
    assert scale * inv == 1.0;
    assert scale * (d * inv) == d * (scale * inv) == d;
  }

  /** With a positive scale no other code is closer. */
  lemma CodeIsNearest(v: real, scale: real, zero: real, c: int)
    requires scale > 0.0 && 0 <= c <= 15
    ensures 0 <= Code(v, scale, zero) <= 15
    ensures Square(v - Value(Code(v, scale, zero), scale, zero)) <= Square(v - Value(c, scale, zero))
  {
    hide Position, Value, Square, NoFurther;
    var t, k := Position(v, scale, zero), Code(v, scale, zero);
    NearestInteger(t, c);
    Residual(v, scale, zero, k);
    Residual(v, scale, zero, c);
    SquaresFollow(scale, t - k as real, t - c as real, v - Value(k, scale, zero), v - Value(c, scale, zero));
  }

  /** The requantisation step: every value goes to its code under the current map. */
  function Requantize(r: seq<real>, scale: real, zero: real): (q: seq<int>)
    ensures |q| == |r|
  {
    seq(|r|, i requires 0 <= i < |r| => Code(r[i], scale, zero))
  }

  lemma RequantizeIsCodes(r: seq<real>, scale: real, zero: real)
    ensures Codes(Requantize(r, scale, zero))
  {
    hide Position;
  }

  /** Requantising under a positive scale never increases the error. */
  lemma {:induction false} RequantizeDescends(r: seq<real>, f: Fit)
    requires |r| == |f.codes| && Codes(f.codes) && f.scale > 0.0
    ensures Error(r, Fit(Requantize(r, f.scale, f.zero), f.scale, f.zero)) <= Error(r, f)
    decreases |r|
  {
    hide Code, Value, Square;
    if r == [] {
    } else {
      var n := |r| - 1;
      var q := Requantize(r, f.scale, f.zero);
      RequantizeDescends(r[..n], f.(codes := f.codes[..n]));
      assert q[..n] == Requantize(r[..n], f.scale, f.zero);
      CodeIsNearest(r[n], f.scale, f.zero, f.codes[n]);
    }
  }

  // ---------- least squares ----------

  function Sum(a: seq<real>): real {
    if a == [] then 0.0 else Sum(a[..|a| - 1]) + a[|a| - 1]
  }

  function Mean(a: seq<real>): real
    requires a != []
  {
    Sum(a) / |a| as real
  }

  function AsReals(q: seq<int>): (r: seq<real>)
    ensures |r| == |q|
  {
    seq(|q|, i requires 0 <= i < |q| => q[i] as real)
  }

  lemma TimesLast(a: seq<real>, b: seq<real>)
    requires |a| == |b| && a != []
    ensures var n := |a| - 1; Sum(Times(a, b)) == Sum(Times(a[..n], b[..n])) + a[n] * b[n]
  {
    var n := |a| - 1;
    var t, u := Times(a, b)[..n], Times(a[..n], b[..n]);
    forall i | 0 <= i < n ensures t[i] == u[i] {
      assert a[..n][i] == a[i] && b[..n][i] == b[i];
    }
    assert t == u;
  }

  /** The error as a quadratic form in scale and zero, given the block's moments. */
  ghost function Quad(n: real, r1: real, q1: real, rr: real, qr: real, qq: real, s: real, z: real): real {
    rr - 2.0 * (s * qr) - 2.0 * (z * r1) + (s * s) * qq + 2.0 * ((s * z) * q1) + n * (z * z)
  }

  lemma QuadStep(n: real, r1: real, q1: real, rr: real, qr: real, qq: real, s: real, z: real, v: real, c: real,
                 n': real, r1': real, q1': real, rr': real, qr': real, qq': real, d: real)
    requires n' == n + 1.0 && r1' == r1 + v && q1' == q1 + c
    requires rr' == rr + v * v && qr' == qr + c * v && qq' == qq + c * c
    requires d == v - (c * s + z)
    ensures Quad(n, r1, q1, rr, qr, qq, s, z) + Square(d) == Quad(n', r1', q1', rr', qr', qq', s, z)
  {
    var p := c * s;
    assert d * d == v * v - 2.0 * (v * p) - 2.0 * (v * z) + p * p + 2.0 * (p * z) + z * z;
    assert p * p == (s * s) * (c * c);
    assert v * p == s * (c * v);
    assert p * z == (s * z) * c;
    assert s * qr' == s * qr + s * (c * v);
    assert z * r1' == z * r1 + z * v;
    assert (s * s) * qq' == (s * s) * qq + (s * s) * (c * c);
    assert (s * z) * q1' == (s * z) * q1 + (s * z) * c;
    assert n' * (z * z) == n * (z * z) + z * z;
  }

  ghost function BlockQuad(r: seq<real>, q: seq<real>, s: real, z: real): real
    requires |r| == |q|
  {
    Quad(|r| as real, Sum(r), Sum(q), Sum(Times(r, r)), Sum(Times(q, r)), Sum(Times(q, q)), s, z)
  }

  lemma BlockQuadStep(r: seq<real>, q: seq<real>, s: real, z: real, d: real)
    requires |r| == |q| && r != [] && d == r[|r| - 1] - (q[|r| - 1] * s + z)
    ensures var n := |r| - 1;
            BlockQuad(r, q, s, z) == BlockQuad(r[..n], q[..n], s, z) + Square(d)
  {
    hide Quad, Times, Square;
    var n := |r| - 1;
    TimesLast(r, r);
    TimesLast(q, r);
    TimesLast(q, q);
    var r', q' := r[..n], q[..n];
    QuadStep(n as real, Sum(r'), Sum(q'), Sum(Times(r', r')), Sum(Times(q', r')), Sum(Times(q', q')), s, z, r[n], q[n],
             |r| as real, Sum(r), Sum(q), Sum(Times(r, r)), Sum(Times(q, r)), Sum(Times(q, q)), d);
  }

  lemma EmptyQuad(s: real, z: real)
    ensures BlockQuad([], [], s, z) == 0.0
  {
    assert Times([], []) == [];
  }

  lemma {:induction false} ErrorIsQuad(r: seq<real>, f: Fit)
    requires |r| == |f.codes|
    ensures Error(r, f) == BlockQuad(r, AsReals(f.codes), f.scale, f.zero)
    decreases |r|
  {
    hide Square, BlockQuad;
    if r == [] {
      EmptyQuad(f.scale, f.zero);
      assert AsReals(f.codes) == [];
    } else {
      var n := |r| - 1;
      ErrorIsQuad(r[..n], f.(codes := f.codes[..n]));
      BlockQuadStep(r, AsReals(f.codes), f.scale, f.zero, r[n] - Value(f.codes[n], f.scale, f.zero));
      assert AsReals(f.codes)[..n] == AsReals(f.codes[..n]);
    }
  }

  /** The same form divided by the block length, in terms of the means. */
  ghost function MeanQuad(mr: real, mq: real, rr: real, qr: real, qq: real, s: real, z: real): real {
    rr - 2.0 * (s * qr) - 2.0 * (z * mr) + (s * s) * qq + 2.0 * ((s * z) * mq) + z * z
  }

  lemma QuadByMeans(n: real, r1: real, q1: real, rr: real, qr: real, qq: real, s: real, z: real)
    requires n > 0.0
    ensures Quad(n, r1, q1, rr, qr, qq, s, z) == n * MeanQuad(r1 / n, q1 / n, rr / n, qr / n, qq / n, s, z)
  {
    var a, b, c, d, e := r1 / n, q1 / n, rr / n, qr / n, qq / n;
    assert n * a == r1 && n * b == q1 && n * c == rr && n * d == qr && n * e == qq;
    assert n * (s * d) == s * (n * d);
    assert n * (z * a) == z * (n * a);
    assert n * ((s * s) * e) == (s * s) * (n * e);
    assert n * ((s * z) * b) == (s * z) * (n * b);
  }

  /** For a fixed scale the best zero is mean_r - scale * mean_q. */
  lemma BestZero(mr: real, mq: real, rr: real, qr: real, qq: real, s: real, z: real, z0: real)
    requires z0 == mr - s * mq
    ensures MeanQuad(mr, mq, rr, qr, qq, s, z0) <= MeanQuad(mr, mq, rr, qr, qq, s, z)
  {
    var p := s * mq;
    var d := z - z0;
    assert MeanQuad(mr, mq, rr, qr, qq, s, z) - MeanQuad(mr, mq, rr, qr, qq, s, z0) == d * d by {
      assert (s * z) * mq == z * p && (s * z0) * mq == z0 * p;
      assert d * d == z * z - 2.0 * (z * z0) + z0 * z0;
      assert z * z0 == z * mr - z * p;
      assert z0 * z0 == z0 * mr - z0 * p;
    }
  }

  /** Along the best zeros the form is a parabola in the scale with its minimum at cov / var. */
  lemma BestScale(mr: real, mq: real, rr: real, qr: real, qq: real, s: real, z: real, best: real, bestZ: real)
    requires qq - mq * mq > 0.0 && best == (qr - mq * mr) / (qq - mq * mq)
    requires z == mr - s * mq && bestZ == mr - best * mq
    ensures MeanQuad(mr, mq, rr, qr, qq, best, bestZ) <= MeanQuad(mr, mq, rr, qr, qq, s, z)
  {
    hide MeanQuad;
    var v, c := qq - mq * mq, qr - mq * mr;
    Parabola(mr, mq, rr, qr, qq, s, z, v, c);
    Parabola(mr, mq, rr, qr, qq, best, bestZ, v, c);
    ParabolaMinimum(v, c, s, best);
  }

  lemma ParabolaMinimum(v: real, c: real, s: real, b: real)
    requires v > 0.0 && b == c / v
    ensures (b * b) * v - 2.0 * (b * c) <= (s * s) * v - 2.0 * (s * c)
  {
    assert b * v == c;
    var d := s - b;
    assert s * c == (s * b) * v && b * c == (b * b) * v;
    assert d * d == s * s - 2.0 * (s * b) + b * b;
    NonNegProduct(v, d * d);
  }

  lemma NonNegProduct(a: real, b: real)
    requires a >= 0.0 && b >= 0.0
    ensures a * b >= 0.0
  {
  }

  lemma Parabola(mr: real, mq: real, rr: real, qr: real, qq: real, s: real, z: real, v: real, c: real)
    requires z == mr - s * mq && v == qq - mq * mq && c == qr - mq * mr
    ensures MeanQuad(mr, mq, rr, qr, qq, s, z) == rr - mr * mr + (s * s) * v - 2.0 * (s * c)
  {
    var p := s * mq;
    assert (s * z) * mq == z * p;
    assert z * z == mr * mr - 2.0 * (mr * p) + p * p;
    assert z * mr == mr * mr - p * mr && z * p == mr * p - p * p;
    assert p * p == (s * s) * (mq * mq);
    assert mr * p == s * (mq * mr);
    assert (s * s) * v == (s * s) * qq - (s * s) * (mq * mq);
    assert s * c == s * qr - s * (mq * mr);
  }

  /** The variance below which the scale is left alone. */
  const VAR_FLOOR := 0.000000000001

  /** The candidate scale of one pass, for fixed codes. */
  function CandidateScale(r: seq<real>, q: seq<real>, scale: real): real
    requires |r| == |q| > 0
  {
    var meanQ, meanR := Mean(q), Mean(r);
    var varQ := Mean(Times(q, q)) - meanQ * meanQ;
    var covQR := Mean(Times(q, r)) - meanQ * meanR;
    if varQ > VAR_FLOOR then covQR / varQ else scale
  }

  function CandidateZero(r: seq<real>, q: seq<real>, scale: real): real
    requires |r| == |q| > 0
  {
    Mean(r) - scale * Mean(q)
  }

  /** One pass of the refit: fit scale and zero to the codes, keep them if the scale is positive, requantise. */
  function RefitPass(r: seq<real>, f: Fit): (g: Fit)
    requires |r| == |f.codes| > 0
    ensures |g.codes| == |r|
  {
    var q := AsReals(f.codes);
    var candScale := CandidateScale(r, q, f.scale);
    var candZero := CandidateZero(r, q, candScale);
    var scale, zero := if candScale > 0.0 then candScale else f.scale, if candScale > 0.0 then candZero else f.zero;
    Fit(Requantize(r, scale, zero), scale, zero)
  }

  lemma MeanQuadDescends(mr: real, mq: real, rr: real, qr: real, qq: real, s: real, z: real, cand: real, candZ: real)
    requires cand == if qq - mq * mq > VAR_FLOOR then (qr - mq * mr) / (qq - mq * mq) else s
    requires candZ == mr - cand * mq
    ensures MeanQuad(mr, mq, rr, qr, qq, cand, candZ) <= MeanQuad(mr, mq, rr, qr, qq, s, z)
  {
    hide MeanQuad;
    var z0 := mr - s * mq;
    BestZero(mr, mq, rr, qr, qq, s, z, z0);
    if qq - mq * mq > VAR_FLOOR {
      BestScale(mr, mq, rr, qr, qq, s, z0, cand, candZ);
    } else {
      BestZero(mr, mq, rr, qr, qq, s, z, candZ);
    }
  }

  lemma BlockByMeans(r: seq<real>, q: seq<real>, s: real, z: real)
    requires |r| == |q| > 0
    ensures BlockQuad(r, q, s, z) == |r| as real * BlockMeanQuad(r, q, s, z)
  {
    hide Quad, MeanQuad, Sum, Times;
    QuadByMeans(|r| as real, Sum(r), Sum(q), Sum(Times(r, r)), Sum(Times(q, r)), Sum(Times(q, q)), s, z);
  }

  /** Least squares for fixed codes: the candidate scale and zero never fit worse than the current ones. */
  lemma FitDescends(r: seq<real>, f: Fit)
    requires |r| == |f.codes| > 0
    ensures var q := AsReals(f.codes);
            var cand := CandidateScale(r, q, f.scale);
            Error(r, Fit(f.codes, cand, CandidateZero(r, q, cand))) <= Error(r, f)
  {
    hide Error, BlockMeanQuad, BlockQuad, Mean, Times, CandidateScale, CandidateZero;
    var q := AsReals(f.codes);
    var cand := CandidateScale(r, q, f.scale);
    var z := CandidateZero(r, q, cand);
    ErrorIsQuad(r, f);
    ErrorIsQuad(r, Fit(f.codes, cand, z));
    BlockByMeans(r, q, f.scale, f.zero);
    BlockByMeans(r, q, cand, z);
    CandidateFacts(r, q, f.scale, f.zero, cand, z);
  }

  ghost function BlockMeanQuad(r: seq<real>, q: seq<real>, s: real, z: real): real
    requires |r| == |q| > 0
  {
    MeanQuad(Mean(r), Mean(q), Mean(Times(r, r)), Mean(Times(q, r)), Mean(Times(q, q)), s, z)
  }

  lemma CandidateFacts(r: seq<real>, q: seq<real>, s: real, z: real, cand: real, candZ: real)
    requires |r| == |q| > 0 && cand == CandidateScale(r, q, s) && candZ == CandidateZero(r, q, cand)
    ensures |r| as real * BlockMeanQuad(r, q, cand, candZ) <= |r| as real * BlockMeanQuad(r, q, s, z)
  {
    hide MeanQuad, Mean, Times;
    MeanQuadDescends(Mean(r), Mean(q), Mean(Times(r, r)), Mean(Times(q, r)), Mean(Times(q, q)), s, z, cand, candZ);
    ScaleLe(|r| as real, BlockMeanQuad(r, q, cand, candZ), BlockMeanQuad(r, q, s, z));
  }

  /** What every pass keeps: proper codes and a positive scale. */
  ghost predicate Sound(r: seq<real>, f: Fit) {
    |r| == |f.codes| && Codes(f.codes) && f.scale > 0.0
  }

  /** A pass never increases the error, whether the candidate is kept or rejected and whatever the codes' variance. */
  lemma RefitPassDescends(r: seq<real>, f: Fit)
    requires r != [] && Sound(r, f)
    ensures Sound(r, RefitPass(r, f)) && Error(r, RefitPass(r, f)) <= Error(r, f)
  {
    hide Error, CandidateScale, CandidateZero, Requantize, Mean;
    var g := RefitPass(r, f);
    FitDescends(r, f);
    var fitted := Fit(f.codes, g.scale, g.zero);
    assert f == Fit(f.codes, f.scale, f.zero);
    assert Error(r, fitted) <= Error(r, f);
    RequantizeIsCodes(r, g.scale, g.zero);
    RequantizeDescends(r, fitted);
  }

  function Refit(r: seq<real>, f: Fit, passes: nat): (g: Fit)
    requires |r| == |f.codes| > 0
    ensures |g.codes| == |r|
  {
    if passes == 0 then f else RefitPass(r, Refit(r, f, passes - 1))
  }

  /** More passes never do worse. */
  lemma {:induction false} RefitDescends(r: seq<real>, f: Fit, m: nat, n: nat)
    requires r != [] && Sound(r, f) && m <= n
    ensures Sound(r, Refit(r, f, n)) && Error(r, Refit(r, f, n)) <= Error(r, Refit(r, f, m))
    decreases n
  {
    hide Error, RefitPass, Codes;
    if n == 0 {
    } else if m < n {
      RefitDescends(r, f, m, n - 1);
      RefitPassDescends(r, Refit(r, f, n - 1));
    } else {
      RefitDescends(r, f, n - 1, n - 1);
      RefitPassDescends(r, Refit(r, f, n - 1));
    }
  }

  // ---------- exactly when the refit descends ----------

  function ZeroCodes(n: nat): (q: seq<int>)
    ensures |q| == n
  {
    seq(n, i => 0)
  }

  /** A rejected candidate beside a scale that is not positive: every code becomes 0. */
  lemma RejectedPass(r: seq<real>, f: Fit)
    requires |r| == |f.codes| > 0 && f.scale <= 0.0 && CandidateScale(r, AsReals(f.codes), f.scale) <= 0.0
    ensures RefitPass(r, f) == Fit(ZeroCodes(|r|), f.scale, f.zero)
  {
    hide CandidateScale, CandidateZero;
    forall i | 0 <= i < |r| ensures Code(r[i], f.scale, f.zero) == 0 {
      assert Position(r[i], f.scale, f.zero) == 0.0;
    }
    assert Requantize(r, f.scale, f.zero) == ZeroCodes(|r|);
  }

  ghost predicate AllZero(a: seq<real>) {
    forall i | 0 <= i < |a| :: a[i] == 0.0
  }

  lemma {:induction false} SumOfZeros(a: seq<real>)
    requires AllZero(a)
    ensures Sum(a) == 0.0
  {
    if a == [] {
    } else {
      SumOfZeros(a[..|a| - 1]);
    }
  }

  lemma ZeroMoments(r: seq<real>)
    ensures var q := AsReals(ZeroCodes(|r|)); Sum(q) == 0.0 && Sum(Times(q, r)) == 0.0 && Sum(Times(q, q)) == 0.0
  {
    var q := AsReals(ZeroCodes(|r|));
    SumOfZeros(q);
    SumOfZeros(Times(q, r));
    SumOfZeros(Times(q, q));
  }

  /** From then on nothing changes. */
  lemma ZeroCodesStay(r: seq<real>, scale: real, zero: real)
    requires r != [] && scale <= 0.0
    ensures var g := Fit(ZeroCodes(|r|), scale, zero); RefitPass(r, g) == g
  {
    hide Sum, RefitPass;
    ZeroMoments(r);
    RejectedPass(r, Fit(ZeroCodes(|r|), scale, zero));
  }

  lemma {:induction false} RefitRejected(r: seq<real>, f: Fit, n: nat)
    requires |r| == |f.codes| > 0 && f.scale <= 0.0 && CandidateScale(r, AsReals(f.codes), f.scale) <= 0.0 && n >= 1
    ensures Refit(r, f, n) == Fit(ZeroCodes(|r|), f.scale, f.zero)
  {
    hide CandidateScale, RefitPass;
    if n == 1 {
      assert Refit(r, f, 0) == f;
      RejectedPass(r, f);
    } else {
      RefitRejected(r, f, n - 1);
      ZeroCodesStay(r, f.scale, f.zero);
    }
  }

  /** Setting every code to 0 does not hurt, in terms of the moments of values and codes. */
  ghost predicate ZeroingHarmless(r: seq<real>, f: Fit)
    requires |r| == |f.codes|
  {
    var q := AsReals(f.codes);
    f.scale == 0.0 || f.scale * Sum(Times(q, q)) <= 2.0 * (Sum(Times(q, r)) - f.zero * Sum(q))
  }

  lemma QuadOfZeros(n: real, r1: real, q1: real, rr: real, qr: real, qq: real, s: real, z: real)
    requires s <= 0.0
    ensures Quad(n, r1, 0.0, rr, 0.0, 0.0, s, z) <= Quad(n, r1, q1, rr, qr, qq, s, z) <==>
              s == 0.0 || s * qq <= 2.0 * (qr - z * q1)
  {
    var gain := s * qq - 2.0 * (qr - z * q1);
    assert Quad(n, r1, q1, rr, qr, qq, s, z) - Quad(n, r1, 0.0, rr, 0.0, 0.0, s, z) == s * gain by {
      assert (s * s) * qq == s * (s * qq) && (s * z) * q1 == s * (z * q1);
      assert s * gain == s * (s * qq) - 2.0 * (s * qr) + 2.0 * (s * (z * q1));
    }
    SignOfProduct(s, gain);
  }

  lemma SignOfProduct(s: real, x: real)
    requires s <= 0.0
    ensures s * x >= 0.0 <==> s == 0.0 || x <= 0.0
  {
    assert x <= 0.0 ==> (-s) * (-x) >= 0.0;
    assert s < 0.0 && x > 0.0 ==> (-s) * x > 0.0;
  }

  lemma ZeroingHarmlessIff(r: seq<real>, f: Fit)
    requires |r| == |f.codes| && f.scale <= 0.0
    ensures Error(r, Fit(ZeroCodes(|r|), f.scale, f.zero)) <= Error(r, f) <==> ZeroingHarmless(r, f)
  {
    hide Error, Sum, Times, Quad;
    var q := AsReals(f.codes);
    ErrorIsQuad(r, f);
    ErrorIsQuad(r, Fit(ZeroCodes(|r|), f.scale, f.zero));
    ZeroMoments(r);
    QuadOfZeros(|r| as real, Sum(r), Sum(q), Sum(Times(r, r)), Sum(Times(q, r)), Sum(Times(q, q)), f.scale, f.zero);
  }

  /** A kept candidate makes the fit sound and no worse, whatever scale it replaces. */
  lemma KeptPass(r: seq<real>, f: Fit)
    requires |r| == |f.codes| > 0 && Codes(f.codes) && CandidateScale(r, AsReals(f.codes), f.scale) > 0.0
    ensures Sound(r, RefitPass(r, f)) && Error(r, RefitPass(r, f)) <= Error(r, f)
  {
    hide Error, CandidateScale, CandidateZero, Requantize, Mean;
    var g := RefitPass(r, f);
    FitDescends(r, f);
    RequantizeIsCodes(r, g.scale, g.zero);
    RequantizeDescends(r, Fit(f.codes, g.scale, g.zero));
  }

  lemma {:induction false} RefitAfterFirst(r: seq<real>, f: Fit, n: nat)
    requires |r| == |f.codes| > 0
    ensures Refit(r, f, n + 1) == Refit(r, RefitPass(r, f), n)
  {
    hide RefitPass;
    if n == 0 {
      assert Refit(r, f, 0) == f;
    } else {
      RefitAfterFirst(r, f, n - 1);
    }
  }

  lemma RefitKept(r: seq<real>, f: Fit, n: nat)
    requires |r| == |f.codes| > 0 && Codes(f.codes) && CandidateScale(r, AsReals(f.codes), f.scale) > 0.0 && n >= 1
    ensures Error(r, Refit(r, f, n)) <= Error(r, f)
  {
    hide Error, CandidateScale, RefitPass, Codes, Refit;
    var g := RefitPass(r, f);
    KeptPass(r, f);
    RefitAfterFirst(r, f, n - 1);
    RefitDescends(r, g, 0, n - 1);
    NoPasses(r, g);
  }

  /** The exact condition, for any number of passes: the given scale is positive, or the first candidate is, or setting
      every code to 0 does no harm. */
  ghost predicate Improvable(r: seq<real>, f: Fit)
    requires |r| == |f.codes| > 0
  {
    f.scale > 0.0 || CandidateScale(r, AsReals(f.codes), f.scale) > 0.0 || ZeroingHarmless(r, f)
  }

  /** The refit never does worse than the fit it was given exactly under that condition. */
  lemma RefitDescendsIff(r: seq<real>, f: Fit, n: nat)
    requires |r| == |f.codes| > 0 && Codes(f.codes) && n >= 1
    ensures Error(r, Refit(r, f, n)) <= Error(r, f) <==> Improvable(r, f)
  {
    hide Error, CandidateScale, Refit, Codes, ZeroingHarmless;
    if f.scale > 0.0 {
      RefitDescends(r, f, 0, n);
      NoPasses(r, f);
    } else if CandidateScale(r, AsReals(f.codes), f.scale) > 0.0 {
      RefitKept(r, f, n);
    } else {
      RefitRejected(r, f, n);
      ZeroingHarmlessIff(r, f);
    }
  }

  // ---------- the refit finds the least squares ----------

  ghost function Variance(q: seq<real>): real
    requires q != []
  {
    Mean(Times(q, q)) - Mean(q) * Mean(q)
  }

  ghost function Covariance(q: seq<real>, r: seq<real>): real
    requires |q| == |r| > 0
  {
    Mean(Times(q, r)) - Mean(q) * Mean(r)
  }

  /** For these codes no scale and zero fit better. */
  ghost predicate BestFor(r: seq<real>, q: seq<int>, scale: real, zero: real)
    requires |r| == |q|
  {
    forall s: real, z: real :: Error(r, Fit(q, scale, zero)) <= Error(r, Fit(q, s, z))
  }

  /** For these codes and this scale no zero fits better. */
  ghost predicate BestZeroFor(r: seq<real>, q: seq<int>, scale: real, zero: real)
    requires |r| == |q|
  {
    forall z: real :: Error(r, Fit(q, scale, zero)) <= Error(r, Fit(q, scale, z))
  }

  /** For this scale and zero no codes fit better. */
  ghost predicate BestCodes(r: seq<real>, f: Fit)
    requires |r| == |f.codes|
  {
    forall q: seq<int> | |q| == |r| && Codes(q) :: Error(r, f) <= Error(r, Fit(q, f.scale, f.zero))
  }

  /** What one pass makes of a fit, said without its formulas: scale and zero are the least-squares ones for the codes it
      was given, if these vary and rise with the values; else scale and zero stay, except that the zero of a positive scale
      becomes the best one where the codes do not vary.  Then the codes are the best ones, or all 0 under a scale that is
      not positive. */
  ghost predicate OnePass(r: seq<real>, f: Fit, g: Fit)
    requires |r| == |f.codes| > 0
  {
    var q := AsReals(f.codes);
    && |g.codes| == |r| && Codes(g.codes)
    && (if Variance(q) > 0.000000000001 && Covariance(q, r) > 0.0 then g.scale > 0.0 && BestFor(r, f.codes, g.scale, g.zero)
        else if Variance(q) <= 0.000000000001 && f.scale > 0.0 then g.scale == f.scale && BestZeroFor(r, f.codes, g.scale, g.zero)
        else g.scale == f.scale && g.zero == f.zero)
    && (if g.scale > 0.0 then BestCodes(r, g) else forall i | 0 <= i < |r| :: g.codes[i] == 0)
  }

  lemma QuotientSign(c: real, v: real)
    requires v > 0.0
    ensures c / v > 0.0 <==> c > 0.0
  {
    var x := c / v;
    assert x * v == c;
    assert x <= 0.0 ==> (-x) * v >= 0.0;
    assert x > 0.0 ==> x * v > 0.0;
  }

  /** When the candidate is positive. */
  lemma CandidateSign(r: seq<real>, q: seq<real>, scale: real)
    requires |r| == |q| > 0
    ensures Variance(q) > VAR_FLOOR ==> (CandidateScale(r, q, scale) > 0.0 <==> Covariance(q, r) > 0.0)
    ensures Variance(q) <= VAR_FLOOR ==> CandidateScale(r, q, scale) == scale
  {
    hide Mean;
    if Variance(q) > VAR_FLOOR {
      QuotientSign(Covariance(q, r), Variance(q));
    }
  }

  /** Codes that vary: the candidate fits best of all. */
  lemma CandidateIsBest(r: seq<real>, f: Fit)
    requires |r| == |f.codes| > 0 && Variance(AsReals(f.codes)) > VAR_FLOOR
    ensures var q := AsReals(f.codes);
            var cand := CandidateScale(r, q, f.scale);
            BestFor(r, f.codes, cand, CandidateZero(r, q, cand))
  {
    hide Error, Mean, CandidateZero;
    var q := AsReals(f.codes);
    var cand := CandidateScale(r, q, f.scale);
    forall s: real, z: real ensures Error(r, Fit(f.codes, cand, CandidateZero(r, q, cand))) <= Error(r, Fit(f.codes, s, z)) {
      assert CandidateScale(r, q, s) == cand;
      FitDescends(r, Fit(f.codes, s, z));
    }
  }

  /** Codes that do not vary: the scale stays and the zero is the best for it. */
  lemma CandidateZeroIsBest(r: seq<real>, f: Fit)
    requires |r| == |f.codes| > 0 && Variance(AsReals(f.codes)) <= VAR_FLOOR
    ensures BestZeroFor(r, f.codes, f.scale, CandidateZero(r, AsReals(f.codes), f.scale))
  {
    hide Error, Mean, CandidateZero;
    var q := AsReals(f.codes);
    forall z: real ensures Error(r, Fit(f.codes, f.scale, CandidateZero(r, q, f.scale))) <= Error(r, Fit(f.codes, f.scale, z)) {
      assert CandidateScale(r, q, f.scale) == f.scale;
      FitDescends(r, Fit(f.codes, f.scale, z));
    }
  }

  lemma RequantizeIsBest(r: seq<real>, scale: real, zero: real)
    requires scale > 0.0
    ensures BestCodes(r, Fit(Requantize(r, scale, zero), scale, zero))
  {
    hide Error, Codes, Requantize;
    forall q: seq<int> | |q| == |r| && Codes(q)
      ensures Error(r, Fit(Requantize(r, scale, zero), scale, zero)) <= Error(r, Fit(q, scale, zero))
    {
      RequantizeDescends(r, Fit(q, scale, zero));
    }
  }

  lemma RequantizeToZeros(r: seq<real>, scale: real, zero: real)
    requires scale <= 0.0
    ensures forall i | 0 <= i < |r| :: Requantize(r, scale, zero)[i] == 0
  {
    forall i | 0 <= i < |r| ensures Code(r[i], scale, zero) == 0 {
      assert Position(r[i], scale, zero) == 0.0;
    }
  }

  /** A pass is what it should be. */
  lemma PassIsLeastSquares(r: seq<real>, f: Fit)
    requires |r| == |f.codes| > 0
    ensures OnePass(r, f, RefitPass(r, f))
  {
    hide Error, CandidateScale, CandidateZero, Requantize, Variance, Covariance, BestFor, BestZeroFor, BestCodes, Codes;
    var q, g := AsReals(f.codes), RefitPass(r, f);
    CandidateSign(r, q, f.scale);
    RequantizeIsCodes(r, g.scale, g.zero);
    if Variance(q) > VAR_FLOOR {
      CandidateIsBest(r, f);
    } else {
      CandidateZeroIsBest(r, f);
    }
    if g.scale > 0.0 {
      RequantizeIsBest(r, g.scale, g.zero);
    } else {
      RequantizeToZeros(r, g.scale, g.zero);
    }
  }

  /** If the given codes vary and rise with the values, the refit beats every affine map on them. */
  lemma RefitBeatsEveryMap(r: seq<real>, f: Fit, n: nat, s: real, z: real)
    requires |r| == |f.codes| > 0 && Codes(f.codes) && n >= 1
    requires Variance(AsReals(f.codes)) > VAR_FLOOR && Covariance(AsReals(f.codes), r) > 0.0
    ensures Error(r, Refit(r, f, n)) <= Error(r, Fit(f.codes, s, z))
  {
    hide Error, CandidateScale, RefitPass, Codes, Refit, Variance, Covariance, BestCodes;
    var g := RefitPass(r, f);
    PassIsLeastSquares(r, f);
    BestCodesAre(r, g, f.codes);
    assert Error(r, Fit(f.codes, g.scale, g.zero)) <= Error(r, Fit(f.codes, s, z));
    RefitAfterFirst(r, f, n - 1);
    RefitDescends(r, g, 0, n - 1);
    NoPasses(r, g);
  }

  lemma BestCodesAre(r: seq<real>, f: Fit, q: seq<int>)
    requires |r| == |f.codes| == |q| && BestCodes(r, f) && Codes(q)
    ensures Error(r, f) <= Error(r, Fit(q, f.scale, f.zero))
  {
  }

  /** `mq4_affine_ls_refit_numpy` on one block: at least one pass, each of which finds the least squares and then the best
      codes; for proper codes a fit no worse than the given one exactly under the condition above, and no worse than any
      affine map on codes that vary and rise with the values. */
  method LsRefit(r: seq<real>, f: Fit, iters: int) returns (best: Fit)
    requires |r| == |f.codes| > 0
    ensures var passes := if iters > 1 then iters else 1;
            && Refit(r, f, 0) == f && best == Refit(r, f, passes)
            && forall k: nat | k < passes :: OnePass(r, Refit(r, f, k), Refit(r, f, k + 1))
    ensures Codes(f.codes) ==> (Error(r, best) <= Error(r, f) <==> Improvable(r, f))
    ensures Codes(f.codes) && f.scale > 0.0 ==> Sound(r, best)
    ensures Codes(f.codes) && Variance(AsReals(f.codes)) > 0.000000000001 && Covariance(AsReals(f.codes), r) > 0.0 ==>
              forall s: real, z: real :: Error(r, best) <= Error(r, Fit(f.codes, s, z))
  {
    hide Error, RefitPass, Codes, Improvable, Variance, Covariance, OnePass;
    best := f;
    var passes := if iters > 1 then iters else 1;
    for k := 0 to passes
      invariant best == Refit(r, f, k)
      invariant forall j: nat | j < k :: OnePass(r, Refit(r, f, j), Refit(r, f, j + 1))
    {
      PassIsLeastSquares(r, best);
      best := RefitPass(r, best);
    }
    if Codes(f.codes) {
      RefitDescendsIff(r, f, passes);
      if f.scale > 0.0 {
        RefitDescends(r, f, 0, passes);
      }
      if Variance(AsReals(f.codes)) > VAR_FLOOR && Covariance(AsReals(f.codes), r) > 0.0 {
        forall s: real, z: real ensures Error(r, best) <= Error(r, Fit(f.codes, s, z)) {
          RefitBeatsEveryMap(r, f, passes, s, z);
        }
      }
    }
  }

  /** The condition can fail: here a perfect fit with a negative scale is destroyed, because the candidate is rejected and
      every code becomes 0; and no further pass repairs it. */
  lemma NegativeScaleLosesTheFit(n: nat)
    requires n >= 1
    ensures var r, f := [0.0, -1.0], Fit([0, 1], -1.0, 0.0);
            Codes(f.codes) && Error(r, f) == 0.0 && Error(r, Refit(r, f, n)) == 1.0 && !Improvable(r, f)
  {
    hide Error, CandidateScale, Refit, Improvable;
    var r, f := [0.0, -1.0], Fit([0, 1], -1.0, 0.0);
    ErrorOfTwo(r, f);
    assert AsReals(f.codes) == [0.0, 1.0];
    CandidateOfTwo(0.0, -1.0, -1.0);
    RefitRejected(r, f, n);
    ErrorOfTwo(r, Fit(ZeroCodes(2), -1.0, 0.0));
    RefitDescendsIff(r, f, n);
  }

  /** Codes 0 and 1: the candidate is the difference of the two values. */
  lemma CandidateOfTwo(a: real, b: real, scale: real)
    ensures CandidateScale([a, b], [0.0, 1.0], scale) == b - a
  {
    hide Sum;
    var r, q := [a, b], [0.0, 1.0];
    assert Times(q, q) == [0.0, 1.0] && Times(q, r) == [0.0, b];
    SumOfTwo(q);
    SumOfTwo(r);
    SumOfTwo(Times(q, r));
    var meanQ, meanR := Mean(q), Mean(r);
    assert meanQ == 0.5 && meanR == (a + b) / 2.0;
    assert Mean(Times(q, q)) == 0.5 && Mean(Times(q, r)) == b / 2.0;
    assert meanQ * meanR == (a + b) / 4.0;
  }

  lemma SumOfTwo(a: seq<real>)
    requires |a| == 2
    ensures Sum(a) == a[0] + a[1]
  {
    assert Sum(a[..1][..0]) == 0.0;
    assert Sum(a[..1]) == a[0];
  }

  lemma ErrorOfTwo(r: seq<real>, f: Fit)
    requires |r| == |f.codes| == 2
    ensures Error(r, f) == Square(r[0] - Value(f.codes[0], f.scale, f.zero)) + Square(r[1] - Value(f.codes[1], f.scale, f.zero))
  {
    hide Square, Value;
    var f1 := f.(codes := f.codes[..1]);
    var f0 := f1.(codes := f1.codes[..0]);
    assert Error(r[..1][..0], f0) == 0.0;
    assert Error(r[..1], f1) == Square(r[0] - Value(f.codes[0], f.scale, f.zero));
  }

  // ---------- min/max quantisation ----------

  function Least(a: seq<real>): (m: real)
    requires a != []
    ensures m in a && forall i | 0 <= i < |a| :: m <= a[i]
  {
    var n := |a| - 1;
    if n == 0 then a[0]
    else var m := Least(a[..n]); if a[n] < m then a[n] else m
  }

  function Greatest(a: seq<real>): (m: real)
    requires a != []
    ensures m in a && forall i | 0 <= i < |a| :: a[i] <= m
  {
    var n := |a| - 1;
    if n == 0 then a[0]
    else var m := Greatest(a[..n]); if a[n] > m then a[n] else m
  }

  function Span(r: seq<real>): real
    requires r != []
  {
    Greatest(r) - Least(r)
  }

  function Step(span: real): real {
    if span > 0.0 then span / 15.0 else 1.0
  }

  function MinMaxPosition(v: real, low: real, span: real): real {
    var inverse := if span > 0.0 then 1.0 / Step(span) else 0.0;
    (v - low) * inverse
  }

  function MinMaxCode(v: real, low: real, span: real): int {
    Clip15((MinMaxPosition(v, low, span) + 0.5).Floor)
  }

  lemma MinMaxPositionIsPosition(v: real, low: real, span: real)
    requires low <= v <= low + span
    ensures Step(span) > 0.0 && MinMaxPosition(v, low, span) == Position(v, Step(span), low)
  {
    if span > 0.0 {
      assert Inverse(Step(span)) == 1.0 / Step(span);
    } else {
      assert v - low == 0.0;
    }
  }

  /** The min/max fit of a rotated block, as `mq4_quantized_rotated_blocks_numpy` computes it. */
  function MinMaxFit(r: seq<real>): (f: Fit)
    requires r != []
    ensures |f.codes| == |r|
  {
    Fit(seq(|r|, i requires 0 <= i < |r| => MinMaxCode(r[i], Least(r), Span(r))), Step(Span(r)), Least(r))
  }

  lemma MinMaxCodeIsNearest(v: real, low: real, span: real)
    requires low <= v <= low + span
    ensures Step(span) > 0.0 && MinMaxCode(v, low, span) == Code(v, Step(span), low)
  {
    MinMaxPositionIsPosition(v, low, span);
    hide Position, MinMaxPosition;
  }

  /** The min/max codes are the nearest codes of the min/max map, also when the block is constant. */
  lemma MinMaxIsRequantize(r: seq<real>)
    requires r != []
    ensures var f := MinMaxFit(r); f.scale > 0.0 && f.codes == Requantize(r, f.scale, f.zero)
  {
    hide MinMaxCode, Code, Step, Least, Greatest;
    var f := MinMaxFit(r);
    forall i | 0 <= i < |r| ensures f.scale > 0.0 && f.codes[i] == Code(r[i], f.scale, f.zero) {
      MinMaxCodeIsNearest(r[i], Least(r), Span(r));
    }
    assert f.codes[0] == Code(r[0], f.scale, f.zero);
  }

  lemma MinMaxSound(r: seq<real>)
    requires r != []
    ensures Sound(r, MinMaxFit(r))
  {
    hide Code;
    MinMaxIsRequantize(r);
    var f := MinMaxFit(r);
    RequantizeIsCodes(r, f.scale, f.zero);
  }

  /** Inside the span a value is at most half a step from its code. */
  lemma HalfStep(t: real)
    requires 0.0 <= t <= 15.0
    ensures NoFurther(t - Clip15((t + 0.5).Floor) as real, 0.5)
  {
  }

  lemma PositionInRange(v: real, low: real, span: real, scale: real)
    requires span > 0.0 && scale == span / 15.0 && low <= v <= low + span
    ensures 0.0 <= Position(v, scale, low) <= 15.0
  {
    var inv := 1.0 / scale;
    assert scale * inv == 1.0;
    assert span * inv == 15.0 by { assert span == 15.0 * scale; }
    NonNegProduct(v - low, inv);
    NonNegProduct(low + span - v, inv);
    assert (low + span - v) * inv == span * inv - (v - low) * inv;
  }

  /** Each value of a block with positive span is reproduced within span/30. */
  lemma ValueWithinStep(v: real, low: real, span: real, scale: real)
    requires span > 0.0 && scale == span / 15.0 && low <= v <= low + span
    ensures Square(v - Value(Code(v, scale, low), scale, low)) <= Square(span / 30.0)
  {
    hide Position, Value, Square, NoFurther;
    var t, k := Position(v, scale, low), Code(v, scale, low);
    PositionInRange(v, low, span, scale);
    HalfStep(t);
    Residual(v, scale, low, k);
    SquaresFollow(scale, t - k as real, 0.5, v - Value(k, scale, low), span / 30.0);
  }

  lemma {:induction false} ErrorBound(r: seq<real>, f: Fit, bound: real)
    requires |r| == |f.codes|
    requires forall i | 0 <= i < |r| :: Square(r[i] - Value(f.codes[i], f.scale, f.zero)) <= bound
    ensures Error(r, f) <= |r| as real * bound
    decreases |r|
  {
    hide Square, Value;
    if r == [] {
    } else {
      var n := |r| - 1;
      ErrorBound(r[..n], f.(codes := f.codes[..n]), bound);
      assert |r| as real * bound == n as real * bound + bound;
    }
  }

  /** A min/max block of n values has squared error at most n * (span/30)^2; a constant block has none. */
  lemma MinMaxBound(r: seq<real>)
    requires r != []
    ensures Error(r, MinMaxFit(r)) <= |r| as real * Square(Span(r) / 30.0)
    ensures Span(r) == 0.0 ==> Error(r, MinMaxFit(r)) <= 0.0
  {
    hide Error, Square, Value, MinMaxCode, Least, Greatest, Span, Step;
    var f := MinMaxFit(r);
    forall i | 0 <= i < |r| ensures Square(r[i] - Value(f.codes[i], f.scale, f.zero)) <= Square(Span(r) / 30.0) {
      SpanCovers(r, i);
      BlockValueWithinStep(r[i], Least(r), Span(r));
    }
    ErrorBound(r, f, Square(Span(r) / 30.0));
    if Span(r) == 0.0 {
      ZeroBound(|r| as real);
    }
  }

  lemma SpanCovers(r: seq<real>, i: nat)
    requires i < |r|
    ensures Least(r) <= r[i] <= Least(r) + Span(r)
  {
    hide Least, Greatest;
  }

  lemma BlockValueWithinStep(v: real, low: real, span: real)
    requires low <= v <= low + span
    ensures Square(v - Value(MinMaxCode(v, low, span), Step(span), low)) <= Square(span / 30.0)
  {
    if span > 0.0 {
      hide Square, Value, Code, MinMaxCode;
      MinMaxCodeIsNearest(v, low, span);
      ValueWithinStep(v, low, span, Step(span));
    }
  }

  lemma ZeroBound(n: real)
    ensures n * Square(0.0 / 30.0) == 0.0
  {
  }

  /** The least value has code 0 and the greatest code 15; the map sends them back to themselves. */
  lemma MinMaxEndpoints(r: seq<real>)
    requires r != []
    ensures var f := MinMaxFit(r);
            && f.zero in r && (forall i | 0 <= i < |r| :: f.zero <= r[i])
            && (Span(r) == 0.0 ==> f.scale == 1.0)
            && (Span(r) > 0.0 ==> f.zero + 15.0 * f.scale in r && forall i | 0 <= i < |r| :: r[i] <= f.zero + 15.0 * f.scale)
            && (forall i | 0 <= i < |r| && r[i] == f.zero :: f.codes[i] == 0)
            && (Span(r) > 0.0 ==> forall i | 0 <= i < |r| && r[i] == f.zero + 15.0 * f.scale :: f.codes[i] == 15)
  {
    hide Least, Greatest;
    var low, span := Least(r), Span(r);
    forall i | 0 <= i < |r| && r[i] == low ensures MinMaxCode(r[i], low, span) == 0 {
      assert MinMaxPosition(low, low, span) == 0.0;
    }
    if span > 0.0 {
      var step := Step(span);
      forall i | 0 <= i < |r| && r[i] == low + 15.0 * step ensures MinMaxCode(r[i], low, span) == 15 {
        assert (15.0 * step) * (1.0 / step) == 15.0;
      }
    }
  }

  // ---------- codes of a block vary and rise with its values ----------

  lemma {:induction false} ErrorNonNegative(r: seq<real>, f: Fit)
    requires |r| == |f.codes|
    ensures Error(r, f) >= 0.0
    decreases |r|
  {
    if r == [] {
    } else {
      ErrorNonNegative(r[..|r| - 1], f.(codes := f.codes[..|r| - 1]));
    }
  }

  ghost function Off(r: seq<real>, f: Fit, i: nat): real
    requires i < |r| == |f.codes|
  {
    Square(r[i] - Value(f.codes[i], f.scale, f.zero))
  }

  lemma SquareNonNegative(x: real)
    ensures Square(x) >= 0.0
  {
  }

  lemma {:induction false} ErrorAtLeast(r: seq<real>, f: Fit, i: nat)
    requires i < |r| == |f.codes|
    ensures Off(r, f, i) <= Error(r, f)
    decreases |r|
  {
    hide Square, Value;
    var n := |r| - 1;
    var g := f.(codes := f.codes[..n]);
    if i == n {
      ErrorNonNegative(r[..n], g);
    } else {
      ErrorAtLeast(r[..n], g, i);
      SquareNonNegative(r[n] - Value(f.codes[n], f.scale, f.zero));
    }
  }

  lemma {:induction false} ErrorAtLeastTwo(r: seq<real>, f: Fit, i: nat, j: nat)
    requires i < j < |r| == |f.codes|
    ensures Off(r, f, i) + Off(r, f, j) <= Error(r, f)
    decreases |r|
  {
    hide Square, Value;
    var n := |r| - 1;
    var g := f.(codes := f.codes[..n]);
    if j == n {
      ErrorAtLeast(r[..n], g, i);
    } else {
      ErrorAtLeastTwo(r[..n], g, i, j);
      SquareNonNegative(r[n] - Value(f.codes[n], f.scale, f.zero));
    }
  }

  /** Two values apart are not both close to one number. */
  lemma TwoApart(x: real, y: real, m: real)
    ensures Square(x - y) <= 2.0 * (Square(x - m) + Square(y - m))
  {
    var a, b := x - m, y - m;
    assert (a - b) * (a - b) + (a + b) * (a + b) == 2.0 * (a * a + b * b);
    SquareNonNegative(a + b);
  }

  /** The variance times the length is the error of the mean alone. */
  lemma VarianceIsError(a: seq<real>)
    requires a != []
    ensures |a| as real * Variance(a) == Error(a, Fit(ZeroCodes(|a|), 0.0, Mean(a)))
  {
    hide Error, Mean, Times;
    var q, m := AsReals(ZeroCodes(|a|)), Mean(a);
    ErrorIsQuad(a, Fit(ZeroCodes(|a|), 0.0, m));
    BlockByMeans(a, q, 0.0, m);
    FlatQuad(m, Mean(q), Mean(Times(a, a)), Mean(Times(q, a)), Mean(Times(q, q)));
  }

  lemma FlatQuad(m: real, mq: real, rr: real, qr: real, qq: real)
    ensures MeanQuad(m, mq, rr, qr, qq, 0.0, m) == rr - m * m
  {
  }

  lemma VarianceAtLeast(a: seq<real>, i: nat, j: nat)
    requires i < j < |a|
    ensures Square(a[i] - a[j]) <= 2.0 * (|a| as real * Variance(a))
  {
    hide Error, Mean, Square, Variance;
    var f := Fit(ZeroCodes(|a|), 0.0, Mean(a));
    VarianceIsError(a);
    ErrorAtLeastTwo(a, f, i, j);
    TwoApart(a[i], a[j], Mean(a));
  }

  lemma VarianceNonNegative(a: seq<real>)
    requires a != []
    ensures |a| as real * Variance(a) >= 0.0
  {
    hide Error, Mean, Variance;
    VarianceIsError(a);
    ErrorNonNegative(a, Fit(ZeroCodes(|a|), 0.0, Mean(a)));
  }

  lemma RisingParabola(base: real, v: real, c: real, s: real)
    requires s > 0.0 && v >= 0.0 && c <= 0.0
    ensures base <= base + (s * s) * v - 2.0 * (s * c)
  {
    NonNegProduct(s * s, v);
    NonNegProduct(s, -c);
    assert s * (-c) == -(s * c);
  }

  lemma FallingQuad(mr: real, mq: real, rr: real, qr: real, qq: real, s: real, z: real)
    requires s > 0.0 && qq - mq * mq >= 0.0 && qr - mq * mr <= 0.0
    ensures rr - mr * mr <= MeanQuad(mr, mq, rr, qr, qq, s, z)
  {
    hide MeanQuad;
    var v, c, z0 := qq - mq * mq, qr - mq * mr, mr - s * mq;
    BestZero(mr, mq, rr, qr, qq, s, z, z0);
    Parabola(mr, mq, rr, qr, qq, s, z0, v, c);
    RisingParabola(rr - mr * mr, v, c, s);
  }

  /** Codes that do not rise with the values fit no better, under a positive scale, than the mean alone. */
  lemma FallingCodesFitBadly(r: seq<real>, f: Fit)
    requires |r| == |f.codes| > 0 && f.scale > 0.0 && Covariance(AsReals(f.codes), r) <= 0.0
    ensures |r| as real * Variance(r) <= Error(r, f)
  {
    hide Error, BlockMeanQuad, BlockQuad, Variance, Covariance;
    var q := AsReals(f.codes);
    ErrorIsQuad(r, f);
    BlockByMeans(r, q, f.scale, f.zero);
    VarianceNonNegative(q);
    NonNegFactor(|q| as real, Variance(q));
    FallingBlock(r, q, f.scale, f.zero);
    ScaleLe(|r| as real, Variance(r), BlockMeanQuad(r, q, f.scale, f.zero));
  }

  lemma FallingBlock(r: seq<real>, q: seq<real>, s: real, z: real)
    requires |r| == |q| > 0 && s > 0.0 && Variance(q) >= 0.0 && Covariance(q, r) <= 0.0
    ensures Variance(r) <= BlockMeanQuad(r, q, s, z)
  {
    hide Mean, Times, MeanQuad;
    FallingQuad(Mean(r), Mean(q), Mean(Times(r, r)), Mean(Times(q, r)), Mean(Times(q, q)), s, z);
  }

  lemma SquarePositive(x: real)
    requires x > 0.0
    ensures Square(x) > 0.0
  {
    var h := 1.0 / x;
    assert h * x == 1.0;
    assert h * (x * x) == (h * x) * x == x;
    PositiveFactor(h, x * x);
  }

  lemma PositiveFactor(n: real, v: real)
    requires n > 0.0 && n * v > 0.0
    ensures v > 0.0
  {
    assert v <= 0.0 ==> n * (-v) >= 0.0;
  }

  lemma NonNegFactor(n: real, v: real)
    requires n > 0.0 && n * v >= 0.0
    ensures v >= 0.0
  {
    assert v < 0.0 ==> n * (-v) > 0.0;
  }

  /** The codes of a block that is not constant vary and rise with its values. */
  lemma BlockIsFittable(r: seq<real>)
    requires |r| == 256 && Span(r) > 0.0
    ensures var q := AsReals(MinMaxFit(r).codes); Variance(q) > VAR_FLOOR && Covariance(q, r) > 0.0
  {
    hide Error, Mean, Least, Greatest, MinMaxCode, Variance, Covariance, Step, Square;
    var f := MinMaxFit(r);
    var q := AsReals(f.codes);
    MinMaxEndpoints(r);
    var i :| 0 <= i < |r| && r[i] == f.zero;
    var j :| 0 <= j < |r| && r[j] == f.zero + 15.0 * f.scale;
    SpanByScale(r);
    if i < j {
      VarianceAtLeast(q, i, j);
      VarianceAtLeast(r, i, j);
    } else {
      VarianceAtLeast(q, j, i);
      VarianceAtLeast(r, j, i);
    }
    SquareOfDifference(q[i], q[j]);
    SquareOfDifference(r[i], r[j]);
    FifteenSquared(q[j] - q[i]);
    assert |q| as real == 256.0;
    MinMaxBound(r);
    if Covariance(q, r) <= 0.0 {
      FallingCodesFitBadly(r, f);
      BoundsClash(Span(r));
      assert false;
    }
  }

  lemma SpanByScale(r: seq<real>)
    requires r != [] && Span(r) > 0.0
    ensures 15.0 * MinMaxFit(r).scale == Span(r) && MinMaxFit(r).scale > 0.0
  {
    hide Least, Greatest, MinMaxCode;
  }

  lemma SquareOfDifference(x: real, y: real)
    ensures Square(x - y) == Square(y - x)
  {
  }

  lemma FifteenSquared(x: real)
    requires x == 15.0
    ensures Square(x) == 225.0
  {
  }

  lemma SquareOfMultiple(k: real, x: real, y: real)
    requires y == k * x
    ensures Square(y) == (k * k) * Square(x)
  {
    assert (k * x) * (k * x) == (k * k) * (x * x);
  }

  lemma BoundsClash(span: real)
    requires span > 0.0
    ensures 2.0 * (256.0 * Square(span / 30.0)) < Square(span)
  {
    hide Square;
    var x := span / 30.0;
    SquarePositive(x);
    SquareOfMultiple(30.0, x, span);
    assert 30.0 * 30.0 == 900.0;
  }

  // ---------- a whole block ----------

  /** The two fit modes at clip ratio 1. */
  datatype Mode = MinMax | Ls(iters: int)

  function FitBlock(rotated: seq<real>, mode: Mode): (f: Fit)
    requires rotated != []
    ensures |f.codes| == |rotated|
  {
    match mode
    case MinMax => MinMaxFit(rotated)
    case Ls(iters) => Refit(rotated, MinMaxFit(rotated), if iters > 1 then iters else 1)
  }

  /** `dequantize_mq4g256_from_values_numpy` on one block: rotate, fit, decode, rotate back. */
  ghost function RoundTrip(w: seq<real>, signs1: seq<real>, signs2: seq<real>, mode: Mode): (r: seq<real>)
    requires |w| == |signs1| == |signs2| == 256
    ensures |r| == 256
  {
    Rotate(Dequantize(FitBlock(Rotate(w, signs1, signs2), mode)), signs2, signs1)
  }

  /** The error in the weight domain is the error of the fit in the rotated domain. */
  lemma WeightErrorIsRotatedError(w: seq<real>, signs1: seq<real>, signs2: seq<real>, mode: Mode)
    requires |w| == 256 && Signs(signs1) && Signs(signs2)
    ensures var rotated := Rotate(w, signs1, signs2);
            SumSq(Sub(w, RoundTrip(w, signs1, signs2, mode))) == Error(rotated, FitBlock(rotated, mode))
  {
    hide Rotate, SumSq, Error, FitBlock, Dequantize, Sub, Signs;
    SignsLength(signs1);
    SignsLength(signs2);
    var rotated := Rotate(w, signs1, signs2);
    var decoded := Dequantize(FitBlock(rotated, mode));
    InverseUndoes(w, signs1, signs2);
    RotateSub(rotated, decoded, signs2, signs1);
    RotationKeepsSumSq(Sub(rotated, decoded), signs2, signs1);
    ErrorIsSumSq(rotated, FitBlock(rotated, mode));
  }

  lemma SignsLength(s: seq<real>)
    requires Signs(s)
    ensures |s| == 256
  {
  }

  /** The end-to-end bound of a min/max block. */
  lemma EndToEndBound(w: seq<real>, signs1: seq<real>, signs2: seq<real>)
    requires |w| == 256 && Signs(signs1) && Signs(signs2)
    ensures var error, span := SumSq(Sub(w, RoundTrip(w, signs1, signs2, MinMax))), Span(Rotate(w, signs1, signs2));
            && error <= 256.0 * Square(span / 30.0)
            && (span == 0.0 ==> error == 0.0)
  {
    hide Rotate, SumSq, Error, RoundTrip, Sub, Span, Square;
    SumSqNonNegative(Sub(w, RoundTrip(w, signs1, signs2, MinMax)));
    WeightErrorIsRotatedError(w, signs1, signs2, MinMax);
    MinMaxBound(Rotate(w, signs1, signs2));
  }

  /** The least-squares fit of a block is never worse than the min/max fit, in the weight domain. */
  lemma LsNeverWorse(w: seq<real>, signs1: seq<real>, signs2: seq<real>, iters: int)
    requires |w| == 256 && Signs(signs1) && Signs(signs2)
    ensures SumSq(Sub(w, RoundTrip(w, signs1, signs2, Ls(iters))))
         <= SumSq(Sub(w, RoundTrip(w, signs1, signs2, MinMax)))
  {
    hide Rotate, SumSq, Error, RoundTrip, Sub, Refit, MinMaxFit, Sound;
    var rotated := Rotate(w, signs1, signs2);
    WeightErrorIsRotatedError(w, signs1, signs2, MinMax);
    WeightErrorIsRotatedError(w, signs1, signs2, Ls(iters));
    MinMaxSound(rotated);
    RefitDescends(rotated, MinMaxFit(rotated), 0, if iters > 1 then iters else 1);
    NoPasses(rotated, MinMaxFit(rotated));
  }

  /** What comes back is, rotated, the decoded fit. */
  lemma RoundTripIsDecodedFit(w: seq<real>, signs1: seq<real>, signs2: seq<real>, mode: Mode)
    requires |w| == 256 && Signs(signs1) && Signs(signs2)
    ensures Rotate(RoundTrip(w, signs1, signs2, mode), signs1, signs2) == Dequantize(FitBlock(Rotate(w, signs1, signs2), mode))
  {
    hide Rotate, FitBlock, Dequantize, Signs;
    SignsLength(signs1);
    SignsLength(signs2);
    InverseUndoes(Dequantize(FitBlock(Rotate(w, signs1, signs2), mode)), signs2, signs1);
  }

  /** The least-squares round trip beats every affine map on the min/max codes, for every block and number of passes. */
  lemma LsBeatsEveryMap(w: seq<real>, signs1: seq<real>, signs2: seq<real>, iters: int, s: real, z: real)
    requires |w| == 256 && Signs(signs1) && Signs(signs2)
    ensures var rotated := Rotate(w, signs1, signs2);
            SumSq(Sub(w, RoundTrip(w, signs1, signs2, Ls(iters)))) <= Error(rotated, Fit(MinMaxFit(rotated).codes, s, z))
  {
    hide Rotate, SumSq, Error, RoundTrip, Sub, Refit, Sound, Variance, Covariance, MinMaxFit, Span;
    var rotated := Rotate(w, signs1, signs2);
    var f := MinMaxFit(rotated);
    WeightErrorIsRotatedError(w, signs1, signs2, Ls(iters));
    MinMaxSound(rotated);
    SoundCodes(rotated, f);
    SpanNonNegative(rotated);
    if Span(rotated) > 0.0 {
      BlockIsFittable(rotated);
      RefitBeatsEveryMap(rotated, f, if iters > 1 then iters else 1, s, z);
    } else {
      MinMaxBound(rotated);
      RefitDescends(rotated, f, 0, if iters > 1 then iters else 1);
      NoPasses(rotated, f);
      ErrorNonNegative(rotated, Fit(f.codes, s, z));
    }
  }

  lemma SoundCodes(r: seq<real>, f: Fit)
    requires Sound(r, f)
    ensures |r| == |f.codes| && Codes(f.codes)
  {
  }

  lemma SpanNonNegative(r: seq<real>)
    requires r != []
    ensures Span(r) >= 0.0
  {
    hide Least, Greatest;
    assert Least(r) <= r[0] <= Greatest(r);
  }

  lemma NoPasses(r: seq<real>, f: Fit)
    requires |r| == |f.codes| > 0
    ensures Refit(r, f, 0) == f
  {
  }

  /** Total squared error of the sampled blocks under one mode. */
  ghost function TotalError(blocks: seq<seq<real>>, signs1: seq<real>, signs2: seq<real>, mode: Mode): real
    requires |signs1| == |signs2| == 256 && forall i | 0 <= i < |blocks| :: |blocks[i]| == 256
  {
    if blocks == [] then 0.0
    else
      var n := |blocks| - 1;
      TotalError(blocks[..n], signs1, signs2, mode) + SumSq(Sub(blocks[n], RoundTrip(blocks[n], signs1, signs2, mode)))
  }

  lemma SumSqNonNegative(a: seq<real>)
    ensures SumSq(a) >= 0.0
  {
    EnergyNonNegative(a);
  }

  lemma {:induction false} EnergyNonNegative(a: seq<real>)
    ensures Energy(Square, a) >= 0.0
  {
    if a == [] {
    } else {
      EnergyNonNegative(a[..|a| - 1]);
    }
  }

  lemma {:induction false} TotalsOrdered(blocks: seq<seq<real>>, signs1: seq<real>, signs2: seq<real>, iters: int)
    requires Signs(signs1) && Signs(signs2) && forall i | 0 <= i < |blocks| :: |blocks[i]| == 256
    ensures 0.0 <= TotalError(blocks, signs1, signs2, Ls(iters)) <= TotalError(blocks, signs1, signs2, MinMax)
  {
    hide SumSq, RoundTrip, Sub;
    if blocks == [] {
    } else {
      var n := |blocks| - 1;
      TotalsOrdered(blocks[..n], signs1, signs2, iters);
      LsNeverWorse(blocks[n], signs1, signs2, iters);
      SumSqNonNegative(Sub(blocks[n], RoundTrip(blocks[n], signs1, signs2, Ls(iters))));
    }
  }

  /** `sample_mse_delta_pct`: relative improvement of one mean squared error over another. */
  function MseDelta(minmaxMse: real, lsMse: real): real {
    if minmaxMse > 0.0 then (minmaxMse - lsMse) / minmaxMse else 0.0
  }

  /** At clip ratio 1 the reported improvement of least squares over min/max always lies in [0, 1]. */
  lemma DeltaInUnitInterval(blocks: seq<seq<real>>, signs1: seq<real>, signs2: seq<real>, iters: int)
    requires Signs(signs1) && Signs(signs2) && forall i | 0 <= i < |blocks| :: |blocks[i]| == 256
    requires blocks != []
    ensures var weights := (256 * |blocks|) as real;
            var minmax, ls := TotalError(blocks, signs1, signs2, MinMax), TotalError(blocks, signs1, signs2, Ls(iters));
            var delta := MseDelta(minmax / weights, ls / weights);
            && 0.0 <= delta <= 1.0
            && delta * minmax == minmax - ls
  {
    hide TotalError;
    TotalsOrdered(blocks, signs1, signs2, iters);
    DeltaBounds(TotalError(blocks, signs1, signs2, MinMax), TotalError(blocks, signs1, signs2, Ls(iters)),
                (256 * |blocks|) as real);
  }

  lemma DeltaBounds(a: real, b: real, n: real)
    requires 0.0 <= b <= a && n > 0.0
    ensures 0.0 <= MseDelta(a / n, b / n) <= 1.0
    ensures MseDelta(a / n, b / n) * a == a - b
  {
    var x, y := a / n, b / n;
    assert 0.0 <= y <= x;
    assert n * x == a && n * y == b;
    if x > 0.0 {
      var d := (x - y) / x;
      assert d * x == x - y;
      assert d * (n * x) == n * (d * x);
    }
  }
}
