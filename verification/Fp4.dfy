/** The E2M1 (FP4) coding of scripts/astrea.py over exact reals: the nearest search over the table, its
    threshold form, and the HFP4G32 row quantiser with its per-row and per-block scales. */
module Fp4 {
  import opened Wrappers

  /** The 16-entry code table; -0.0 is the real number 0. */
  const TABLE: seq<real> := [0.0, 0.5, 1.0, 1.5, 2.0, 3.0, 4.0, 6.0, 0.0, -0.5, -1.0, -1.5, -2.0, -3.0, -4.0, -6.0]

  function Abs(x: real): (r: real)
    ensures r >= 0.0
  {
    if x < 0.0 then -x else x
  }

  function Distance(i: nat, v: real): real
    requires i < 16
  {
    Abs(TABLE[i] - v)
  }

  /** `i` is the first of the first `upTo` table entries at minimal distance. */
  ghost predicate FirstNearest(v: real, i: nat, upTo: nat) {
    && i < upTo <= 16
    && (forall j | 0 <= j < upTo :: Distance(i, v) <= Distance(j, v))
    && (forall j | 0 <= j < i :: Distance(i, v) < Distance(j, v))
  }

  /** The magnitude part of `e2m1_round_numpy`. */
  function Magnitude(a: real): nat {
    if a > 5.0 then 7 else if a > 3.5 then 6 else if a > 2.5 then 5 else if a > 1.75 then 4
    else if a > 1.25 then 3 else if a > 0.75 then 2 else if a > 0.25 then 1 else 0
  }

  /** `e2m1_round_numpy`: thresholds on the magnitude, sign bit only for non-zero codes. */
  function Threshold(v: real): (i: nat)
    ensures i < 16
  {
    var m := Magnitude(Abs(v));
    if v < 0.0 && m > 0 then m + 8 else m
  }

  /** The threshold form is a nearest table entry ... */
  lemma ThresholdNearest(v: real, j: nat)
    requires j < 16
    ensures Distance(Threshold(v), v) <= Distance(j, v)
  {
    if j < 8 {
      NearestPositive(v, j);
    } else {
      assert TABLE[j] == -TABLE[j - 8];
      NearestNegative(v, j - 8);
    }
  }

  lemma NearestPositive(v: real, j: nat)
    requires j < 8
    ensures Distance(Threshold(v), v) <= Abs(TABLE[j] - v)
  {
  }

  lemma NearestNegative(v: real, j: nat)
    requires j < 8
    ensures Distance(Threshold(v), v) <= Abs(-TABLE[j] - v)
  {
  }

  /** ... and every earlier entry is strictly further, ties and negatives included. */
  lemma ThresholdFirst(v: real, j: nat)
    requires j < Threshold(v)
    ensures Distance(Threshold(v), v) < Distance(j, v)
  {
  }

  lemma ThresholdIsFirstNearest(v: real)
    ensures FirstNearest(v, Threshold(v), 16)
  {
    hide Threshold, Distance;
    forall j | 0 <= j < 16 ensures Distance(Threshold(v), v) <= Distance(j, v) {
      ThresholdNearest(v, j);
    }
    forall j | 0 <= j < Threshold(v) ensures Distance(Threshold(v), v) < Distance(j, v) {
      ThresholdFirst(v, j);
    }
  }

  /** `e2m1_round`: the first-wins search equals the threshold form on every real. */
  method E2m1Round(v: real) returns (best: nat)
    ensures best == Threshold(v)
    ensures FirstNearest(v, best, 16)
  {
    hide Threshold, Distance;
    best := 0;
    var bestErr := Distance(0, v);
    for i := 1 to 16
      invariant FirstNearest(v, best, i) && bestErr == Distance(best, v)
    {
      var err := Distance(i, v);
      if err < bestErr {
        bestErr := err;
        best := i;
      }
    }
    ThresholdIsFirstNearest(v);
  }

  /** Within [-6, 6] the nearest entry is at most 1 away. */
  lemma ThresholdWithinOne(v: real)
    requires -6.0 <= v <= 6.0
    ensures Abs(TABLE[Threshold(v)] - v) <= 1.0
  {
  }

  // ---------- scales ----------

  function MaxAbs(a: seq<real>): (m: real)
    ensures m >= 0.0 && forall i | 0 <= i < |a| :: Abs(a[i]) <= m
    ensures a == [] ==> m == 0.0
    ensures a != [] ==> exists i :: 0 <= i < |a| && Abs(a[i]) == m
  {
    if a == [] then 0.0
    else var n := |a| - 1; var m := MaxAbs(a[..n]); if Abs(a[n]) > m then Abs(a[n]) else m
  }

  /** 2 to an integer power. */
  function Exp2(e: int): (r: real)
    ensures r > 0.0
    decreases if e >= 0 then e else -e
  {
    if e == 0 then 1.0 else if e > 0 then 2.0 * Exp2(e - 1) else Exp2(e + 1) / 2.0
  }

  /** The scale a stored block exponent stands for. */
  function BlockScale(e: int): (r: real)
    ensures r > 0.0
  {
    Exp2(e - 127)
  }

  /** Byte 127 stands for scale 1, and each step doubles it. */
  lemma ScaleByByte(e: int)
    ensures BlockScale(127) == 1.0 && BlockScale(e + 1) == 2.0 * BlockScale(e)
  {
    Exp2Step(e - 127);
  }

  /** The table is sign, two exponent bits and a mantissa bit: 0 and 0.5 for exponent 0, else 1 or 1.5 times a power of
      two. */
  lemma TableByBits(sign: nat, exponent: nat, mantissa: nat)
    requires sign < 2 && exponent < 4 && mantissa < 2
    ensures var magnitude := if exponent == 0 then 0.5 * mantissa as real
                             else (1.0 + 0.5 * mantissa as real) * (if exponent == 1 then 1.0 else if exponent == 2 then 2.0 else 4.0);
            TABLE[8 * sign + 2 * exponent + mantissa] == if sign == 0 then magnitude else -magnitude
  {
    assert exponent == 0 || exponent == 1 || exponent == 2 || exponent == 3;
    assert mantissa == 0 || mantissa == 1;
  }

  /** The clamped exponent: the least e >= from whose scale reaches `t`, at most 254.  From 0 this is
      max(0, min(254, ceil(log2(t)) + 127)). */
  function LeastExponent(t: real, from: nat): (e: nat)
    requires from <= 254
    ensures from <= e <= 254
    ensures e < 254 ==> BlockScale(e) >= t
    ensures forall k | from <= k < e :: BlockScale(k) < t
    decreases 254 - from
  {
    if from == 254 || BlockScale(from) >= t then from else LeastExponent(t, from + 1)
  }

  lemma ExponentForUnit(t: real)
    requires t <= 1.0
    ensures LeastExponent(t, 0) <= 127 && BlockScale(LeastExponent(t, 0)) >= t
  {
    hide LeastExponent;
    assert BlockScale(127) == 1.0;
  }

  lemma {:induction false} Exp2Step(e: int)
    ensures Exp2(e + 1) == 2.0 * Exp2(e)
  {
  }

  function RowScale(rowMax: real): real {
    if rowMax > 0.0 then rowMax / 6.0 else 1.0
  }

  function InverseRowScale(rowMax: real): real {
    if rowMax > 0.0 then 1.0 / RowScale(rowMax) else 0.0
  }

  /** The exponent stored for a block whose largest magnitude, in units of the row scale, is `normalized`. */
  function BlockExponent(normalized: real): (e: nat)
    ensures e <= 254
  {
    if normalized > 0.0 then LeastExponent(normalized / 6.0, 0) else 0
  }

  /** A value in units of the row scale. */
  function Normalized(v: real, rowMax: real): real {
    v * InverseRowScale(rowMax)
  }

  /** A value in units of row scale and block scale. */
  function Scaled(v: real, rowMax: real, e: nat): real {
    Normalized(v, rowMax) * (1.0 / BlockScale(e))
  }

  /** The reconstructed value of a code. */
  function Decoded(code: nat, rowMax: real, e: nat): real
    requires code < 16
  {
    TABLE[code] * BlockScale(e) * RowScale(rowMax)
  }

  lemma NormalizedRange(v: real, blockMax: real, rowMax: real)
    requires Abs(v) <= blockMax <= rowMax
    ensures 0.0 <= Normalized(blockMax, rowMax) <= 6.0
    ensures Abs(Normalized(v, rowMax)) <= Normalized(blockMax, rowMax)
  {
    InverseRow(rowMax);
    hide InverseRowScale;
    var inv := InverseRowScale(rowMax);
    AbsScale(v, blockMax, inv);
    MulMono(blockMax, rowMax, inv);
    MulMono(0.0, blockMax, inv);
  }

  lemma InverseRow(rowMax: real)
    requires rowMax >= 0.0
    ensures InverseRowScale(rowMax) >= 0.0 && RowScale(rowMax) > 0.0 && rowMax * InverseRowScale(rowMax) <= 6.0
    ensures rowMax > 0.0 ==> InverseRowScale(rowMax) * RowScale(rowMax) == 1.0
  {
    if rowMax > 0.0 {
      var r := RowScale(rowMax);
      assert r * 6.0 == rowMax && (1.0 / r) * r == 1.0;
      assert rowMax * (1.0 / r) == 6.0 * (r * (1.0 / r));
    }
  }

  lemma AbsScale(v: real, b: real, c: real)
    requires Abs(v) <= b && c >= 0.0
    ensures Abs(v * c) <= b * c
  {
    MulMono(v, b, c);
    MulMono(-b, v, c);
    assert (-b) * c == -(b * c);
  }

  lemma MulMono(x: real, y: real, c: real)
    requires x <= y && c >= 0.0
    ensures x * c <= y * c
  {
    assert (y - x) * c >= 0.0;
  }

  /** The exponent chosen for a block of largest magnitude `blockMax`. */
  function ChosenExponent(blockMax: real, rowMax: real): (e: nat)
    ensures e <= 254
  {
    BlockExponent(Normalized(blockMax, rowMax))
  }

  /** The row scale maps the largest magnitude of the row to 6; a row of zeros has scale 1. */
  lemma RowScaleIs(rowMax: real)
    requires rowMax >= 0.0
    ensures rowMax > 0.0 ==> 6.0 * RowScale(rowMax) == rowMax
    ensures rowMax == 0.0 ==> RowScale(rowMax) == 1.0
  {
  }

  /** The chosen exponent is the least one whose scale lets 6 reach the block's largest magnitude. */
  lemma ExponentIsLeast(blockMax: real, rowMax: real, k: nat)
    requires 0.0 <= blockMax <= rowMax && k < ChosenExponent(blockMax, rowMax)
    ensures 6.0 * (BlockScale(k) * RowScale(rowMax)) < blockMax
  {
    hide BlockScale, LeastExponent, RowScale, InverseRowScale, Normalized;
    var n, r := Normalized(blockMax, rowMax), RowScale(rowMax);
    SmallerScale(n, k);
    PositiveRow(blockMax, rowMax);
    InverseRow(rowMax);
    StrictMono(BlockScale(k), n / 6.0, r);
    NormalizedTimesScale(blockMax, rowMax);
  }

  lemma SmallerScale(normalized: real, k: nat)
    requires k < BlockExponent(normalized)
    ensures normalized > 0.0 && BlockScale(k) < normalized / 6.0
  {
    hide BlockScale, LeastExponent;
  }

  lemma NormalizedTimesScale(v: real, rowMax: real)
    requires rowMax > 0.0
    ensures (Normalized(v, rowMax) / 6.0) * RowScale(rowMax) == v / 6.0
  {
    InverseRow(rowMax);
    hide InverseRowScale, RowScale;
    Cancels(v, InverseRowScale(rowMax), RowScale(rowMax));
  }

  lemma Cancels(x: real, inv: real, r: real)
    requires inv * r == 1.0
    ensures (x * inv / 6.0) * r == x / 6.0
  {
    assert (x * inv) * r == x * (inv * r);
  }

  lemma ScaleReaches(m: real)
    requires m <= 6.0
    ensures m <= 6.0 * BlockScale(BlockExponent(m))
  {
    hide LeastExponent, BlockScale;
    if m > 0.0 {
      ExponentForUnit(m / 6.0);
    }
  }

  /** Every scaled value of a block lies in [-6, 6]. */
  lemma ScaledInRange(v: real, blockMax: real, rowMax: real)
    requires Abs(v) <= blockMax <= rowMax
    ensures -6.0 <= Scaled(v, rowMax, ChosenExponent(blockMax, rowMax)) <= 6.0
  {
    hide BlockScale, BlockExponent, Normalized;
    NormalizedRange(v, blockMax, rowMax);
    ScaleReaches(Normalized(blockMax, rowMax));
    DivideBySix(Normalized(v, rowMax), BlockScale(ChosenExponent(blockMax, rowMax)));
  }

  lemma DivideBySix(u: real, s: real)
    requires s > 0.0 && Abs(u) <= 6.0 * s
    ensures -6.0 <= u * (1.0 / s) <= 6.0
  {
    var i := 1.0 / s;
    assert s * i == 1.0;
    MulMono(u, 6.0 * s, i);
    MulMono(-6.0 * s, u, i);
    assert (6.0 * s) * i == 6.0 * (s * i);
    assert (-6.0 * s) * i == -6.0 * (s * i);
  }

  /** Block scale times row scale. */
  function Bound(rowMax: real, e: nat): real {
    BlockScale(e) * RowScale(rowMax)
  }

  /** The reconstruction error of one value is at most block scale times row scale. */
  lemma ReconstructionError(v: real, blockMax: real, rowMax: real)
    requires Abs(v) <= blockMax <= rowMax
    ensures var e := ChosenExponent(blockMax, rowMax);
            Abs(v - Decoded(Threshold(Scaled(v, rowMax, e)), rowMax, e)) <= Bound(rowMax, e)
  {
    hide BlockScale, RowScale, Threshold, ChosenExponent, Scaled, Decoded, Bound;
    var e := ChosenExponent(blockMax, rowMax);
    var x := Scaled(v, rowMax, e);
    ScaledInRange(v, blockMax, rowMax);
    ThresholdWithinOne(x);
    Unscale(v, rowMax, e);
    ErrorScales(v, x, Threshold(x), rowMax, e);
  }

  /** Unless the exponent is clamped at 0, that bound is below a third of the block's largest magnitude. */
  lemma ScaleIsTight(blockMax: real, rowMax: real)
    requires 0.0 <= blockMax <= rowMax && ChosenExponent(blockMax, rowMax) > 0
    ensures Bound(rowMax, ChosenExponent(blockMax, rowMax)) < blockMax / 3.0
  {
    hide LeastExponent, Exp2, InverseRowScale, RowScale;
    InverseRow(rowMax);
    var m, e := Normalized(blockMax, rowMax), ChosenExponent(blockMax, rowMax);
    Exp2Step(e as int - 128);
    assert BlockScale(e - 1) < m / 6.0;
    PositiveRow(blockMax, rowMax);
    var r := RowScale(rowMax);
    var k := InverseRowScale(rowMax) * r;
    assert k == 1.0;
    assert m * r == blockMax * k;
    assert BlockScale(e) * r < (m / 3.0) * r by { StrictMono(BlockScale(e), m / 3.0, r); }
  }

  lemma PositiveRow(blockMax: real, rowMax: real)
    requires 0.0 <= blockMax <= rowMax && Normalized(blockMax, rowMax) > 0.0
    ensures rowMax > 0.0
  {
  }

  lemma StrictMono(x: real, y: real, c: real)
    requires x < y && c > 0.0
    ensures x * c < y * c
  {
    assert (y - x) * c > 0.0;
  }

  lemma Unscale(v: real, rowMax: real, e: nat)
    requires Abs(v) <= rowMax
    ensures RowScale(rowMax) > 0.0 && v == Scaled(v, rowMax, e) * BlockScale(e) * RowScale(rowMax)
  {
    hide BlockScale, InverseRowScale, RowScale;
    InverseRow(rowMax);
    var s, u := BlockScale(e), Normalized(v, rowMax);
    var i := 1.0 / s;
    assert s * i == 1.0;
    assert (u * i) * s == u * (i * s) == u;
    var r, ri := RowScale(rowMax), InverseRowScale(rowMax);
    if rowMax > 0.0 {
      assert u * r == v * (ri * r);
    } else {
      assert v == 0.0;
    }
  }

  lemma ErrorScales(v: real, x: real, code: nat, rowMax: real, e: nat)
    requires code < 16 && RowScale(rowMax) > 0.0
    requires v == x * BlockScale(e) * RowScale(rowMax) && Abs(TABLE[code] - x) <= 1.0
    ensures Abs(v - Decoded(code, rowMax, e)) <= Bound(rowMax, e)
  {
    hide BlockScale, RowScale;
    var s, r, t := BlockScale(e), RowScale(rowMax), TABLE[code];
    var p := s * r;
    assert p >= 0.0;
    assert x * s * r == x * p && t * s * r == t * p;
    var d := t - x;
    AbsScale(d, 1.0, p);
    assert t * p - x * p == d * p;
  }

  // ---------- rows ----------

  /** One block: its exponent byte and its 16 bytes of two codes each, low nibble first. */
  datatype Block = Block(exponent: nat, bytes: seq<nat>)

  /** A packed row; the row scale is kept as a real in place of its half-precision bits. */
  datatype Row = Row(rowMax: real, flags: int, blocks: seq<Block>)

  function CodeOf(v: real, rowMax: real, e: nat): (c: nat)
    ensures c < 16
  {
    Threshold(Scaled(v, rowMax, e))
  }

  /** The code stored for element `i` of a block. */
  function Nibble(b: Block, i: nat): (c: nat)
    requires i / 2 < |b.bytes|
    ensures c < 16
  {
    if i % 2 == 0 then b.bytes[i / 2] % 16 else (b.bytes[i / 2] / 16) % 16
  }

  /** What a block must be for the 32 values it was made from. */
  ghost predicate Encodes(b: Block, block: seq<real>, rowMax: real) {
    && |block| == 32 && |b.bytes| == 16
    && b.exponent == ChosenExponent(MaxAbs(block), rowMax)
    && (forall i | 0 <= i < 16 :: b.bytes[i] < 256)
    && forall i: nat | i < 32 :: Nibble(b, i) == CodeOf(block[i], rowMax, b.exponent)
  }

  /** The loop over one block. */
  method QuantizeBlock(block: seq<real>, rowMax: real) returns (b: Block)
    requires |block| == 32
    ensures Encodes(b, block, rowMax)
    // The even values in the low nibbles, the odd ones in the high nibbles.
    ensures forall j | 0 <= j < 16 ::
              b.bytes[j] == Threshold(Scaled(block[2 * j], rowMax, b.exponent)) + 16 * Threshold(Scaled(block[2 * j + 1], rowMax, b.exponent))
  {
    hide ChosenExponent, Scaled, Threshold, MaxAbs;
    var e := ChosenExponent(MaxAbs(block), rowMax);
    var bytes: seq<nat> := [];
    for i := 0 to 16
      invariant |bytes| == i
      invariant forall j | 0 <= j < i ::
        bytes[j] == CodeOf(block[2 * j], rowMax, e) + 16 * CodeOf(block[2 * j + 1], rowMax, e)
    {
      var lo := E2m1Round(Scaled(block[2 * i], rowMax, e));
      var hi := E2m1Round(Scaled(block[2 * i + 1], rowMax, e));
      bytes := bytes + [lo + 16 * hi];
    }
    b := Block(e, bytes);
    PairsToNibbles(b, block, rowMax);
  }

  lemma PairsToNibbles(b: Block, block: seq<real>, rowMax: real)
    requires |block| == 32 && |b.bytes| == 16
    requires forall j | 0 <= j < 16 ::
      b.bytes[j] == CodeOf(block[2 * j], rowMax, b.exponent) + 16 * CodeOf(block[2 * j + 1], rowMax, b.exponent)
    ensures forall i | 0 <= i < 16 :: b.bytes[i] < 256
    ensures forall i: nat | i < 32 :: Nibble(b, i) == CodeOf(block[i], rowMax, b.exponent)
  {
    hide CodeOf;
    forall i: nat | i < 32 ensures Nibble(b, i) == CodeOf(block[i], rowMax, b.exponent) {
      var j := i / 2;
      assert b.bytes[j] == CodeOf(block[2 * j], rowMax, b.exponent) + 16 * CodeOf(block[2 * j + 1], rowMax, b.exponent);
    }
  }

  /** The reconstructed value of element `i` of a packed row. */
  function ValueAt(r: Row, i: nat): real
    requires i / 32 < |r.blocks| && |r.blocks[i / 32].bytes| == 16
  {
    var b := r.blocks[i / 32];
    Decoded(Nibble(b, i % 32), r.rowMax, b.exponent)
  }

  ghost predicate RowEncodes(r: Row, row: seq<real>, done: nat) {
    && |r.blocks| == done && 32 * done <= |row|
    && r.rowMax == MaxAbs(row)
    && forall b: nat | b < done :: Encodes(r.blocks[b], row[32 * b..32 * b + 32], r.rowMax)
  }

  /** `quantize_hfp4g32_row`: fails unless the length is a multiple of 32 with a block count that fits its two header
      bytes and the flags fit theirs; otherwise every value is reconstructed within its block scale times the row scale. */
  method QuantizeRow(row: seq<real>, flags: int) returns (r: Option<Row>)
    ensures r.Some? <==> |row| % 32 == 0 && |row| / 32 <= 65535 && 0 <= flags <= 255
    ensures r.Some? ==> RowEncodes(r.value, row, |row| / 32) && r.value.flags == flags
    ensures r.Some? ==> forall i: nat | i < |row| :: WithinScale(r.value, row, i)
  {
    if |row| % 32 != 0 {
      return None;
    }
    var n := |row| / 32;
    if n > 65535 || !(0 <= flags <= 255) {
      return None;
    }
    hide RowEncodes, MaxAbs, WithinScale;
    var rowMax := MaxAbs(row);
    var blocks: seq<Block> := [];
    NoBlocks(row, flags);
    for b := 0 to n
      invariant RowEncodes(Row(rowMax, flags, blocks), row, b)
    {
      var block := QuantizeBlock(row[32 * b..32 * b + 32], rowMax);
      NextBlock(Row(rowMax, flags, blocks), row, b, block);
      blocks := blocks + [block];
    }
    r := Some(Row(rowMax, flags, blocks));
    forall i: nat | i < |row| ensures WithinScale(r.value, row, i) {
      RowError(r.value, row, i);
    }
  }

  lemma NoBlocks(row: seq<real>, flags: int)
    ensures RowEncodes(Row(MaxAbs(row), flags, []), row, 0)
  {
  }

  lemma NextBlock(r: Row, row: seq<real>, b: nat, block: Block)
    requires RowEncodes(r, row, b) && 32 * b + 32 <= |row|
    requires Encodes(block, row[32 * b..32 * b + 32], r.rowMax)
    ensures RowEncodes(r.(blocks := r.blocks + [block]), row, b + 1)
  {
    hide Encodes, MaxAbs;
  }

  ghost predicate WithinScale(r: Row, row: seq<real>, i: nat) {
    && i < |row| && i / 32 < |r.blocks| && |r.blocks[i / 32].bytes| == 16
    && Abs(row[i] - ValueAt(r, i)) <= Bound(r.rowMax, r.blocks[i / 32].exponent)
  }

  lemma RowError(r: Row, row: seq<real>, i: nat)
    requires |row| % 32 == 0 && i < |row| && RowEncodes(r, row, |row| / 32)
    ensures WithinScale(r, row, i)
  {
    hide ChosenExponent, Scaled, Threshold, BlockScale, RowScale, Decoded, MaxAbs;
    var b := i / 32;
    var block := row[32 * b..32 * b + 32];
    assert Encodes(r.blocks[b], block, r.rowMax);
    assert block[i % 32] == row[i];
    assert Nibble(r.blocks[b], i % 32) == CodeOf(row[i], r.rowMax, r.blocks[b].exponent);
    BlockMaxAtMostRowMax(row, b);
    assert Abs(row[i]) <= MaxAbs(block) by { assert Abs(block[i % 32]) <= MaxAbs(block); }
    ReconstructionError(row[i], MaxAbs(block), r.rowMax);
  }

  lemma {:induction false} MaxAbsLeast(a: seq<real>, m: real)
    requires m >= 0.0 && forall i | 0 <= i < |a| :: Abs(a[i]) <= m
    ensures MaxAbs(a) <= m
  {
    if a == [] {
    } else {
      MaxAbsLeast(a[..|a| - 1], m);
    }
  }

  lemma BlockMaxAtMostRowMax(row: seq<real>, b: nat)
    requires 32 * b + 32 <= |row|
    ensures MaxAbs(row[32 * b..32 * b + 32]) <= MaxAbs(row)
  {
    hide MaxAbs;
    var block := row[32 * b..32 * b + 32];
    forall i | 0 <= i < |block| ensures Abs(block[i]) <= MaxAbs(row) {
      assert block[i] == row[32 * b + i];
    }
    MaxAbsLeast(block, MaxAbs(row));
  }
}
