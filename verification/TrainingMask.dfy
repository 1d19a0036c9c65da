/** Multi-block draft training: the sparse attention mask of scripts/dflash_diag_mask.py and
    scripts/dflash_train_poc.py, the concatenated blocks it is used with, and the stratified anchors. */
module TrainingMask {

  type Token = int

  // ---------- index arithmetic ----------

  lemma BlockOfRow(i: nat, count: nat, size: nat)
    requires size >= 1 && i < count * size
    ensures 0 <= i / size < count && i == (i / size) * size + i % size && i % size < size
  {
    var k := i / size;
    assert i == k * size + i % size;
    if k >= count {
      MulLe(count, k, size);
      assert false;
    }
  }

  lemma MulLe(x: int, y: int, b: nat)
    requires x <= y
    ensures x * b <= y * b
  {
    assert (y - x) * b >= 0;
  }

  lemma RowOfBlock(k: nat, t: nat, count: nat, size: nat)
    requires k < count && t < size
    ensures k * size + t < count * size && (k * size + t) / size == k && (k * size + t) % size == t
  {
    MulLe(k + 1, count, size);
    DivUnique(k * size + t, size, k, t);
  }

  lemma DivUnique(n: int, b: int, q: int, r: int)
    requires b > 0 && 0 <= r < b && n == q * b + r
    ensures n / b == q && n % b == r
  {
    var d := n / b - q;
    assert n == (n / b) * b + n % b;
    assert d * b == r - n % b;
    if d >= 1 {
      MulLe(1, d, b);
      assert false;
    }
    if d <= -1 {
      MulLe(d, -1, b);
      assert false;
    }
  }

  // ---------- the mask ----------

  /** What one cell should be: context strictly before the row's anchor, noise of the row's own block. */
  predicate Allowed(length: nat, size: nat, anchors: seq<int>, i: nat, j: nat)
    requires size >= 1 && i / size < |anchors|
  {
    if j < length then j < anchors[i / size] else i / size == (j - length) / size
  }

  /** `build_mask`: the two comparison tables side by side. */
  function BuildMask(length: nat, count: nat, size: nat, anchors: seq<int>): (mask: seq<seq<bool>>)
    requires size >= 1 && count <= |anchors|
    ensures Shaped(mask, length, count, size)
  {
    seq(count * size, i requires 0 <= i < count * size =>
      BlockOfRow(i, count, size);
      var ctxVisible := seq(length, j requires 0 <= j < length => j < anchors[i / size]);
      var sameBlock := seq(count * size, j requires 0 <= j < count * size => i / size == j / size);
      ctxVisible + sameBlock)
  }

  ghost predicate Shaped(mask: seq<seq<bool>>, length: nat, count: nat, size: nat) {
    && |mask| == count * size
    && forall i | 0 <= i < |mask| :: |mask[i]| == length + count * size
  }

  /** Every cell of a mask follows the rule. */
  ghost predicate Follows(mask: seq<seq<bool>>, length: nat, count: nat, size: nat, anchors: seq<int>)
    requires size >= 1 && count <= |anchors| && Shaped(mask, length, count, size)
  {
    forall i, j | 0 <= i < count * size && 0 <= j < length + count * size ::
      BlockOfRow(i, count, size); mask[i][j] == Allowed(length, size, anchors, i, j)
  }

  lemma BuildMaskFollows(length: nat, count: nat, size: nat, anchors: seq<int>)
    requires size >= 1 && count <= |anchors|
    ensures Follows(BuildMask(length, count, size, anchors), length, count, size, anchors)
  {
  }

  /** `verify`: the cell-by-cell check accepts a mask exactly when it is the one `build_mask` builds. */
  method Verify(mask: seq<seq<bool>>, length: nat, count: nat, size: nat, anchors: seq<int>) returns (ok: bool)
    requires size >= 1 && count <= |anchors| && Shaped(mask, length, count, size)
    ensures ok <==> mask == BuildMask(length, count, size, anchors)
  {
    ok := true;
    ghost var built := BuildMask(length, count, size, anchors);
    var i := 0;
    while i < count * size
      invariant 0 <= i <= count * size
      invariant ok <==> mask[..i] == built[..i]
    {
      BlockOfRow(i, count, size);
      var rowOk := VerifyRow(mask[i], length, count, size, anchors, i);
      assert mask[..i + 1] == mask[..i] + [mask[i]] && built[..i + 1] == built[..i] + [built[i]];
      ok := ok && rowOk;
      i := i + 1;
    }
    assert mask[..count * size] == mask && built[..count * size] == built;
  }

  method VerifyRow(row: seq<bool>, length: nat, count: nat, size: nat, anchors: seq<int>, i: nat) returns (ok: bool)
    requires size >= 1 && count <= |anchors| && i < count * size && |row| == length + count * size
    ensures ok <==> row == BuildMask(length, count, size, anchors)[i]
  {
    BlockOfRow(i, count, size);
    ok := true;
    ghost var built := BuildMask(length, count, size, anchors)[i];
    var j := 0;
    while j < length
      invariant 0 <= j <= length
      invariant ok <==> forall t | 0 <= t < j :: row[t] == built[t]
    {
      var want := j < anchors[i / size];
      if want != row[j] {
        ok := false;
      }
      j := j + 1;
    }
    var n := 0;
    while n < count * size
      invariant 0 <= n <= count * size
      invariant ok <==> forall t | 0 <= t < length + n :: row[t] == built[t]
    {
      var want := i / size == n / size;
      if want != row[length + n] {
        ok := false;
      }
      n := n + 1;
    }
  }

  // ---------- masked layers ----------

  /** One attention layer: the new value of a row from its number, the context rows and the noise rows it may see. */
  type Layer<!C, !V> = (nat, map<nat, C>, map<nat, V>) -> V

  /** The context rows a mask row lets through. */
  function SeenContext<C>(row: seq<bool>, ctx: seq<C>): map<nat, C>
    requires |ctx| <= |row|
  {
    map j: nat | j < |ctx| && row[j] :: ctx[j]
  }

  /** The noise rows a mask row lets through. */
  function SeenNoise<V>(row: seq<bool>, length: nat, noise: seq<V>): map<nat, V>
    requires |row| == length + |noise|
  {
    map j: nat | j < |noise| && row[length + j] :: noise[j]
  }

  function RunLayer<C, V>(layer: Layer<C, V>, mask: seq<seq<bool>>, ctx: seq<C>, noise: seq<V>): (r: seq<V>)
    requires |mask| == |noise| && forall i | 0 <= i < |mask| :: |mask[i]| == |ctx| + |noise|
    ensures |r| == |noise|
  {
    seq(|noise|, i requires 0 <= i < |noise| =>
      layer(i, SeenContext(mask[i], ctx), SeenNoise(mask[i], |ctx|, noise)))
  }

  /** The whole stack: the context is the same at every layer, the noise rows are rewritten. */
  function RunLayers<C, V>(layers: seq<Layer<C, V>>, mask: seq<seq<bool>>, ctx: seq<C>, noise: seq<V>): (r: seq<V>)
    requires |mask| == |noise| && forall i | 0 <= i < |mask| :: |mask[i]| == |ctx| + |noise|
    ensures |r| == |noise|
    decreases |layers|
  {
    if layers == [] then noise
    else RunLayers(layers[1..], mask, ctx, RunLayer(layers[0], mask, ctx, noise))
  }

  /** Two noise stacks agree on the rows of block `k`. */
  ghost predicate SameBlock<V>(size: nat, k: nat, noise: seq<V>, noise': seq<V>)
    requires size >= 1
  {
    && |noise| == |noise'|
    && forall i: nat | i < |noise| && i / size == k :: noise[i] == noise'[i]
  }

  /** What a row of block `k` is computed from: exactly the context before the anchor of its block and the noise rows of its
      block. */
  lemma LayerSees<C, V>(layer: Layer<C, V>, length: nat, count: nat, size: nat, anchors: seq<int>, ctx: seq<C>, noise: seq<V>, i: nat)
    requires size >= 1 && count <= |anchors| && |ctx| == length && |noise| == count * size && i < count * size
    ensures i / size < count
    ensures var k := i / size;
            RunLayer(layer, BuildMask(length, count, size, anchors), ctx, noise)[i]
            == layer(i, map j: nat | j < length && j < anchors[k] :: ctx[j], map j: nat | j < |noise| && j / size == k :: noise[j])
  {
    BlockOfRow(i, count, size);
    var k, mask := i / size, BuildMask(length, count, size, anchors);
    assert SeenContext(mask[i], ctx) == map j: nat | j < length && j < anchors[k] :: ctx[j];
    assert SeenNoise(mask[i], length, noise) == map j: nat | j < |noise| && j / size == k :: noise[j];
  }

  lemma LayerNonInterference<C, V>(layer: Layer<C, V>, length: nat, count: nat, size: nat, anchors: seq<int>, k: nat,
                                   ctx: seq<C>, ctx': seq<C>, noise: seq<V>, noise': seq<V>)
    requires size >= 1 && count <= |anchors| && k < count
    requires |ctx| == |ctx'| == length && |noise| == |noise'| == count * size
    requires forall j | 0 <= j < length && j < anchors[k] :: ctx[j] == ctx'[j]
    requires SameBlock(size, k, noise, noise')
    ensures var mask := BuildMask(length, count, size, anchors);
            SameBlock(size, k, RunLayer(layer, mask, ctx, noise), RunLayer(layer, mask, ctx', noise'))
  {
    var mask := BuildMask(length, count, size, anchors);
    forall i: nat | i < count * size && i / size == k
      ensures RunLayer(layer, mask, ctx, noise)[i] == RunLayer(layer, mask, ctx', noise')[i]
    {
      BuildMaskFollows(length, count, size, anchors);
      assert SeenContext(mask[i], ctx) == SeenContext(mask[i], ctx');
      assert SeenNoise(mask[i], length, noise) == SeenNoise(mask[i], length, noise');
    }
  }

  /** After any number of layers, the rows of block k depend only on the context before its anchor
      and on the noise rows of block k. */
  lemma {:induction false} NonInterference<C, V>(layers: seq<Layer<C, V>>, length: nat, count: nat, size: nat, anchors: seq<int>,
                                                 k: nat, ctx: seq<C>, ctx': seq<C>, noise: seq<V>, noise': seq<V>)
    requires size >= 1 && count <= |anchors| && k < count
    requires |ctx| == |ctx'| == length && |noise| == |noise'| == count * size
    requires forall j | 0 <= j < length && j < anchors[k] :: ctx[j] == ctx'[j]
    requires SameBlock(size, k, noise, noise')
    ensures var mask := BuildMask(length, count, size, anchors);
            SameBlock(size, k, RunLayers(layers, mask, ctx, noise), RunLayers(layers, mask, ctx', noise'))
    decreases |layers|
  {
    var mask := BuildMask(length, count, size, anchors);
    if layers == [] {
    } else {
      LayerNonInterference(layers[0], length, count, size, anchors, k, ctx, ctx', noise, noise');
      NonInterference(layers[1..], length, count, size, anchors, k, ctx, ctx',
                      RunLayer(layers[0], mask, ctx, noise), RunLayer(layers[0], mask, ctx', noise'));
    }
  }

  // ---------- the concatenated blocks ----------

  /** The blocks fit: every anchor leaves room for a whole block. */
  ghost predicate Fits(length: nat, count: nat, size: nat, anchors: seq<int>) {
    && size >= 1 && count <= |anchors|
    && forall k | 0 <= k < count :: 0 <= anchors[k] && anchors[k] + size <= length
  }

  /** Concatenated blocks: each is its anchor token followed by mask tokens. */
  ghost function BlockTokens(clean: seq<Token>, count: nat, size: nat, anchors: seq<int>, mask: Token): (r: seq<Token>)
    requires Fits(|clean|, count, size, anchors)
    ensures |r| == count * size
  {
    seq(count * size, i requires 0 <= i < count * size =>
      BlockOfRow(i, count, size); if i % size == 0 then clean[anchors[i / size]] else mask)
  }

  /** Each block's positions run from its anchor on. */
  ghost function BlockPositions(length: nat, count: nat, size: nat, anchors: seq<int>): (r: seq<int>)
    requires Fits(length, count, size, anchors)
    ensures |r| == count * size
  {
    seq(count * size, i requires 0 <= i < count * size => BlockOfRow(i, count, size); anchors[i / size] + i % size)
  }

  /** The anchor token followed by masks. */
  function BlockOf(clean: seq<Token>, size: nat, anchor: nat, mask: Token): (r: seq<Token>)
    requires size >= 1 && anchor < |clean|
    ensures |r| == size
  {
    [clean[anchor]] + seq(size - 1, _ => mask)
  }

  function PositionsFrom(size: nat, anchor: int): (r: seq<int>)
    ensures |r| == size
  {
    seq(size, t => anchor + t)
  }

  /** Where block `k` starts. */
  function StartOf(k: nat, size: nat): nat {
    k * size
  }

  /** Block `k` of the two flat sequences. */
  lemma BlockSlices(clean: seq<Token>, count: nat, size: nat, anchors: seq<int>, mask: Token, k: nat, lo: nat)
    requires Fits(|clean|, count, size, anchors) && k < count && lo == StartOf(k, size)
    ensures lo + size == StartOf(k + 1, size) <= count * size
    ensures BlockTokens(clean, count, size, anchors, mask)[lo..lo + size] == BlockOf(clean, size, anchors[k], mask)
    ensures BlockPositions(|clean|, count, size, anchors)[lo..lo + size] == PositionsFrom(size, anchors[k])
  {
    hide BlockTokens, BlockPositions, BlockOf, PositionsFrom;
    MulLe(k + 1, count, size);
    var tokens, positions := BlockTokens(clean, count, size, anchors, mask), BlockPositions(|clean|, count, size, anchors);
    forall t: nat | t < size
      ensures tokens[lo + t] == BlockOf(clean, size, anchors[k], mask)[t]
      ensures positions[lo + t] == PositionsFrom(size, anchors[k])[t]
    {
      BlockCell(clean, count, size, anchors, mask, k, t, lo + t);
    }
    var block, from := BlockOf(clean, size, anchors[k], mask), PositionsFrom(size, anchors[k]);
    forall t | 0 <= t < size ensures tokens[lo..lo + size][t] == block[t] && positions[lo..lo + size][t] == from[t] {
      assert tokens[lo + t] == block[t] && positions[lo + t] == from[t];
    }
  }

  lemma BlockCell(clean: seq<Token>, count: nat, size: nat, anchors: seq<int>, mask: Token, k: nat, t: nat, i: nat)
    requires Fits(|clean|, count, size, anchors) && k < count && t < size && i == k * size + t
    ensures i < count * size
    ensures BlockTokens(clean, count, size, anchors, mask)[i] == BlockOf(clean, size, anchors[k], mask)[t]
    ensures BlockPositions(|clean|, count, size, anchors)[i] == PositionsFrom(size, anchors[k])[t]
  {
    RowOfBlock(k, t, count, size);
  }

  lemma StartsAndEnds(count: nat, size: nat)
    ensures StartOf(0, size) == 0 && StartOf(count, size) == count * size
  {
  }

  /** Writes one block into a flat buffer. */
  method WriteBlock(a: array<int>, at: nat, block: seq<int>)
    requires at + |block| <= a.Length
    modifies a
    ensures a[..at] == old(a[..at]) && a[at..at + |block|] == block
  {
    forall t | 0 <= t < |block| {
      a[at + t] := block[t];
    }
    forall t | 0 <= t < |block| ensures a[at..at + |block|][t] == block[t] {
      assert a[at + t] == block[t];
    }
  }

  lemma NextPrefix(a: seq<int>, want: seq<int>, lo: nat, hi: nat)
    requires lo <= hi <= |a| == |want| && a[..lo] == want[..lo] && a[lo..hi] == want[lo..hi]
    ensures a[..hi] == want[..hi]
  {
    assert a[..hi] == a[..lo] + a[lo..hi];
  }

  /** The loop that fills the two flat buffers block by block. */
  method FillBlocks(clean: seq<Token>, count: nat, size: nat, anchors: seq<int>, mask: Token)
    returns (tokens: seq<Token>, positions: seq<int>)
    requires Fits(|clean|, count, size, anchors)
    ensures tokens == BlockTokens(clean, count, size, anchors, mask)
    ensures positions == BlockPositions(|clean|, count, size, anchors)
    // Block k: the anchor token, then masks; positions from the anchor on.
    ensures forall k: nat, t: nat | k < count && t < size :: CellFilled(clean, size, anchors, mask, tokens, positions, k, t)
  {
    hide CellFilled, BlockTokens, BlockPositions, BlockOf, PositionsFrom, StartOf;
    StartsAndEnds(count, size);
    var blockTok := new Token[count * size];
    var noisePos := new int[count * size];
    ghost var wantTok, wantPos := BlockTokens(clean, count, size, anchors, mask), BlockPositions(|clean|, count, size, anchors);
    var lo: nat := 0;
    for k := 0 to count
      invariant lo == StartOf(k, size) && lo <= blockTok.Length
      invariant blockTok[..lo] == wantTok[..lo] && noisePos[..lo] == wantPos[..lo]
    {
      var s := anchors[k];
      BlockSlices(clean, count, size, anchors, mask, k, lo);
      WriteBlock(blockTok, lo, BlockOf(clean, size, s, mask));
      WriteBlock(noisePos, lo, PositionsFrom(size, s));
      NextPrefix(blockTok[..], wantTok, lo, lo + size);
      NextPrefix(noisePos[..], wantPos, lo, lo + size);
      lo := lo + size;
    }
    tokens, positions := blockTok[..], noisePos[..];
    AllCells(clean, count, size, anchors, mask);
  }

  /** Slot `t` of block `k` in the flat sequences. */
  ghost predicate CellFilled(clean: seq<Token>, size: nat, anchors: seq<int>, mask: Token, tokens: seq<Token>, positions: seq<int>,
                             k: nat, t: nat)
  {
    var i := k * size + t;
    && k < |anchors| && 0 <= anchors[k] < |clean| && i < |tokens| && i < |positions|
    && tokens[i] == (if t == 0 then clean[anchors[k]] else mask)
    && positions[i] == anchors[k] + t
  }

  lemma AllCells(clean: seq<Token>, count: nat, size: nat, anchors: seq<int>, mask: Token)
    requires Fits(|clean|, count, size, anchors)
    ensures forall k: nat, t: nat | k < count && t < size ::
              CellFilled(clean, size, anchors, mask, BlockTokens(clean, count, size, anchors, mask),
                         BlockPositions(|clean|, count, size, anchors), k, t)
  {
    hide BlockTokens, BlockPositions;
    forall k: nat, t: nat | k < count && t < size
      ensures CellFilled(clean, size, anchors, mask, BlockTokens(clean, count, size, anchors, mask),
                         BlockPositions(|clean|, count, size, anchors), k, t)
    {
      BlockCell(clean, count, size, anchors, mask, k, t, k * size + t);
    }
  }

  /** What the draft's last layer holds for one training sequence. */
  ghost function DraftOutput<C, V>(layers: seq<Layer<C, V>>, feature: seq<Token> -> C, embed: (Token, int) -> V,
                                   clean: seq<Token>, count: nat, size: nat, anchors: seq<int>, mask: Token): (r: seq<V>)
    requires Fits(|clean|, count, size, anchors)
    ensures |r| == count * size
  {
    var tokens, positions := BlockTokens(clean, count, size, anchors, mask), BlockPositions(|clean|, count, size, anchors);
    var ctx := seq(|clean|, j requires 0 <= j < |clean| => feature(clean[..j + 1]));
    var noise := seq(count * size, i requires 0 <= i < count * size => embed(tokens[i], positions[i]));
    RunLayers(layers, BuildMask(|clean|, count, size, anchors), ctx, noise)
  }

  /** No label leaks: with a causal target, what the draft computes for block k is unchanged however the
      tokens after its anchor are changed. */
  lemma NoLabelLeak<C, V>(layers: seq<Layer<C, V>>, feature: seq<Token> -> C, embed: (Token, int) -> V,
                          clean: seq<Token>, clean': seq<Token>, count: nat, size: nat, anchors: seq<int>, mask: Token, k: nat)
    requires Fits(|clean|, count, size, anchors) && |clean| == |clean'| && k < count
    requires clean[..anchors[k] + 1] == clean'[..anchors[k] + 1]
    ensures SameBlock(size, k, DraftOutput(layers, feature, embed, clean, count, size, anchors, mask),
                            DraftOutput(layers, feature, embed, clean', count, size, anchors, mask))
  {
    var length, a := |clean|, anchors[k];
    var tokens, tokens' := BlockTokens(clean, count, size, anchors, mask), BlockTokens(clean', count, size, anchors, mask);
    var positions := BlockPositions(length, count, size, anchors);
    var ctx := seq(length, j requires 0 <= j < length => feature(clean[..j + 1]));
    var ctx' := seq(length, j requires 0 <= j < length => feature(clean'[..j + 1]));
    var noise := seq(count * size, i requires 0 <= i < count * size => embed(tokens[i], positions[i]));
    var noise' := seq(count * size, i requires 0 <= i < count * size => embed(tokens'[i], positions[i]));
    forall j | 0 <= j < length && j < a ensures ctx[j] == ctx'[j] {
      assert clean[..j + 1] == clean[..a + 1][..j + 1] == clean'[..j + 1];
    }
    assert clean[a] == clean[..a + 1][a] == clean'[a];
    NonInterference(layers, length, count, size, anchors, k, ctx, ctx', noise, noise');
  }

  // ---------- stratified anchors ----------

  /** The clamp on the number of blocks per sequence. */
  function AnchorsPerSeq(seqLen: nat, size: nat, requested: nat): nat
    requires size >= 1
  {
    var most := if (seqLen - 1) / size >= 1 then (seqLen - 1) / size else 1;
    if requested <= most then requested else most
  }

  /** The clamp: as many blocks as asked for, but no more than fit one after another behind the first token, and at least
      one if any is asked for. */
  lemma ClampIs(seqLen: nat, size: nat, requested: nat)
    requires size >= 1
    ensures var r := AnchorsPerSeq(seqLen, size, requested);
            && r <= requested && (requested >= 1 ==> r >= 1)
            && (r > 1 ==> r * size < seqLen)
            && (r < requested ==> seqLen <= (r + 1) * size)
  {
    var q := (seqLen - 1) / size;
    var r := AnchorsPerSeq(seqLen, size, requested);
    assert q * size <= seqLen - 1 < q * size + size;
    assert (q + 1) * size == q * size + size;
    if r > 1 {
      MulLe(r, q, size);
    }
    if r < requested && q < 1 {
      MulLe(q + 1, r + 1, size);
    }
  }

  function WindowSize(seqLen: nat, size: nat, count: nat): int
    requires count >= 1
  {
    (seqLen - size) / count
  }

  /** A legal result of the random draws, one for each window. */
  ghost predicate LegalDraws(seqLen: nat, size: nat, count: nat, draws: seq<int>)
    requires count >= 1
  {
    && |draws| == count
    && forall w | 0 <= w < count ::
         0 <= draws[w] <= (if WindowSize(seqLen, size, count) >= size then WindowSize(seqLen, size, count) - size else 0)
  }

  function Anchors(seqLen: nat, size: nat, count: nat, draws: seq<int>): (r: seq<int>)
    requires count >= 1 && |draws| == count
    ensures |r| == count
  {
    seq(count, w requires 0 <= w < count => w * WindowSize(seqLen, size, count) + 1 + draws[w])
  }

  /** No two blocks meet, whichever comes first. */
  ghost predicate Disjoint(size: nat, anchors: seq<int>) {
    forall v, w | 0 <= v < w < |anchors| :: anchors[v] + size <= anchors[w] || anchors[w] + size <= anchors[v]
  }

  ghost predicate Inside(seqLen: nat, size: nat, anchors: seq<int>) {
    forall w | 0 <= w < |anchors| :: 1 <= anchors[w] && anchors[w] + size <= seqLen
  }

  lemma WindowBounds(seqLen: nat, size: nat, count: nat)
    requires count >= 1
    ensures var window := WindowSize(seqLen, size, count);
            count * window <= seqLen - size < count * window + count && (window >= 0 <==> seqLen >= size)
  {
    var window := WindowSize(seqLen, size, count);
    assert seqLen - size == window * count + (seqLen - size) % count;
  }

  /** Every legal draw gives pairwise disjoint blocks exactly when there is one block or the window holds a whole block
      (or the sequence is empty and a block is one token, which puts the anchors in falling order); otherwise no draw
      does. */
  lemma DisjointIff(seqLen: nat, size: nat, count: nat, draws: seq<int>)
    requires size >= 1 && count >= 1 && LegalDraws(seqLen, size, count, draws)
    ensures Disjoint(size, Anchors(seqLen, size, count, draws)) <==>
              count == 1 || WindowSize(seqLen, size, count) >= size || (seqLen == 0 && size == 1)
  {
    var window, a := WindowSize(seqLen, size, count), Anchors(seqLen, size, count, draws);
    WindowBounds(seqLen, size, count);
    if window >= size {
      forall v, w | 0 <= v < w < count ensures a[v] + size <= a[w] {
        MulLe(v + 1, w, window);
      }
    } else if seqLen == 0 && size == 1 {
      EmptyWindow(count);
      forall v, w | 0 <= v < w < count ensures a[w] + size <= a[v] {
        assert a[v] == 1 - v && a[w] == 1 - w;
      }
    } else if count > 1 {
      WindowNotBelow(seqLen, size, count);
      assert a[1] == a[0] + window;
    }
  }

  lemma EmptyWindow(count: nat)
    requires count >= 1
    ensures WindowSize(0, 1, count) == -1
  {
    DivUnique(-1, count, -1, count - 1);
  }

  /** A negative window is still shorter than a block. */
  lemma WindowNotBelow(seqLen: nat, size: nat, count: nat)
    requires size >= 1 && count >= 2 && (seqLen > 0 || size > 1)
    ensures WindowSize(seqLen, size, count) + size > 0
  {
    var window := WindowSize(seqLen, size, count);
    WindowBounds(seqLen, size, count);
    if window + size <= 0 {
      MulLe(window + 1, 1 - size, count);
      MulLe(2, count, size - 1);
      assert false;
    }
  }

  /** The largest anchor a window can produce leaves room for the block. */
  lemma AnchorInside(seqLen: nat, size: nat, count: nat, w: nat, draw: int)
    requires size >= 1 && w < count && seqLen > size
    requires var window := WindowSize(seqLen, size, count); 0 <= draw <= (if window >= size then window - size else 0)
    ensures var a := w * WindowSize(seqLen, size, count) + 1 + draw; 1 <= a && a + size <= seqLen
  {
    var window := WindowSize(seqLen, size, count);
    WindowBounds(seqLen, size, count);
    MulLe(w + 1, count, window);
    assert (w + 1) * window == w * window + window;
    MulLe(0, w, window);
  }

  /** Every block lies inside the sequence exactly when the sequence is longer than a block. */
  lemma InsideIff(seqLen: nat, size: nat, count: nat, draws: seq<int>)
    requires size >= 1 && count >= 1 && LegalDraws(seqLen, size, count, draws)
    ensures Inside(seqLen, size, Anchors(seqLen, size, count, draws)) <==> seqLen > size
  {
    hide WindowSize;
    var a := Anchors(seqLen, size, count, draws);
    assert a[0] == 1 + draws[0];
    if seqLen > size {
      forall w | 0 <= w < count ensures 1 <= a[w] && a[w] + size <= seqLen {
        AnchorInside(seqLen, size, count, w, draws[w]);
      }
    }
  }

  /** The condition a caller can check before drawing: there must be room for one block more than is asked for. */
  lemma WindowHoldsBlockIff(seqLen: nat, size: nat, count: nat)
    requires size >= 1 && count >= 1
    ensures WindowSize(seqLen, size, count) >= size <==> (count + 1) * size <= seqLen
  {
    var window := WindowSize(seqLen, size, count);
    WindowBounds(seqLen, size, count);
    if window >= size {
      MulLe(size, window, count);
    } else {
      MulLe(window + 1, size, count);
    }
  }

  /** The clamp alone does not keep the blocks apart: with 9 tokens and blocks of 4 it lets two blocks through, and they
      overlap for every draw. */
  lemma ClampIsNotEnough(draws: seq<int>)
    requires LegalDraws(9, 4, 2, draws)
    ensures AnchorsPerSeq(9, 4, 2) == 2 && !Disjoint(4, Anchors(9, 4, 2, draws))
  {
    DisjointIff(9, 4, 2, draws);
  }
}
