/** The speculative decoding loop of scripts/dflash_diag_iter1_tau.py and its copy with an
    end-of-sequence stop in scripts/dflash_train_poc.py.

    The target model is an arbitrary deterministic causal function from a token prefix to the
    next token; the draft is an arbitrary function of everything it is shown.  Caches are
    sequences with append and crop. */
module SpecDecode {
  import opened Wrappers

  type Token = int

  /** One entry of the draft's KV cache: a context-feature row or a noise (block) token. */
  datatype DraftEntry<+F> = Context(row: F) | Noise(token: Token)

  /** The models and the constants of a decode.  `draft` gets the draft cache, the context rows, the noise
      block and a row number, and yields the token proposed at that row. */
  datatype Config<!F> = Config(
    next: seq<Token> -> Token,
    feature: seq<Token> -> F,
    draft: (seq<DraftEntry<F>>, seq<F>, seq<Token>, nat) -> Token,
    mask: Token,
    blockSize: nat)

  /** The target's own greedy decode: `n` tokens appended to `prompt`, one at a time. */
  function Greedy(next: seq<Token> -> Token, prompt: seq<Token>, n: nat): (r: seq<Token>)
    ensures |r| == |prompt| + n
    ensures r[..|prompt|] == prompt
  {
    if n == 0 then prompt else var p := Greedy(next, prompt, n - 1); p + [next(p)]
  }

  /** A shorter greedy decode is a prefix of a longer one. */
  lemma {:induction false} GreedyPrefix(next: seq<Token> -> Token, prompt: seq<Token>, m: nat, n: nat)
    requires m <= n
    ensures Greedy(next, prompt, m) <= Greedy(next, prompt, n)
  {
    if m < n {
      GreedyPrefix(next, prompt, m, n - 1);
    }
  }

  function Sum(s: seq<nat>): nat {
    if s == [] then 0 else s[0] + Sum(s[1..])
  }

  lemma {:induction false} SumAppend(s: seq<nat>, x: nat)
    ensures Sum(s + [x]) == Sum(s) + x
  {
    if s == [] {
    } else {
      assert (s + [x])[1..] == s[1..] + [x];
      SumAppend(s[1..], x);
    }
  }

  /** Every element lies in 1..b, so the sum lies between the length and b times the length. */
  lemma {:induction false} SumBounds(s: seq<nat>, b: nat)
    requires forall i | 0 <= i < |s| :: 1 <= s[i] <= b
    ensures |s| <= Sum(s) <= b * |s|
  {
    if s == [] {
    } else {
      SumBounds(s[1..], b);
      assert b * |s| == b * |s[1..]| + b;
    }
  }

  /** Running products, as the acceptance test computes them. */
  function Cumprod(acc: nat, s: seq<nat>): (r: seq<nat>)
    ensures |r| == |s|
    decreases |s|
  {
    if s == [] then [] else [acc * s[0]] + Cumprod(acc * s[0], s[1..])
  }

  function Matches(proposed: seq<Token>, verified: seq<Token>): (r: seq<nat>)
    requires |proposed| <= |verified|
    ensures |r| == |proposed|
  {
    seq(|proposed|, i requires 0 <= i < |proposed| => if proposed[i] == verified[i] then 1 else 0)
  }

  /** Number of accepted proposals: the sum of the running products of the match flags. */
  function AcceptCount(proposed: seq<Token>, verified: seq<Token>): nat
    requires |proposed| <= |verified|
  {
    Sum(Cumprod(1, Matches(proposed, verified)))
  }

  lemma {:induction false} CumprodZero(s: seq<nat>)
    ensures Sum(Cumprod(0, s)) == 0
  {
    if s == [] {
    } else {
      CumprodZero(s[1..]);
      assert Cumprod(0, s)[1..] == Cumprod(0, s[1..]);
    }
  }

  /** The sum of running products of 0/1 flags is the length of the leading run of ones. */
  lemma {:induction false} CumprodSum(s: seq<nat>)
    requires forall i | 0 <= i < |s| :: s[i] <= 1
    ensures var k := Sum(Cumprod(1, s));
            k <= |s| && (forall j | 0 <= j < k :: s[j] == 1) && (k < |s| ==> s[k] == 0)
  {
    if s == [] {
    } else {
      assert Cumprod(1, s)[1..] == Cumprod(s[0], s[1..]);
      if s[0] == 0 {
        CumprodZero(s[1..]);
      } else {
        CumprodSum(s[1..]);
        var k := Sum(Cumprod(1, s));
        assert forall j | 1 <= j < k :: s[j] == s[1..][j - 1];
      }
    }
  }

  /** The acceptance count is the length of the longest agreeing prefix. */
  lemma AcceptCountIsLongestAgreement(proposed: seq<Token>, verified: seq<Token>)
    requires |proposed| <= |verified|
    ensures var k := AcceptCount(proposed, verified);
            k <= |proposed| && proposed[..k] == verified[..k]
            && (k < |proposed| ==> proposed[k] != verified[k])
  {
    var m := Matches(proposed, verified);
    CumprodSum(m);
    var k := AcceptCount(proposed, verified);
    forall j | 0 <= j < k ensures proposed[j] == verified[j] {
      assert m[j] == 1;
    }
  }

  /** What one target call on `tokens` after `cache` yields row by row, be it greedy samples or context features: row i
      sees the cache and tokens 0..i. */
  function TargetRows<R>(row: seq<Token> -> R, cache: seq<Token>, tokens: seq<Token>): (r: seq<R>)
    ensures |r| == |tokens|
  {
    seq(|tokens|, i requires 0 <= i < |tokens| => row(cache + tokens[..i + 1]))
  }

  function ContextEntries<F>(rows: seq<F>): (r: seq<DraftEntry<F>>)
    ensures |r| == |rows|
  {
    seq(|rows|, i requires 0 <= i < |rows| => Context(rows[i]))
  }

  function NoiseEntries<F>(tokens: seq<Token>): (r: seq<DraftEntry<F>>)
    ensures |r| == |tokens|
  {
    seq(|tokens|, i requires 0 <= i < |tokens| => Noise(tokens[i]))
  }

  /** `DynamicCache.crop`: drops everything from `length` on. */
  function Crop<T>(s: seq<T>, length: nat): seq<T> {
    if length <= |s| then s[..length] else s
  }

  lemma CropAppend<T>(a: seq<T>, b: seq<T>, k: nat)
    requires k <= |b|
    ensures Crop(a + b, |a| + k) == a + b[..k]
  {
  }

  lemma CropBack<T>(a: seq<T>, b: seq<T>)
    ensures Crop(a + b, |a|) == a
  {
  }

  /** What the draft proposes for rows 1..B-1 of a block. */
  function Proposals<F>(c: Config<F>, draftCache: seq<DraftEntry<F>>, hidden: seq<F>, block: seq<Token>): (r: seq<Token>)
    requires c.blockSize >= 1
    ensures |r| == c.blockSize - 1
  {
    seq(c.blockSize - 1, j requires 0 <= j => c.draft(draftCache, hidden, block, j + 1))
  }

  /** The losslessness part of the loop invariant: up to and including `start` the buffer is the
      target's greedy decode of the prompt; every later slot still holds the mask token. */
  ghost predicate Lossless<F>(c: Config<F>, prompt: seq<Token>, output: seq<Token>, start: nat) {
    && |prompt| <= start < |output|
    && output[..start + 1] == Greedy(c.next, prompt, start + 1 - |prompt|)
    && forall i | start < i < |output| :: output[i] == c.mask
  }

  /** The cache part: the target cache holds exactly the tokens before `start`; the draft cache followed by
      the pending context rows is the feature row of every position before `start`, in order. */
  ghost predicate Coherent<F>(c: Config<F>, output: seq<Token>, start: nat,
                              targetCache: seq<Token>, draftCache: seq<DraftEntry<F>>, hidden: seq<F>)
  {
    && start <= |output|
    && targetCache == output[..start]
    && |draftCache| + |hidden| == start
    && draftCache + ContextEntries(hidden) == ContextEntries(TargetRows(c.feature, [], output[..start]))
  }

  lemma TargetRowsAppend<F>(feature: seq<Token> -> F, cache: seq<Token>, tokens: seq<Token>)
    ensures TargetRows(feature, [], cache + tokens)
         == TargetRows(feature, [], cache) + TargetRows(feature, cache, tokens)
  {
    var all := cache + tokens;
    var whole := TargetRows(feature, [], all);
    forall i | 0 <= i < |cache| ensures whole[i] == TargetRows(feature, [], cache)[i] {
      assert [] + all[..i + 1] == [] + cache[..i + 1];
    }
    forall i | 0 <= i < |tokens| ensures whole[|cache| + i] == TargetRows(feature, cache, tokens)[i] {
      assert [] + all[..|cache| + i + 1] == cache + tokens[..i + 1];
    }
  }

  lemma ContextEntriesAppend<F>(a: seq<F>, b: seq<F>)
    ensures ContextEntries(a + b) == ContextEntries(a) + ContextEntries(b)
  {
  }

  /** The heart of losslessness: a block that starts with the last greedy token and in which every accepted token
      equals the target's choice at that point extends the greedy decode, whatever was proposed. */
  lemma {:induction false} AcceptedRunIsGreedy(next: seq<Token> -> Token, prompt: seq<Token>, cache: seq<Token>,
                                               block: seq<Token>, accept: nat)
    requires |prompt| <= |cache| && accept < |block|
    requires cache + block[..1] == Greedy(next, prompt, |cache| + 1 - |prompt|)
    requires block[1..accept + 1] == TargetRows(next, cache, block)[..accept]
    ensures cache + block[..accept + 1] == Greedy(next, prompt, |cache| + accept + 1 - |prompt|)
  {
    if accept == 0 {
    } else {
      var post := TargetRows(next, cache, block);
      assert block[1..accept] == block[1..accept + 1][..accept - 1] == post[..accept - 1];
      AcceptedRunIsGreedy(next, prompt, cache, block, accept - 1);
      assert block[accept] == block[1..accept + 1][accept - 1] == post[accept - 1];
      assert cache + block[..accept + 1] == cache + block[..accept] + [block[accept]];
    }
  }

  lemma CoherenceStep<F>(c: Config<F>, cache: seq<Token>, block: seq<Token>, accept: nat,
                         draftCache: seq<DraftEntry<F>>, hidden: seq<F>)
    requires accept < |block|
    requires draftCache + ContextEntries(hidden) == ContextEntries(TargetRows(c.feature, [], cache))
    ensures draftCache + ContextEntries(hidden) + ContextEntries(TargetRows(c.feature, cache, block)[..accept + 1])
         == ContextEntries(TargetRows(c.feature, [], cache + block[..accept + 1]))
  {
    var taken := block[..accept + 1];
    var rows := TargetRows(c.feature, cache, block)[..accept + 1];
    assert rows == TargetRows(c.feature, cache, taken) by {
      forall i | 0 <= i <= accept ensures rows[i] == TargetRows(c.feature, cache, taken)[i] {
        assert block[..i + 1] == taken[..i + 1];
      }
    }
    TargetRowsAppend(c.feature, cache, taken);
    ContextEntriesAppend(TargetRows(c.feature, [], cache), rows);
  }

  /** The buffer after one cycle, as a value. */
  function Written(output: seq<Token>, start: nat, block: seq<Token>, accept: nat, bonus: Token): seq<Token>
    requires accept < |block| && start + |block| < |output|
  {
    output[..start] + block[..accept + 1] + [bonus] + output[start + accept + 2..]
  }

  lemma LosslessStep<F>(c: Config<F>, prompt: seq<Token>, output: seq<Token>, start: nat, block: seq<Token>, accept: nat)
    requires accept < |block| && start + |block| < |output|
    requires Lossless(c, prompt, output, start) && block[0] == output[start]
    requires block[1..accept + 1] == TargetRows(c.next, output[..start], block)[..accept]
    ensures Lossless(c, prompt,
                     Written(output, start, block, accept, TargetRows(c.next, output[..start], block)[accept]),
                     start + accept + 1)
  {
    var cache := output[..start];
    var bonus := TargetRows(c.next, cache, block)[accept];
    var after := Written(output, start, block, accept, bonus);
    assert cache + block[..1] == output[..start + 1];
    AcceptedRunIsGreedy(c.next, prompt, cache, block, accept);
    assert after[..start + accept + 2] == (cache + block[..accept + 1]) + [bonus];
  }

  /** The whole step on values: everything one cycle establishes about the accepted count, the rewritten buffer
      and the three caches. */
  lemma CycleCorrect<F>(c: Config<F>, prompt: seq<Token>, output: seq<Token>, start: nat, proposed: seq<Token>,
                        draftCache: seq<DraftEntry<F>>, hidden: seq<F>, accept: nat)
    requires |proposed| == c.blockSize - 1 && start + c.blockSize < |output|
    requires Lossless(c, prompt, output, start)
    requires Coherent(c, output, start, output[..start], draftCache, hidden)
    requires var post := TargetRows(c.next, output[..start], [output[start]] + proposed);
             accept == AcceptCount(proposed, post[..c.blockSize - 1])
    ensures var block := [output[start]] + proposed;
            var post := TargetRows(c.next, output[..start], block);
            && accept < c.blockSize
            && proposed[..accept] == post[..accept]
            && (accept < |proposed| ==> proposed[accept] != post[accept])
            && var after := Written(output, start, block, accept, post[accept]);
            && Lossless(c, prompt, after, start + accept + 1)
            && Coherent(c, after, start + accept + 1, output[..start] + block[..accept + 1],
                        draftCache + ContextEntries(hidden),
                        TargetRows(c.feature, output[..start], block)[..accept + 1])
  {
    var block := [output[start]] + proposed;
    var post := TargetRows(c.next, output[..start], block);
    AcceptCountIsLongestAgreement(proposed, post[..c.blockSize - 1]);
    assert post[..c.blockSize - 1][..accept] == post[..accept];
    assert block[1..accept + 1] == proposed[..accept];
    LosslessStep(c, prompt, output, start, block, accept);
    CoherenceStep(c, output[..start], block, accept, draftCache, hidden);
    var after := Written(output, start, block, accept, post[accept]);
    assert after[..start + accept + 1] == output[..start] + block[..accept + 1];
  }

  lemma CoherentFacts<F>(c: Config<F>, output: seq<Token>, start: nat,
                         targetCache: seq<Token>, draftCache: seq<DraftEntry<F>>, hidden: seq<F>)
    requires Coherent(c, output, start, targetCache, draftCache, hidden)
    ensures start <= |output| && targetCache == output[..start] && |draftCache| + |hidden| == start
  {
  }

  /** Writes the accepted run and the target's token after it into the buffer. */
  method Commit(output: array<Token>, start: nat, block: seq<Token>, accept: nat, bonus: Token)
    requires accept < |block| && start + |block| < output.Length
    modifies output
    ensures output[..] == Written(old(output[..]), start, block, accept, bonus)
  {
    forall i | 0 <= i <= accept {
      output[start + i] := block[i];
    }
    output[start + accept + 1] := bonus;
  }

  /** One decode cycle, the loop body shared by both scripts.  The buffer is updated in place. */
  method DecodeCycle<F>(c: Config<F>, ghost prompt: seq<Token>, output: array<Token>, start: nat,
                        targetCache: seq<Token>, draftCache: seq<DraftEntry<F>>, hidden: seq<F>)
    returns (accept: nat, start': nat, targetCache': seq<Token>, draftCache': seq<DraftEntry<F>>, hidden': seq<F>)
    requires c.blockSize >= 1 && start + c.blockSize < output.Length
    requires Lossless(c, prompt, output[..], start)
    requires Coherent(c, output[..], start, targetCache, draftCache, hidden)
    modifies output
    ensures accept < c.blockSize && start' == start + accept + 1
    ensures Lossless(c, prompt, output[..], start')
    ensures Coherent(c, output[..], start', targetCache', draftCache', hidden')
    // The draft's rows from 1 on agree with what is now in the buffer for `accept` tokens and no longer.
    ensures RowsAgree(c, draftCache, hidden, old(output[start..start + c.blockSize]), output[start..], accept)
    // Said of the greedy decode alone.
    ensures CycleAccepts(c, prompt, |draftCache|, start, accept + 1)
    // The pending context rows always become draft cache in the next cycle.
    ensures draftCache' == draftCache + ContextEntries(hidden) && |hidden'| == accept + 1
  {
    hide Lossless, Coherent, TargetRows, Proposals, AcceptCount, ContextEntries, NoiseEntries, Written,
      LongestAgreement, Crop, CycleAccepts, RowsAgree;
    ghost var before := output[..];
    CoherentFacts(c, before, start, targetCache, draftCache, hidden);
    var noise := output[start..start + c.blockSize];
    var proposed := Proposals(c, draftCache, hidden, noise);
    draftCache' := Crop(draftCache + ContextEntries(hidden) + NoiseEntries(noise), start);
    CropBack(draftCache + ContextEntries(hidden), NoiseEntries(noise));
    var block := [noise[0]] + proposed;
    var post := TargetRows(c.next, targetCache, block);
    assert block[1..] == proposed;
    accept := AcceptCount(block[1..], post[..c.blockSize - 1]);
    CycleCorrect(c, prompt, before, start, proposed, draftCache, hidden, accept);
    Commit(output, start, block, accept, post[accept]);
    WrittenTail(before, start, proposed, accept, post[accept]);
    start' := start + accept + 1;
    targetCache' := Crop(targetCache + block, start');
    CropAppend(targetCache, block, accept + 1);
    hidden' := TargetRows(c.feature, targetCache, block)[..accept + 1];
    assert output[start + 1..] == output[..][start + 1..] && output[start..] == output[..][start..];
    AgreementByRows(c, draftCache, hidden, noise, output[..], start, accept);
    CycleFollows(c, prompt, before, output[..], start, draftCache, hidden, accept);
  }

  ghost predicate LongestAgreement(proposed: seq<Token>, decoded: seq<Token>, accept: nat) {
    && accept <= |proposed| && accept < |decoded|
    && proposed[..accept] == decoded[..accept]
    && (accept < |proposed| ==> proposed[accept] != decoded[accept])
  }

  /** Rows 1 to `accept` of the draft's answer are the tokens after the first of `decoded`, and the next row is not. */
  ghost predicate RowsAgree<F>(c: Config<F>, draftCache: seq<DraftEntry<F>>, hidden: seq<F>, noise: seq<Token>,
                               decoded: seq<Token>, accept: nat)
  {
    && accept + 1 < |decoded|
    && (forall j | 1 <= j <= accept :: c.draft(draftCache, hidden, noise, j) == decoded[j])
    && (accept + 1 < c.blockSize ==> c.draft(draftCache, hidden, noise, accept + 1) != decoded[accept + 1])
  }

  lemma AgreementByRows<F>(c: Config<F>, draftCache: seq<DraftEntry<F>>, hidden: seq<F>, noise: seq<Token>,
                           output: seq<Token>, start: nat, accept: nat)
    requires c.blockSize >= 1 && start < |output|
    requires LongestAgreement(Proposals(c, draftCache, hidden, noise), output[start + 1..], accept)
    ensures RowsAgree(c, draftCache, hidden, noise, output[start..], accept)
  {
    var proposed, decoded := Proposals(c, draftCache, hidden, noise), output[start + 1..];
    forall j | 1 <= j <= accept ensures c.draft(draftCache, hidden, noise, j) == output[start..][j] {
      assert proposed[j - 1] == proposed[..accept][j - 1] == decoded[..accept][j - 1] == decoded[j - 1];
    }
  }

  // ---------- what the draft has to do with it ----------

  /** The greedy token at a position past the prompt. */
  ghost function TokenAt(next: seq<Token> -> Token, prompt: seq<Token>, p: nat): Token
    requires |prompt| <= p
  {
    Greedy(next, prompt, p + 1 - |prompt|)[p]
  }

  /** What the draft says at a row of the block that starts at `start`, when the feature rows of the first `cached`
      positions are in its cache: it is shown the other rows up to `start`, the greedy token there, and masks. */
  ghost function DraftSays<F>(c: Config<F>, prompt: seq<Token>, cached: nat, start: nat, row: nat): Token
    requires c.blockSize >= 1 && |prompt| <= start && cached <= start
  {
    var g := Greedy(c.next, prompt, start + 1 - |prompt|);
    c.draft(seq(cached, k requires 0 <= k < cached => Context(c.feature(g[..k + 1]))),
            seq(start - cached, k requires 0 <= k < start - cached => c.feature(g[..cached + k + 1])),
            [g[start]] + seq(c.blockSize - 1, _ => c.mask),
            row)
  }

  /** A cycle at `start` advances by `n`: the draft's rows 1 to n - 1 are the greedy tokens, and row n, if the block has
      one, is not. */
  ghost predicate CycleAccepts<F>(c: Config<F>, prompt: seq<Token>, cached: nat, start: nat, n: nat) {
    && c.blockSize >= 1 && |prompt| <= start && cached <= start && 1 <= n <= c.blockSize
    && (forall j | 1 <= j < n :: DraftSays(c, prompt, cached, start, j) == TokenAt(c.next, prompt, start + j))
    && (n < c.blockSize ==> DraftSays(c, prompt, cached, start, n) != TokenAt(c.next, prompt, start + n))
  }

  /** The rows in the draft's cache when cycle `i` starts: those of the positions before the previous cycle. */
  ghost function CachedRows(prompt: seq<Token>, accepts: seq<nat>, i: nat): nat
    requires i <= |accepts|
  {
    if i == 0 then 0 else |prompt| + Sum(accepts[..i - 1])
  }

  /** Every cycle of a run advances by the draft's longest agreement with the target's greedy decode. */
  ghost predicate FollowsDraft<F>(c: Config<F>, prompt: seq<Token>, accepts: seq<nat>) {
    forall i: nat | i < |accepts| ::
      CycleAccepts(c, prompt, CachedRows(prompt, accepts, i), |prompt| + Sum(accepts[..i]), accepts[i])
  }

  lemma {:induction false} GreedyAt(next: seq<Token> -> Token, prompt: seq<Token>, n: nat, p: nat)
    requires |prompt| <= p < |prompt| + n
    ensures Greedy(next, prompt, n)[p] == TokenAt(next, prompt, p)
  {
    GreedyPrefix(next, prompt, p + 1 - |prompt|, n);
  }

  /** What the caches hold is what the specification shows the draft. */
  lemma {:induction false} ShownToDraft<F>(c: Config<F>, prompt: seq<Token>, before: seq<Token>, start: nat,
                                           draftCache: seq<DraftEntry<F>>, hidden: seq<F>, row: nat)
    requires c.blockSize >= 1 && start + c.blockSize < |before|
    requires Lossless(c, prompt, before, start) && Coherent(c, before, start, before[..start], draftCache, hidden)
    ensures |draftCache| <= start
    ensures c.draft(draftCache, hidden, before[start..start + c.blockSize], row) == DraftSays(c, prompt, |draftCache|, start, row)
  {
    hide Greedy;
    var g := Greedy(c.next, prompt, start + 1 - |prompt|);
    var cached := |draftCache|;
    var rows := TargetRows(c.feature, [], before[..start]);
    forall k | 0 <= k < start ensures rows[k] == c.feature(g[..k + 1]) {
      assert [] + before[..start][..k + 1] == before[..start + 1][..k + 1];
    }
    var all := draftCache + ContextEntries(hidden);
    forall k | 0 <= k < cached ensures draftCache[k] == Context(c.feature(g[..k + 1])) {
      assert draftCache[k] == all[k] == ContextEntries(rows)[k];
    }
    forall k | 0 <= k < start - cached ensures hidden[k] == c.feature(g[..cached + k + 1]) {
      assert ContextEntries(hidden)[k] == all[cached + k] == ContextEntries(rows)[cached + k];
    }
    assert draftCache == seq(cached, k requires 0 <= k < cached => Context(c.feature(g[..k + 1])));
    assert hidden == seq(start - cached, k requires 0 <= k < start - cached => c.feature(g[..cached + k + 1]));
    assert before[start] == before[..start + 1][start];
    assert before[start..start + c.blockSize] == [g[start]] + seq(c.blockSize - 1, _ => c.mask);
  }

  lemma {:induction false} CycleFollows<F>(c: Config<F>, prompt: seq<Token>, before: seq<Token>, after: seq<Token>, start: nat,
                                           draftCache: seq<DraftEntry<F>>, hidden: seq<F>, accept: nat)
    requires c.blockSize >= 1 && start + c.blockSize < |before| == |after| && accept < c.blockSize
    requires Lossless(c, prompt, before, start) && Coherent(c, before, start, before[..start], draftCache, hidden)
    requires Lossless(c, prompt, after, start + accept + 1)
    requires RowsAgree(c, draftCache, hidden, before[start..start + c.blockSize], after[start..], accept)
    ensures CycleAccepts(c, prompt, |draftCache|, start, accept + 1)
  {
    hide Coherent, Greedy, DraftSays, TokenAt;
    var n := accept + 1;
    ShownToDraft(c, prompt, before, start, draftCache, hidden, 1);
    forall j | 1 <= j <= n
      ensures after[start + j] == TokenAt(c.next, prompt, start + j)
      ensures c.draft(draftCache, hidden, before[start..start + c.blockSize], j) == DraftSays(c, prompt, |draftCache|, start, j)
    {
      ShownToDraft(c, prompt, before, start, draftCache, hidden, j);
      GreedyAt(c.next, prompt, start + n + 1 - |prompt|, start + j);
      assert after[start + j] == after[..start + n + 1][start + j];
    }
    forall j | 1 <= j < n ensures DraftSays(c, prompt, |draftCache|, start, j) == TokenAt(c.next, prompt, start + j) {
      assert c.draft(draftCache, hidden, before[start..start + c.blockSize], j) == after[start..][j];
    }
  }

  lemma NothingFollowed<F>(c: Config<F>, prompt: seq<Token>)
    ensures FollowsDraft(c, prompt, []) && CachedRows(prompt, [], 0) == 0 && Sum([]) == 0
  {
  }

  lemma {:induction false} FollowsAppend<F>(c: Config<F>, prompt: seq<Token>, accepts: seq<nat>, n: nat)
    requires FollowsDraft(c, prompt, accepts)
    requires CycleAccepts(c, prompt, CachedRows(prompt, accepts, |accepts|), |prompt| + Sum(accepts), n)
    ensures FollowsDraft(c, prompt, accepts + [n])
    ensures CachedRows(prompt, accepts + [n], |accepts| + 1) == |prompt| + Sum(accepts)
  {
    hide CycleAccepts, Sum, CachedRows;
    var all := accepts + [n];
    assert accepts[..|accepts|] == accepts;
    forall i: nat | i < |all|
      ensures CycleAccepts(c, prompt, CachedRows(prompt, all, i), |prompt| + Sum(all[..i]), all[i])
    {
      CachedRowsSame(prompt, accepts, n, i);
    }
    CachedRowsLast(prompt, accepts, n);
  }

  lemma {:induction false} CachedRowsSame(prompt: seq<Token>, accepts: seq<nat>, n: nat, i: nat)
    requires i <= |accepts|
    ensures (accepts + [n])[..i] == accepts[..i] && CachedRows(prompt, accepts + [n], i) == CachedRows(prompt, accepts, i)
  {
    hide Sum;
    assert i > 0 ==> (accepts + [n])[..i - 1] == accepts[..i - 1];
  }

  lemma {:induction false} CachedRowsLast(prompt: seq<Token>, accepts: seq<nat>, n: nat)
    ensures CachedRows(prompt, accepts + [n], |accepts| + 1) == |prompt| + Sum(accepts)
  {
    hide Sum;
    assert (accepts + [n])[..|accepts|] == accepts;
  }

  /** The draft and the target determine the advance of a cycle. */
  lemma {:induction false} AdvanceIsDetermined<F>(c: Config<F>, prompt: seq<Token>, cached: nat, start: nat, m: nat, n: nat)
    requires CycleAccepts(c, prompt, cached, start, m) && CycleAccepts(c, prompt, cached, start, n)
    ensures m == n
  {
    hide DraftSays, TokenAt;
  }

  /** So two runs that follow one draft advance alike, cycle by cycle. */
  lemma {:induction false} RunIsDetermined<F>(c: Config<F>, prompt: seq<Token>, accepts: seq<nat>, accepts': seq<nat>, k: nat)
    requires FollowsDraft(c, prompt, accepts) && FollowsDraft(c, prompt, accepts') && k <= |accepts| && k <= |accepts'|
    ensures accepts[..k] == accepts'[..k]
  {
    hide CycleAccepts, Sum;
    if k == 0 {
    } else {
      RunIsDetermined(c, prompt, accepts, accepts', k - 1);
      assert k > 1 ==> accepts[..k - 2] == accepts[..k - 1][..k - 2] == accepts'[..k - 2];
      AdvanceIsDetermined(c, prompt, CachedRows(prompt, accepts, k - 1), |prompt| + Sum(accepts[..k - 1]), accepts[k - 1], accepts'[k - 1]);
      assert accepts[..k] == accepts[..k - 1] + [accepts[k - 1]] && accepts'[..k] == accepts'[..k - 1] + [accepts'[k - 1]];
    }
  }

  /** A draft that always says the greedy token. */
  ghost predicate AlwaysAgrees<F>(c: Config<F>, prompt: seq<Token>) {
    forall cached: nat, start: nat, j: nat | c.blockSize >= 1 && |prompt| <= start && cached <= start && 1 <= j < c.blockSize ::
      DraftSays(c, prompt, cached, start, j) == TokenAt(c.next, prompt, start + j)
  }

  /** A draft that misses the first token after every block start. */
  ghost predicate NeverAgrees<F>(c: Config<F>, prompt: seq<Token>) {
    forall cached: nat, start: nat | c.blockSize >= 1 && |prompt| <= start && cached <= start ::
      DraftSays(c, prompt, cached, start, 1) != TokenAt(c.next, prompt, start + 1)
  }

  /** The best and the worst draft: whole blocks, and one token a cycle. */
  lemma {:induction false} ExtremeDrafts<F>(c: Config<F>, prompt: seq<Token>, accepts: seq<nat>, i: nat)
    requires FollowsDraft(c, prompt, accepts) && i < |accepts|
    ensures AlwaysAgrees(c, prompt) ==> accepts[i] == c.blockSize
    ensures NeverAgrees(c, prompt) ==> accepts[i] == 1
  {
    hide DraftSays, TokenAt, Sum;
    var cached, start, n := CachedRows(prompt, accepts, i), |prompt| + Sum(accepts[..i]), accepts[i];
    assert CycleAccepts(c, prompt, cached, start, n);
    assert n > 1 ==> DraftSays(c, prompt, cached, start, 1) == TokenAt(c.next, prompt, start + 1);
  }

  lemma WrittenTail(output: seq<Token>, start: nat, proposed: seq<Token>, accept: nat, bonus: Token)
    requires accept <= |proposed| && start + |proposed| + 1 < |output|
    requires accept < |proposed| ==> proposed[accept] != bonus
    ensures LongestAgreement(proposed, Written(output, start, [output[start]] + proposed, accept, bonus)[start + 1..], accept)
  {
  }

  /** The prefill call: the prompt, the target's first token and masks up to the end of the buffer. */
  method Prefill<F>(c: Config<F>, prompt: seq<Token>, maxNew: nat)
    returns (output: array<Token>, targetCache: seq<Token>, hidden: seq<F>)
    requires c.blockSize >= 1 && |prompt| >= 1
    ensures fresh(output) && output.Length == |prompt| + maxNew + c.blockSize
    ensures Lossless(c, prompt, output[..], |prompt|)
    ensures Coherent(c, output[..], |prompt|, targetCache, [], hidden)
  {
    output := new Token[|prompt| + maxNew + c.blockSize](_ => c.mask);
    targetCache := prompt;
    var logits := TargetRows(c.next, [], prompt);
    forall i | 0 <= i < |prompt| {
      output[i] := prompt[i];
    }
    output[|prompt|] := logits[|prompt| - 1];
    hidden := TargetRows(c.feature, [], prompt);
    assert output[..|prompt|] == prompt;
    assert [] + prompt[..|prompt|] == prompt == Greedy(c.next, prompt, 0);
    assert output[..|prompt| + 1] == prompt + [c.next(prompt)] == Greedy(c.next, prompt, 1);
  }

  /** Every cycle so far advanced by 1 to B tokens, `total` in all. */
  ghost predicate Tally(accepts: seq<nat>, blockSize: nat, total: nat) {
    && Sum(accepts) == total
    && forall i | 0 <= i < |accepts| :: 1 <= accepts[i] <= blockSize
  }

  lemma NoCycles(blockSize: nat)
    ensures Tally([], blockSize, 0)
  {
  }

  lemma TallyAppend(accepts: seq<nat>, blockSize: nat, total: nat)
    requires Tally(accepts, blockSize, total)
    ensures forall n: nat | 1 <= n <= blockSize :: Tally(accepts + [n], blockSize, total + n)
  {
    forall n: nat | 1 <= n <= blockSize ensures Tally(accepts + [n], blockSize, total + n) {
      SumAppend(accepts, n);
    }
  }

  /** What a finished decode returns, stated without the loop: the buffer is the greedy decode of
      `Sum(accepts) + 1` tokens followed by masks, and every cycle advanced by 1 to B tokens. */
  ghost predicate DecodedBy<F>(c: Config<F>, prompt: seq<Token>, maxNew: nat, outputIds: seq<Token>, accepts: seq<nat>) {
    && |outputIds| == |prompt| + maxNew + c.blockSize
    && Lossless(c, prompt, outputIds, |prompt| + Sum(accepts))
    && Tally(accepts, c.blockSize, Sum(accepts))
  }

  lemma Finished<F>(c: Config<F>, prompt: seq<Token>, maxNew: nat, outputIds: seq<Token>, start: nat, accepts: seq<nat>)
    requires |outputIds| == |prompt| + maxNew + c.blockSize && |prompt| <= start
    requires Lossless(c, prompt, outputIds, start) && Tally(accepts, c.blockSize, start - |prompt|)
    ensures DecodedBy(c, prompt, maxNew, outputIds, accepts) && start == |prompt| + Sum(accepts)
  {
  }

  /** `spec_generate_capped`: for every draft and every deterministic causal target the decode is lossless, ends
      within `maxNew` cycles, and stops exactly when the cap or the length is reached. */
  method SpecGenerateCapped<F>(c: Config<F>, prompt: seq<Token>, maxNew: nat, maxCycles: nat)
    returns (outputIds: seq<Token>, accepts: seq<nat>)
    requires c.blockSize >= 1 && |prompt| >= 1
    ensures DecodedBy(c, prompt, maxNew, outputIds, accepts) && FollowsDraft(c, prompt, accepts)
    ensures |accepts| <= maxCycles && |accepts| <= maxNew
    ensures |accepts| == maxCycles || Sum(accepts) >= maxNew
  {
    hide Lossless, Coherent, Tally, DecodedBy, FollowsDraft, CycleAccepts, CachedRows, Sum;
    var output, targetCache, hidden := Prefill(c, prompt, maxNew);
    var draftCache := [];
    var start := |prompt|;
    var cycles := 0;
    accepts := [];
    NoCycles(c.blockSize);
    NothingFollowed(c, prompt);
    while start < |prompt| + maxNew && cycles < maxCycles
      invariant |prompt| <= start
      invariant |accepts| == cycles <= maxCycles && cycles <= start - |prompt| && cycles <= maxNew
      invariant fresh(output) && output.Length == |prompt| + maxNew + c.blockSize
      invariant Lossless(c, prompt, output[..], start)
      invariant Coherent(c, output[..], start, targetCache, draftCache, hidden)
      invariant Tally(accepts, c.blockSize, start - |prompt|) && start == |prompt| + Sum(accepts)
      invariant FollowsDraft(c, prompt, accepts) && |draftCache| == CachedRows(prompt, accepts, |accepts|)
      decreases |prompt| + maxNew - start
    {
      cycles := cycles + 1;
      var accept;
      TallyAppend(accepts, c.blockSize, start - |prompt|);
      CoherentFacts(c, output[..], start, targetCache, draftCache, hidden);
      accept, start, targetCache, draftCache, hidden :=
        DecodeCycle(c, prompt, output, start, targetCache, draftCache, hidden);
      FollowsAppend(c, prompt, accepts, accept + 1);
      SumAppend(accepts, accept + 1);
      accepts := accepts + [accept + 1];
    }
    outputIds := output[..];
    Finished(c, prompt, maxNew, outputIds, start, accepts);
  }

  /** The number of cycles bounds the tokens emitted, and the other way round. */
  lemma {:induction false} CyclesAndTokens<F>(c: Config<F>, prompt: seq<Token>, maxNew: nat, outputIds: seq<Token>, accepts: seq<nat>)
    requires DecodedBy(c, prompt, maxNew, outputIds, accepts)
    ensures |accepts| <= Sum(accepts) <= c.blockSize * |accepts|
  {
    SumBounds(accepts, c.blockSize);
  }

  /** Two decodes of one prompt by one target, with different drafts, block sizes, lengths or caps, emit the same tokens
      as far as both go. */
  lemma {:induction false} DraftIndependence<F>(c: Config<F>, c': Config<F>, prompt: seq<Token>, maxNew: nat, maxNew': nat,
                                                out: seq<Token>, accepts: seq<nat>, out': seq<Token>, accepts': seq<nat>)
    requires c.next == c'.next
    requires DecodedBy(c, prompt, maxNew, out, accepts) && DecodedBy(c', prompt, maxNew', out', accepts')
    requires Sum(accepts) <= Sum(accepts')
    ensures out[..|prompt| + Sum(accepts) + 1] <= out'[..|prompt| + Sum(accepts') + 1]
  {
    hide Greedy, Sum, DecodedBy;
    DecodedPrefix(c, prompt, maxNew, out, accepts);
    DecodedPrefix(c', prompt, maxNew', out', accepts');
    GreedyPrefix(c.next, prompt, Sum(accepts) + 1, Sum(accepts') + 1);
  }

  lemma {:induction false} DecodedPrefix<F>(c: Config<F>, prompt: seq<Token>, maxNew: nat, out: seq<Token>, accepts: seq<nat>)
    requires DecodedBy(c, prompt, maxNew, out, accepts)
    ensures |prompt| + Sum(accepts) + 1 <= |out|
    ensures out[..|prompt| + Sum(accepts) + 1] == Greedy(c.next, prompt, Sum(accepts) + 1)
  {
    hide Greedy, Sum;
  }

  /** The stop token is among the tokens emitted after the cycles in `accepts`. */
  ghost predicate StopEmitted<F>(c: Config<F>, prompt: seq<Token>, eos: Option<Token>, accepts: seq<nat>) {
    eos.Some? && eos.value in Greedy(c.next, prompt, Sum(accepts) + 1)[|prompt|..]
  }

  /** The stop test scans the whole buffer after the prompt, unused slots included.  It agrees with "the
      stop token was emitted" unless the mask token is the stop token and a slot is still unused. */
  lemma {:induction false} StopTestExact<F>(c: Config<F>, prompt: seq<Token>, maxNew: nat, outputIds: seq<Token>, accepts: seq<nat>, eos: Token)
    requires DecodedBy(c, prompt, maxNew, outputIds, accepts)
    ensures (eos in outputIds[|prompt|..]) ==
            (|| StopEmitted(c, prompt, Some(eos), accepts)
             || (eos == c.mask && |prompt| + Sum(accepts) + 1 < |outputIds|))
  {
    var n := |prompt| + Sum(accepts) + 1;
    var g := Greedy(c.next, prompt, Sum(accepts) + 1);
    assert outputIds[|prompt|..] == g[|prompt|..] + outputIds[n..] by {
      assert outputIds == g + outputIds[n..];
    }
    if n < |outputIds| {
      assert outputIds[n..][0] == c.mask;
    }
  }

  /** No cycle after the first started with the stop token already emitted. */
  ghost predicate NeverRanOn<F>(c: Config<F>, prompt: seq<Token>, eos: Option<Token>, accepts: seq<nat>) {
    forall n | 0 < n < |accepts| :: !StopEmitted(c, prompt, eos, accepts[..n])
  }

  /** A target that always says 1, with mask token 0 and blocks of one token. */
  function Ones(): Config<int> {
    Config(p => 1, p => 0, (cache, rows, block, i) => 0, 0, 1)
  }

  /** The test can fire though the stop token was never emitted: after one cycle of a two-token decode the last slot still
      holds the mask, and the mask is the stop token. */
  lemma {:induction false} StopTestFiresOnMask()
    ensures var c, out := Ones(), [5, 1, 1, 0];
            DecodedBy(c, [5], 2, out, [1]) && !StopEmitted(c, [5], Some(0), [1]) && 0 in out[1..]
  {
    var c, out := Ones(), [5, 1, 1, 0];
    assert [1][..0] == [] && Sum([1]) == 1;
    assert Greedy(c.next, [5], 0) == [5];
    assert Greedy(c.next, [5], 1) == [5, 1];
    assert Greedy(c.next, [5], 2) == [5, 1, 1] == out[..3];
    assert out[1..][2] == 0;
    StopTestExact(c, [5], 2, out, [1], 0);
  }

  lemma NeverRanOnStart<F>(c: Config<F>, prompt: seq<Token>, eos: Option<Token>)
    ensures NeverRanOn(c, prompt, eos, [])
  {
  }

  lemma NeverRanOnAppend<F>(c: Config<F>, prompt: seq<Token>, eos: Option<Token>, accepts: seq<nat>, x: nat)
    requires NeverRanOn(c, prompt, eos, accepts)
    requires |accepts| > 0 ==> !StopEmitted(c, prompt, eos, accepts)
    ensures NeverRanOn(c, prompt, eos, accepts + [x])
  {
    forall n | 0 < n <= |accepts| ensures !StopEmitted(c, prompt, eos, (accepts + [x])[..n]) {
      assert (accepts + [x])[..n] == accepts[..n];
      assert accepts[..|accepts|] == accepts;
    }
  }

  /** `tau_probe`'s test after a cycle. */
  method StopTest<F>(ghost c: Config<F>, prompt: seq<Token>, ghost maxNew: nat, output: array<Token>, eos: Option<Token>,
                     ghost accepts: seq<nat>) returns (stop: bool)
    requires DecodedBy(c, prompt, maxNew, output[..], accepts)
    ensures stop == (|| StopEmitted(c, prompt, eos, accepts)
                     || (eos == Some(c.mask) && |prompt| + Sum(accepts) + 1 < output.Length))
  {
    stop := eos.Some? && eos.value in output[|prompt|..];
    if eos.Some? {
      assert output[|prompt|..] == output[..][|prompt|..];
      StopTestExact(c, prompt, maxNew, output[..], accepts, eos.value);
    }
  }

  /** `tau_probe`'s loop: the same cycles with the stop test after each. */
  method ProbeDecode<F>(c: Config<F>, prompt: seq<Token>, maxNew: nat, eos: Option<Token>)
    returns (outputIds: seq<Token>, accepts: seq<nat>)
    requires c.blockSize >= 1 && |prompt| >= 1
    ensures DecodedBy(c, prompt, maxNew, outputIds, accepts) && FollowsDraft(c, prompt, accepts)
    ensures |accepts| <= maxNew && (maxNew > 0 ==> |accepts| > 0)
    // Never stops early: short of the length, the stop token is in the output (or is the mask token).
    ensures Sum(accepts) < maxNew ==> StopEmitted(c, prompt, eos, accepts) || eos == Some(c.mask)
    // Never runs on: no later cycle starts once the stop token has been emitted.
    ensures NeverRanOn(c, prompt, eos, accepts)
    ensures eos == Some(c.mask) ==> |accepts| <= 1
  {
    hide Lossless, Coherent, Tally, DecodedBy, NeverRanOn, StopEmitted, FollowsDraft, CycleAccepts, CachedRows, Sum;
    var output, targetCache, hidden := Prefill(c, prompt, maxNew);
    var draftCache := [];
    var start := |prompt|;
    accepts := [];
    NoCycles(c.blockSize);
    NothingFollowed(c, prompt);
    NeverRanOnStart(c, prompt, eos);
    while start < |prompt| + maxNew
      invariant |prompt| <= start
      invariant |accepts| <= start - |prompt| && |accepts| <= maxNew
      invariant fresh(output) && output.Length == |prompt| + maxNew + c.blockSize
      invariant Lossless(c, prompt, output[..], start)
      invariant Coherent(c, output[..], start, targetCache, draftCache, hidden)
      invariant Tally(accepts, c.blockSize, start - |prompt|) && start == |prompt| + Sum(accepts)
      invariant FollowsDraft(c, prompt, accepts) && |draftCache| == CachedRows(prompt, accepts, |accepts|)
      invariant NeverRanOn(c, prompt, eos, accepts)
      invariant |accepts| > 0 ==> !StopEmitted(c, prompt, eos, accepts)
      invariant |accepts| > 0 && start < |prompt| + maxNew ==> eos != Some(c.mask)
      invariant eos == Some(c.mask) ==> |accepts| <= 1
      decreases |prompt| + maxNew - start
    {
      var accept;
      TallyAppend(accepts, c.blockSize, start - |prompt|);
      CoherentFacts(c, output[..], start, targetCache, draftCache, hidden);
      accept, start, targetCache, draftCache, hidden :=
        DecodeCycle(c, prompt, output, start, targetCache, draftCache, hidden);
      NeverRanOnAppend(c, prompt, eos, accepts, accept + 1);
      FollowsAppend(c, prompt, accepts, accept + 1);
      SumAppend(accepts, accept + 1);
      accepts := accepts + [accept + 1];
      Finished(c, prompt, maxNew, output[..], start, accepts);
      var stop := StopTest(c, prompt, maxNew, output, eos, accepts);
      if stop {
        break;
      }
    }
    outputIds := output[..];
    Finished(c, prompt, maxNew, outputIds, start, accepts);
  }

  /** `tau_probe`'s result: the mean advance per cycle, between 1 and the block size once a cycle has run. */
  method TauProbe<F>(c: Config<F>, prompt: seq<Token>, maxNew: nat, eos: Option<Token>)
    returns (tau: real, cycles: nat, outputIds: seq<Token>, accepts: seq<nat>)
    requires c.blockSize >= 1 && |prompt| >= 1
    ensures DecodedBy(c, prompt, maxNew, outputIds, accepts) && FollowsDraft(c, prompt, accepts)
    ensures cycles == |accepts| <= maxNew
    ensures cycles == 0 ==> maxNew == 0 && tau == 0.0
    ensures cycles > 0 ==> 1.0 <= tau <= c.blockSize as real && tau * cycles as real == Sum(accepts) as real
  {
    hide DecodedBy, FollowsDraft, Sum, StopEmitted, NeverRanOn;
    outputIds, accepts := ProbeDecode(c, prompt, maxNew, eos);
    cycles := |accepts|;
    var total := Sum(accepts);
    tau := total as real / (if cycles == 0 then 1 else cycles) as real;
    CyclesAndTokens(c, prompt, maxNew, outputIds, accepts);
    MeanBounds(total, cycles, c.blockSize);
  }

  lemma MeanBounds(total: nat, n: nat, b: nat)
    requires n <= total <= b * n
    ensures n > 0 ==> 1.0 <= total as real / n as real <= b as real
    ensures n > 0 ==> (total as real / n as real) * n as real == total as real
  {
    if n > 0 {
      var t, m, c := total as real, n as real, b as real;
      assert t <= c * m by { assert (b * n) as real == c * m; }
      CancelLe(1.0, t / m, m);
      CancelLe(t / m, c, m);
    }
  }

  lemma CancelLe(x: real, y: real, m: real)
    requires m > 0.0 && x * m <= y * m
    ensures x <= y
  {
    assert (y - x) * m >= 0.0;
  }
}
