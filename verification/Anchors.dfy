/** The runtime-anchor table of scripts/astrea.py: which tensor must be promoted before which. */
module Anchors {
  import opened Wrappers

  predicate EndsWith(s: string, suffix: string) {
    |suffix| <= |s| && s[|s| - |suffix|..] == suffix
  }

  const REPLACEMENTS: seq<(string, string)> := [
    (".self_attn.k_proj.weight", ".self_attn.q_proj.weight"),
    (".self_attn.v_proj.weight", ".self_attn.q_proj.weight"),
    (".linear_attn.in_proj_z.weight", ".linear_attn.in_proj_qkv.weight"),
    (".linear_attn.in_proj_a.weight", ".linear_attn.in_proj_qkv.weight"),
    (".linear_attn.in_proj_b.weight", ".linear_attn.in_proj_qkv.weight"),
    (".mlp.up_proj.weight", ".mlp.gate_proj.weight")]

  predicate BundlesEnabled(base: string, promotion: string) {
    base in {"mq2", "mq3", "mq4", "mq6", "mfp4"} && promotion in {"q8", "f16"}
  }

  /** The first matching replacement from row `i` of the table on. */
  function Replace(name: string, i: nat): Option<string>
    requires i <= 6
    decreases 6 - i
  {
    if i == 6 then None
    else if EndsWith(name, REPLACEMENTS[i].0) then Some(name[..|name| - |REPLACEMENTS[i].0|] + REPLACEMENTS[i].1)
    else Replace(name, i + 1)
  }

  /** `runtime_promotion_anchor_for_name`. */
  function Anchor(base: string, promotion: string, name: string): Option<string> {
    if BundlesEnabled(base, promotion) then Replace(name, 0) else None
  }

  /** Two names with a common ending agree, counted from the end. */
  lemma EndsWithAt(s: string, suffix: string, k: nat)
    requires EndsWith(s, suffix) && k < |suffix|
    ensures s[|s| - 1 - k] == suffix[|suffix| - 1 - k]
  {
    assert s[|s| - |suffix|..][|suffix| - 1 - k] == s[|s| - 1 - k];
  }

  /** The 8th and 13th characters from the end tell replaced suffixes from anchors. */
  predicate AnchorLike(s: string) {
    && |s| >= 13
    && ((s[|s| - 8] == 'j' && s[|s| - 13] in {'q', 'e'}) || s[|s| - 8] == 'v')
  }

  lemma ReplacedIsNotAnchorLike(s: string, i: nat)
    requires i < 6 && EndsWith(s, REPLACEMENTS[i].0)
    ensures !AnchorLike(s)
  {
    EndsWithAt(s, REPLACEMENTS[i].0, 7);
    EndsWithAt(s, REPLACEMENTS[i].0, 12);
  }

  lemma {:induction false} AnchorLikeHasNoAnchor(s: string, i: nat)
    requires i <= 6 && AnchorLike(s)
    ensures Replace(s, i) == None
    decreases 6 - i
  {
    hide AnchorLike;
    if i < 6 {
      if EndsWith(s, REPLACEMENTS[i].0) {
        ReplacedIsNotAnchorLike(s, i);
        assert false;
      }
      AnchorLikeHasNoAnchor(s, i + 1);
    }
  }

  lemma {:induction false} ReplaceIsAnchorLike(name: string, i: nat)
    requires i <= 6 && Replace(name, i).Some?
    ensures AnchorLike(Replace(name, i).value)
    decreases 6 - i
  {
    if EndsWith(name, REPLACEMENTS[i].0) {
      var a := Replace(name, i).value;
      assert EndsWith(a, REPLACEMENTS[i].1);
      EndsWithAt(a, REPLACEMENTS[i].1, 7);
      EndsWithAt(a, REPLACEMENTS[i].1, 12);
    } else {
      hide AnchorLike;
      ReplaceIsAnchorLike(name, i + 1);
    }
  }

  /** Anchors have no anchors. */
  lemma AnchorsAreFlat(base: string, promotion: string, name: string)
    requires Anchor(base, promotion, name).Some?
    ensures Anchor(base, promotion, Anchor(base, promotion, name).value) == None
  {
    hide AnchorLike;
    ReplaceIsAnchorLike(name, 0);
    AnchorLikeHasNoAnchor(Replace(name, 0).value, 0);
  }

  // ---------- the table ----------

  /** The 8th and 13th characters from the end tell the replaced suffixes apart. */
  lemma OneRow(s: string, i: nat, j: nat)
    requires i < 6 && j < 6 && EndsWith(s, REPLACEMENTS[i].0) && EndsWith(s, REPLACEMENTS[j].0)
    ensures i == j
  {
    hide EndsWith;
    RowMarks(s, i);
    RowMarks(s, j);
  }

  function Marks(i: nat): (char, char) {
    if i == 0 then ('j', 'k') else if i == 1 then ('j', 'v') else if i == 2 then ('z', 'p') else if i == 3 then ('a', 'p')
    else if i == 4 then ('b', 'p') else ('j', 'p')
  }

  lemma RowMarks(s: string, i: nat)
    requires i < 6 && EndsWith(s, REPLACEMENTS[i].0)
    ensures |s| >= 13 && (s[|s| - 8], s[|s| - 13]) == Marks(i)
  {
    EndsWithAt(s, REPLACEMENTS[i].0, 7);
    EndsWithAt(s, REPLACEMENTS[i].0, 12);
  }

  lemma {:induction false} ReplaceByRow(s: string, i: nat, from: nat)
    requires from <= i < 6 && EndsWith(s, REPLACEMENTS[i].0)
    ensures Replace(s, from) == Some(s[..|s| - |REPLACEMENTS[i].0|] + REPLACEMENTS[i].1)
    decreases i - from
  {
    if from == i {
    } else {
      if EndsWith(s, REPLACEMENTS[from].0) {
        OneRow(s, i, from);
        assert false;
      }
      ReplaceByRow(s, i, from + 1);
    }
  }

  lemma {:induction false} ReplaceNeedsRow(s: string, from: nat)
    requires from <= 6 && Replace(s, from).Some?
    ensures exists i :: from <= i < 6 && EndsWith(s, REPLACEMENTS[i].0)
    decreases 6 - from
  {
    if EndsWith(s, REPLACEMENTS[from].0) {
    } else {
      ReplaceNeedsRow(s, from + 1);
    }
  }

  lemma PrefixAndSuffix(p: string, suffix: string)
    ensures EndsWith(p + suffix, suffix) && (p + suffix)[..|p + suffix| - |suffix|] == p
  {
  }

  lemma AnchorByRow(base: string, promotion: string, p: string, i: nat)
    requires BundlesEnabled(base, promotion) && i < 6
    ensures Anchor(base, promotion, p + REPLACEMENTS[i].0) == Some(p + REPLACEMENTS[i].1)
  {
    PrefixAndSuffix(p, REPLACEMENTS[i].0);
    ReplaceByRow(p + REPLACEMENTS[i].0, i, 0);
  }

  /** Between a rotated base format and q8 or f16, for every prefix: keys and values need the query, the small linear
      attention inputs need the large one, and the up projection needs the gate. */
  lemma AnchorTable(base: string, promotion: string, p: string)
    requires base in {"mq2", "mq3", "mq4", "mq6", "mfp4"} && promotion in {"q8", "f16"}
    ensures Anchor(base, promotion, p + ".self_attn.k_proj.weight") == Some(p + ".self_attn.q_proj.weight")
    ensures Anchor(base, promotion, p + ".self_attn.v_proj.weight") == Some(p + ".self_attn.q_proj.weight")
    ensures Anchor(base, promotion, p + ".linear_attn.in_proj_z.weight") == Some(p + ".linear_attn.in_proj_qkv.weight")
    ensures Anchor(base, promotion, p + ".linear_attn.in_proj_a.weight") == Some(p + ".linear_attn.in_proj_qkv.weight")
    ensures Anchor(base, promotion, p + ".linear_attn.in_proj_b.weight") == Some(p + ".linear_attn.in_proj_qkv.weight")
    ensures Anchor(base, promotion, p + ".mlp.up_proj.weight") == Some(p + ".mlp.gate_proj.weight")
  {
    hide Anchor;
    AnchorByRow(base, promotion, p, 0);
    AnchorByRow(base, promotion, p, 1);
    AnchorByRow(base, promotion, p, 2);
    AnchorByRow(base, promotion, p, 3);
    AnchorByRow(base, promotion, p, 4);
    AnchorByRow(base, promotion, p, 5);
  }

  /** No other name gets an anchor, and none does between other formats. */
  lemma NoOtherAnchors(base: string, promotion: string, name: string)
    requires Anchor(base, promotion, name).Some?
    ensures base in {"mq2", "mq3", "mq4", "mq6", "mfp4"} && promotion in {"q8", "f16"}
    ensures || EndsWith(name, ".self_attn.k_proj.weight") || EndsWith(name, ".self_attn.v_proj.weight")
            || EndsWith(name, ".linear_attn.in_proj_z.weight") || EndsWith(name, ".linear_attn.in_proj_a.weight")
            || EndsWith(name, ".linear_attn.in_proj_b.weight") || EndsWith(name, ".mlp.up_proj.weight")
  {
    hide EndsWith;
    ReplaceNeedsRow(name, 0);
    var i :| 0 <= i < 6 && EndsWith(name, REPLACEMENTS[i].0);
    assert i == 0 || i == 1 || i == 2 || i == 3 || i == 4 || i == 5;
  }
}
