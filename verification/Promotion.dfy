/** Promoting part of a policy: `selected_policy_items`, `expand_runtime_promotion_selection` and
    `write_policy_promotion_candidate` of scripts/astrea.py. */
module Promotion {
  import opened Wrappers
  import opened Bytes
  import opened Sorting
  import opened Anchors
  import opened Allocator
  import opened Policy

  // ---------- restricting a policy ----------

  predicate Contains(text: string, part: string) {
    part <= text || (text != [] && Contains(text[1..], part))
  }

  /** The alias as text: a missing one reads "None". */
  function AliasText(x: Item): string {
    match x.alias case None => "None" case Some(a) => a
  }

  predicate Matches(filters: seq<string>, x: Item) {
    && x.name != ""
    && (filters == [] ||
        exists i :: 0 <= i < |filters| && (Contains(x.name, filters[i]) || Contains(AliasText(x), filters[i])))
  }

  function Matching(filters: seq<string>, items: seq<Item>): seq<Item> {
    if items == [] then []
    else
      var n := |items| - 1;
      var before := Matching(filters, items[..n]);
      if Matches(filters, items[n]) then before + [items[n]] else before
  }

  /** A cap on the number of items; any cap below 1 still lets one item through. */
  function Capped(items: seq<Item>, cap: Option<int>): seq<Item> {
    if cap.None? then items
    else
      var m := if cap.value <= 1 then 1 else cap.value;
      if |items| <= m then items else items[..m]
  }

  /** One text occurs in another at some place. */
  ghost predicate OccursAt(text: string, part: string, i: nat) {
    i + |part| <= |text| && text[i..i + |part|] == part
  }

  lemma {:induction false} ContainsIff(text: string, part: string)
    ensures Contains(text, part) <==> exists i: nat :: OccursAt(text, part, i)
  {
    if part <= text {
      assert OccursAt(text, part, 0);
    } else if text == [] {
    } else {
      ContainsIff(text[1..], part);
      if i: nat :| OccursAt(text[1..], part, i) {
        assert text[i + 1..i + 1 + |part|] == text[1..][i..i + |part|];
        assert OccursAt(text, part, i + 1);
      }
      if i: nat :| OccursAt(text, part, i) {
        StartsElsewhere(text, part, i);
        assert text[1..][i - 1..i - 1 + |part|] == text[i..i + |part|];
        assert OccursAt(text[1..], part, i - 1);
      }
    }
  }

  lemma StartsElsewhere(text: string, part: string, i: nat)
    requires OccursAt(text, part, i) && !(part <= text)
    ensures i > 0
  {
  }

  /** A named item passes the filters: there are none, or one of them occurs in its name or in its alias, which reads
      "None" when it is missing. */
  ghost predicate Passes(filters: seq<string>, x: Item) {
    && |x.name| > 0
    && (|filters| > 0 ==> exists i :: 0 <= i < |filters| && FilterHits(filters[i], x))
  }

  ghost predicate FilterHits(f: string, x: Item) {
    || (exists i: nat :: OccursAt(x.name, f, i))
    || (x.alias.Some? && exists i: nat :: OccursAt(x.alias.value, f, i))
    || (x.alias.None? && exists i: nat :: OccursAt("None", f, i))
  }

  lemma HitsIff(f: string, x: Item)
    ensures Contains(x.name, f) || Contains(AliasText(x), f) <==> FilterHits(f, x)
  {
    hide Contains, OccursAt;
    ContainsIff(x.name, f);
    ContainsIff(AliasText(x), f);
  }

  lemma MatchesIff(filters: seq<string>, x: Item)
    ensures Matches(filters, x) <==> Passes(filters, x)
  {
    hide Contains, FilterHits, AliasText;
    forall i | 0 <= i < |filters| ensures Contains(x.name, filters[i]) || Contains(AliasText(x), filters[i]) <==> FilterHits(filters[i], x) {
      HitsIff(filters[i], x);
    }
  }

  /** Filtering is item by item, in order: of a list and one more item it keeps what it keeps of the list, and the item
      exactly if that passes. */
  lemma MatchingByItem(filters: seq<string>, items: seq<Item>, x: Item)
    ensures Matching(filters, []) == []
    ensures Matching(filters, items + [x]) == Matching(filters, items) + if Passes(filters, x) then [x] else []
  {
    hide Passes, Matches;
    assert (items + [x])[..|items|] == items;
    MatchesIff(filters, x);
  }

  /** The cap is kept exactly when it is at least 1, or it is 0 and nothing matches. */
  lemma CapKeptIff(filters: seq<string>, items: seq<Item>, cap: int)
    ensures |Capped(Matching(filters, items), Some(cap))| <= cap <==> cap >= 1 || (cap == 0 && Matching(filters, items) == [])
  {
  }

  /** The cap is tested after an item is taken: cap 0 on a policy of two tensors still selects the first. */
  lemma CapZeroSelectsOne()
    ensures var x, y := Item("a", None, 1, 0.0), Item("b", None, 1, 0.0); Capped(Matching([], [x, y]), Some(0)) == [x]
  {
    var x, y := Item("a", None, 1, 0.0), Item("b", None, 1, 0.0);
    assert [x, y][..1] == [x] && [x][..0] == [];
    assert Matching([], [x]) == [x];
    assert Matching([], [x, y]) == [x, y];
  }

  method SelectedItems(policy: PolicyFile, filters: seq<string>, cap: Option<int>) returns (requested: seq<Item>)
    ensures requested == Capped(Matching(filters, policy.selected), cap)
    ensures requested <= Matching(filters, policy.selected)
    ensures cap.None? ==> requested == Matching(filters, policy.selected)
    ensures cap.Some? && |requested| < |Matching(filters, policy.selected)| ==> |requested| == if cap.value >= 1 then cap.value else 1
    ensures cap.Some? ==>
              (|requested| <= cap.value <==> cap.value >= 1 || (cap.value == 0 && Matching(filters, policy.selected) == []))
  {
    hide Matches, Passes;
    requested := [];
    for k := 0 to |policy.selected|
      invariant requested == Matching(filters, policy.selected[..k])
      invariant requested == [] || cap.None? || |requested| < cap.value
    {
      assert policy.selected[..k + 1][..k] == policy.selected[..k];
      if Matches(filters, policy.selected[k]) {
        requested := requested + [policy.selected[k]];
        if cap.Some? && |requested| >= cap.value {
          MatchingPrefix(filters, policy.selected, k + 1);
          return;
        }
      }
    }
    assert policy.selected[..|policy.selected|] == policy.selected;
  }

  lemma {:induction false} MatchingPrefix(filters: seq<string>, items: seq<Item>, k: nat)
    requires k <= |items|
    ensures Matching(filters, items[..k]) <= Matching(filters, items)
    decreases |items|
  {
    hide Matches;
    if k == |items| {
      assert items[..k] == items;
    } else {
      var n := |items| - 1;
      assert items[..n][..k] == items[..k];
      MatchingPrefix(filters, items[..n], k);
    }
  }

  // ---------- anchor expansion ----------

  /** Promoted names in order, and the anchors that were added with the names that needed them. */
  datatype Expansion = Expansion(names: seq<string>, added: seq<(string, string)>)

  function AddName(names: seq<string>, n: string): seq<string> {
    if n == "" || n in names then names else names + [n]
  }

  function ExpandStep(anchor: AnchorRule, available: set<string>, e: Expansion, n: string): Result<Expansion, Error> {
    if n == "" then Ok(e)
    else
      match anchor(n)
      case None => Ok(e.(names := AddName(e.names, n)))
      case Some(a) =>
        if a == "" || a in e.names then Ok(e.(names := AddName(e.names, n)))
        else if a !in available then Err(AnchorUnavailable)
        else Ok(Expansion(AddName(AddName(e.names, a), n), e.added + [(a, n)]))
  }

  function Expanded(anchor: AnchorRule, available: set<string>, requested: seq<string>): Result<Expansion, Error> {
    if requested == [] then Ok(Expansion([], []))
    else
      var n := |requested| - 1;
      var e :- Expanded(anchor, available, requested[..n]);
      ExpandStep(anchor, available, e, requested[n])
  }

  /** `expand_runtime_promotion_selection` with its default `strict`. */
  method Expand(anchor: AnchorRule, available: set<string>, requested: seq<string>) returns (r: Result<Expansion, Error>)
    ensures r == Expanded(anchor, available, requested)
  {
    var names: seq<string>, added: seq<(string, string)> := [], [];
    for k := 0 to |requested|
      invariant Expanded(anchor, available, requested[..k]) == Ok(Expansion(names, added))
    {
      assert requested[..k + 1][..k] == requested[..k];
      var n := requested[k];
      if n != "" {
        var a := anchor(n);
        if a.Some? && a.value != "" && a.value !in names {
          if a.value !in available {
            FailureStays(anchor, available, requested, k + 1);
            return Err(AnchorUnavailable);
          }
          names := AddName(names, a.value);
          added := added + [(a.value, n)];
        }
        names := AddName(names, n);
      }
    }
    assert requested[..|requested|] == requested;
    r := Ok(Expansion(names, added));
  }

  lemma {:induction false} FailureStays(anchor: AnchorRule, available: set<string>, requested: seq<string>, k: nat)
    requires k <= |requested| && Expanded(anchor, available, requested[..k]).Err?
    ensures Expanded(anchor, available, requested) == Expanded(anchor, available, requested[..k])
    decreases |requested|
  {
    hide ExpandStep;
    if k == |requested| {
      assert requested[..k] == requested;
    } else {
      assert requested[..|requested| - 1][..k] == requested[..k];
      FailureStays(anchor, available, requested[..|requested| - 1], k);
    }
  }

  /** Every name that needs an anchor comes after it. */
  ghost predicate AnchorsFirst(anchor: AnchorRule, names: seq<string>) {
    forall i | 0 <= i < |names| :: anchor(names[i]).Some? ==> anchor(names[i]).value in names[..i]
  }

  ghost predicate NoEmptyAnchor(anchor: AnchorRule) {
    forall n :: anchor(n) != Some("")
  }

  /** Requested, or the anchor of a requested name. */
  ghost predicate Wanted(anchor: AnchorRule, requested: seq<string>, n: string) {
    && n != ""
    && (n in requested || exists i :: 0 <= i < |requested| && requested[i] != "" && anchor(requested[i]) == Some(n))
  }

  /** The `i`-th requested name has its anchor to hand: available, or requested before it. */
  ghost predicate AnchorAtHand(anchor: AnchorRule, available: set<string>, requested: seq<string>, i: nat)
    requires i < |requested|
  {
    || requested[i] == ""
    || anchor(requested[i]).None?
    || anchor(requested[i]).value in available
    || anchor(requested[i]).value in requested[..i]
  }

  ghost predicate AnchorsAtHand(anchor: AnchorRule, available: set<string>, requested: seq<string>) {
    forall i | 0 <= i < |requested| :: AnchorAtHand(anchor, available, requested, i)
  }

  /** Names that are wanted either were requested, or are available. */
  ghost predicate ExpansionOf(anchor: AnchorRule, available: set<string>, requested: seq<string>, names: seq<string>) {
    && NoRepeats(names) && AnchorsFirst(anchor, names)
    && (forall n :: n in names <==> Wanted(anchor, requested, n))
    && (forall n | n in names :: n in requested || n in available)
  }

  lemma AppendName(anchor: AnchorRule, names: seq<string>, n: string)
    requires NoRepeats(names) && AnchorsFirst(anchor, names)
    requires anchor(n).Some? ==> anchor(n).value in names
    ensures NoRepeats(AddName(names, n)) && AnchorsFirst(anchor, AddName(names, n))
    ensures forall m :: m in AddName(names, n) <==> m in names || (m == n && n != "")
  {
    var s := AddName(names, n);
    forall i | 0 <= i < |s| && anchor(s[i]).Some? ensures anchor(s[i]).value in s[..i] {
      if i < |names| {
        assert s[..i] == names[..i];
      } else {
        assert s[..i] == names;
      }
    }
  }

  lemma WantedMore(anchor: AnchorRule, requested: seq<string>, m: string)
    requires requested != []
    ensures var n := requested[|requested| - 1];
            Wanted(anchor, requested, m) <==>
              || Wanted(anchor, requested[..|requested| - 1], m)
              || (m != "" && m == n) || (m != "" && n != "" && anchor(n) == Some(m))
  {
    var k := |requested| - 1;
    var before := requested[..k];
    if Wanted(anchor, before, m) {
      if m in before {
        assert m in requested;
      } else {
        var i :| 0 <= i < |before| && before[i] != "" && anchor(before[i]) == Some(m);
        assert requested[i] == before[i];
      }
    }
    if Wanted(anchor, requested, m) {
      if m in requested {
        var i :| 0 <= i < |requested| && requested[i] == m;
        assert i < k ==> before[i] == m;
      } else {
        var i :| 0 <= i < |requested| && requested[i] != "" && anchor(requested[i]) == Some(m);
        assert i < k ==> before[i] == requested[i];
      }
    }
  }

  lemma AtHandMore(anchor: AnchorRule, available: set<string>, requested: seq<string>)
    requires requested != []
    ensures var k := |requested| - 1;
            AnchorsAtHand(anchor, available, requested) <==>
              AnchorsAtHand(anchor, available, requested[..k]) && AnchorAtHand(anchor, available, requested, k)
  {
    var k := |requested| - 1;
    forall i | 0 <= i < k
      ensures AnchorAtHand(anchor, available, requested, i) == AnchorAtHand(anchor, available, requested[..k], i)
    {
      assert requested[..k][..i] == requested[..i];
    }
  }

  /** One name keeps the expansion right, and fails exactly when its anchor is not to hand. */
  lemma ExpandStepKeeps(anchor: AnchorRule, available: set<string>, requested: seq<string>, e: Expansion)
    requires Flat(anchor) && NoEmptyAnchor(anchor) && requested != []
    requires ExpansionOf(anchor, available, requested[..|requested| - 1], e.names)
    ensures var k := |requested| - 1;
            var r := ExpandStep(anchor, available, e, requested[k]);
            && (r.Ok? <==> AnchorAtHand(anchor, available, requested, k))
            && (r.Ok? ==> ExpansionOf(anchor, available, requested, r.value.names))
  {
    hide NoRepeats, AnchorsFirst, Wanted;
    var k := |requested| - 1;
    var n := requested[k];
    var r := ExpandStep(anchor, available, e, n);
    assert NotChained(anchor, n);
    forall m ensures Wanted(anchor, requested, m) <==>
              || Wanted(anchor, requested[..k], m) || (m != "" && m == n) || (m != "" && n != "" && anchor(n) == Some(m))
    {
      WantedMore(anchor, requested, m);
    }
    WantedAvailable(anchor, available, requested, e);
    if r.Ok? && n != "" {
      var names := e.names;
      if anchor(n).Some? && anchor(n).value !in names {
        AppendName(anchor, names, anchor(n).value);
        names := AddName(names, anchor(n).value);
      }
      AppendName(anchor, names, n);
    }
  }

  lemma WantedAvailable(anchor: AnchorRule, available: set<string>, requested: seq<string>, e: Expansion)
    requires requested != [] && NoEmptyAnchor(anchor)
    requires ExpansionOf(anchor, available, requested[..|requested| - 1], e.names)
    ensures forall m | m in requested[..|requested| - 1] && m != "" :: m in e.names
    ensures forall m | m in e.names :: m in requested[..|requested| - 1] || m in available
    ensures forall m | m in requested[..|requested| - 1] :: m in requested
  {
    forall m | m in requested[..|requested| - 1] && m != "" ensures m in e.names {
      assert Wanted(anchor, requested[..|requested| - 1], m);
    }
  }

  /** The expansion succeeds exactly when every requested name has its anchor to hand; it then holds each requested name
      and each of their anchors once, anchors first, and nothing else. */
  lemma {:induction false} ExpansionFacts(anchor: AnchorRule, available: set<string>, requested: seq<string>)
    requires Flat(anchor) && NoEmptyAnchor(anchor)
    ensures Expanded(anchor, available, requested).Ok? <==> AnchorsAtHand(anchor, available, requested)
    ensures Expanded(anchor, available, requested).Ok? ==>
              ExpansionOf(anchor, available, requested, Expanded(anchor, available, requested).value.names)
  {
    if requested == [] {
    } else {
      hide ExpandStep, AnchorAtHand, ExpansionOf, AnchorsAtHand;
      var n := |requested| - 1;
      ExpansionFacts(anchor, available, requested[..n]);
      AtHandMore(anchor, available, requested);
      var before := Expanded(anchor, available, requested[..n]);
      if before.Ok? {
        ExpandStepKeeps(anchor, available, requested, before.value);
      }
    }
  }

  /** The reported anchors: each was needed by a requested name and is in the expansion, and every name that was not
      requested is among them. */
  ghost predicate AddedExplain(anchor: AnchorRule, requested: seq<string>, e: Expansion) {
    && (forall k | 0 <= k < |e.added| ::
          anchor(e.added[k].1) == Some(e.added[k].0) && e.added[k].1 in requested && e.added[k].0 in e.names)
    && (forall n | n in e.names && n !in requested :: exists k :: 0 <= k < |e.added| && e.added[k].0 == n)
  }

  lemma ExplainStep(anchor: AnchorRule, available: set<string>, before: seq<string>, n: string, e: Expansion)
    requires AddedExplain(anchor, before, e) && NoEmptyAnchor(anchor) && ExpandStep(anchor, available, e, n).Ok?
    ensures AddedExplain(anchor, before + [n], ExpandStep(anchor, available, e, n).value)
  {
    var requested, e' := before + [n], ExpandStep(anchor, available, e, n).value;
    assert e.names <= e'.names && e.added <= e'.added;
    forall m | m in e'.names && m !in requested ensures exists k :: 0 <= k < |e'.added| && e'.added[k].0 == m {
      if m in e.names {
        var k :| 0 <= k < |e.added| && e.added[k].0 == m;
        assert e'.added[k].0 == m;
      } else {
        assert e'.added[|e.added|].0 == m;
      }
    }
  }

  lemma {:induction false} AddedFacts(anchor: AnchorRule, available: set<string>, requested: seq<string>)
    requires NoEmptyAnchor(anchor) && Expanded(anchor, available, requested).Ok?
    ensures AddedExplain(anchor, requested, Expanded(anchor, available, requested).value)
  {
    hide ExpandStep, NoEmptyAnchor;
    if requested == [] {
    } else {
      var k := |requested| - 1;
      AddedFacts(anchor, available, requested[..k]);
      ExplainStep(anchor, available, requested[..k], requested[k], Expanded(anchor, available, requested[..k]).value);
      assert requested == requested[..k] + [requested[k]];
    }
  }

  // ---------- rewriting the model ----------

  /** The source quantiser: the packed bytes of a tensor, or no value where it raises. */
  type Packer = (string, seq<nat>) -> Option<seq<byte>>

  datatype Promoted = Promoted(name: string, extra: int)

  datatype Rewriting = Rewriting(tensors: seq<Tensor>, promoted: seq<Promoted>)

  function ExtraBytes(promoted: seq<Promoted>): int {
    if promoted == [] then 0 else ExtraBytes(promoted[..|promoted| - 1]) + promoted[|promoted| - 1].extra
  }

  function PayloadBytes(tensors: seq<Tensor>): nat {
    if tensors == [] then 0 else PayloadBytes(tensors[..|tensors| - 1]) + |tensors[|tensors| - 1].data|
  }

  function AsQ8(t: Tensor, packed: seq<byte>): Tensor {
    t.(quantType := 3, groupSize := 32, data := packed)
  }

  /** The packed form of a selected tensor. */
  function Pack(base: string, pack: Packer, t: Tensor): Result<seq<byte>, Error> {
    if FormatOf(t.quantType) != base then Err(WrongFormat)
    else
      match pack(t.name, t.shape)
      case None => Err(PackFailed)
      case Some(packed) => if |packed| != Q8Size(t.shape) then Err(PackedSize) else Ok(packed)
  }

  function Rewritten(names: set<string>, base: string, pack: Packer, tensors: seq<Tensor>): Result<Rewriting, Error> {
    if tensors == [] then Ok(Rewriting([], []))
    else
      var n := |tensors| - 1;
      var t := tensors[n];
      var w :- Rewritten(names, base, pack, tensors[..n]);
      if t.name !in names then Ok(Rewriting(w.tensors + [t], w.promoted))
      else
        var packed :- Pack(base, pack, t);
        Ok(Rewriting(w.tensors + [AsQ8(t, packed)], w.promoted + [Promoted(t.name, |packed| - |t.data|)]))
  }

  /** The promotion loop: replaces selected records in place. */
  method Rewrite(names: set<string>, base: string, pack: Packer, tensors: seq<Tensor>) returns (r: Result<Rewriting, Error>)
    ensures r == Rewritten(names, base, pack, tensors)
  {
    hide Pack, AsQ8;
    var records, promoted: seq<Promoted> := tensors, [];
    for k := 0 to |tensors|
      invariant |records| == |tensors| && records[k..] == tensors[k..]
      invariant Rewritten(names, base, pack, tensors[..k]) == Ok(Rewriting(records[..k], promoted))
    {
      assert tensors[..k + 1][..k] == tensors[..k];
      var t := records[k];
      assert t == records[k..][0] == tensors[k];
      var before := records[..k];
      if t.name in names {
        var packed := Pack(base, pack, t);
        if packed.Err? {
          RewriteFailureStays(names, base, pack, tensors, k + 1);
          return Err(packed.error);
        }
        promoted := promoted + [Promoted(t.name, |packed.value| - |t.data|)];
        records := records[k := AsQ8(t, packed.value)];
      }
      assert records[..k + 1] == before + [records[k]];
      assert records[k + 1..] == tensors[k..][1..];
    }
    assert tensors[..|tensors|] == tensors && records[..|tensors|] == records;
    r := Ok(Rewriting(records, promoted));
  }

  lemma {:induction false} RewriteFailureStays(names: set<string>, base: string, pack: Packer, tensors: seq<Tensor>, k: nat)
    requires k <= |tensors| && Rewritten(names, base, pack, tensors[..k]).Err?
    ensures Rewritten(names, base, pack, tensors) == Rewritten(names, base, pack, tensors[..k])
    decreases |tensors|
  {
    hide Pack;
    if k == |tensors| {
      assert tensors[..k] == tensors;
    } else {
      assert tensors[..|tensors| - 1][..k] == tensors[..k];
      RewriteFailureStays(names, base, pack, tensors[..|tensors| - 1], k);
    }
  }

  // ---------- what the rewriting costs ----------

  function Growth(t: Tensor): int {
    Q8Size(t.shape) - |t.data|
  }

  /** The growth of the tensors with these names. */
  ghost function GrowthOf(tensors: seq<Tensor>, names: set<string>): int {
    if tensors == [] then 0
    else
      var n := |tensors| - 1;
      GrowthOf(tensors[..n], names) + (if tensors[n].name in names then Growth(tensors[n]) else 0)
  }

  /** How a tensor comes out: untouched, or the packed bytes in Q8 form. */
  ghost predicate ComesOut(names: set<string>, base: string, pack: Packer, t: Tensor, t': Tensor) {
    if t.name in names then Pack(base, pack, t).Ok? && t' == AsQ8(t, Pack(base, pack, t).value)
    else t' == t
  }

  ghost predicate Present(tensors: seq<Tensor>, name: string) {
    exists i :: 0 <= i < |tensors| && tensors[i].name == name
  }

  ghost predicate Reported(promoted: seq<Promoted>, name: string) {
    exists i :: 0 <= i < |promoted| && promoted[i].name == name
  }

  ghost predicate PromotedDistinct(promoted: seq<Promoted>) {
    forall i, j | 0 <= i < j < |promoted| :: promoted[i].name != promoted[j].name
  }

  /** The last step of a rewriting. */
  lemma LastRewrite(names: set<string>, base: string, pack: Packer, tensors: seq<Tensor>)
    requires tensors != [] && Rewritten(names, base, pack, tensors).Ok?
    ensures var n := |tensors| - 1;
            var t := tensors[n];
            var w := Rewritten(names, base, pack, tensors).value;
            && Rewritten(names, base, pack, tensors[..n]).Ok?
            && var before := Rewritten(names, base, pack, tensors[..n]).value;
               && w.tensors != [] && w.tensors[..|w.tensors| - 1] == before.tensors
               && ComesOut(names, base, pack, t, w.tensors[|w.tensors| - 1])
               && |w.tensors[|w.tensors| - 1].data| == |t.data| + (if t.name in names then Growth(t) else 0)
               && w.promoted == before.promoted + (if t.name in names then [Promoted(t.name, Growth(t))] else [])
  {
    hide Q8Size, FormatOf;
  }

  lemma NothingRewritten(names: set<string>, base: string, pack: Packer)
    ensures Rewritten(names, base, pack, []) == Ok(Rewriting([], []))
  {
  }

  /** Record by record: selected tensors hold their packed bytes, the others are untouched. */
  lemma {:induction false} RewriteKeepsOrder(names: set<string>, base: string, pack: Packer, tensors: seq<Tensor>)
    requires Rewritten(names, base, pack, tensors).Ok?
    ensures var w := Rewritten(names, base, pack, tensors).value;
            && |w.tensors| == |tensors|
            && (forall i | 0 <= i < |tensors| :: ComesOut(names, base, pack, tensors[i], w.tensors[i]))
  {
    hide Rewritten, ComesOut;
    if tensors == [] {
      NothingRewritten(names, base, pack);
    } else {
      LastRewrite(names, base, pack, tensors);
      var n := |tensors| - 1;
      RewriteKeepsOrder(names, base, pack, tensors[..n]);
      var before := Rewritten(names, base, pack, tensors[..n]).value;
      var w := Rewritten(names, base, pack, tensors).value;
      forall i | 0 <= i < |tensors| ensures ComesOut(names, base, pack, tensors[i], w.tensors[i]) {
        if i < n {
          assert ComesOut(names, base, pack, tensors[..n][i], before.tensors[i]);
          assert w.tensors[..n][i] == w.tensors[i];
        }
      }
    }
  }

  /** A selected tensor was of the base format and comes out with type 3, group size 32 and the packed bytes, 34 for each
      started 32 elements, under its name and shape; any other comes out as it was. */
  lemma ComesOutMeans(names: set<string>, base: string, pack: Packer, t: Tensor, t': Tensor, blocks: nat)
    requires ComesOut(names, base, pack, t, t') && Starts(Elements(t.shape), 32, blocks)
    ensures t.name !in names ==> t' == t
    ensures t.name in names ==>
              && FormatOf(t.quantType) == base
              && t'.name == t.name && t'.shape == t.shape && t'.quantType == 3 && t'.groupSize == 32
              && pack(t.name, t.shape) == Some(t'.data) && |t'.data| == 34 * blocks
  {
    hide Elements, CeilDiv, FormatOf;
    StartsUnique(Elements(t.shape), 32, blocks);
  }

  /** In total: the reported extra bytes are the growth of the selected tensors, which is the growth of the payload. */
  lemma {:induction false} RewriteCost(names: set<string>, base: string, pack: Packer, tensors: seq<Tensor>)
    requires Rewritten(names, base, pack, tensors).Ok?
    ensures var w := Rewritten(names, base, pack, tensors).value;
            && ExtraBytes(w.promoted) == GrowthOf(tensors, names)
            && PayloadBytes(w.tensors) == PayloadBytes(tensors) + GrowthOf(tensors, names)
  {
    hide Rewritten, ComesOut, Growth;
    if tensors == [] {
      NothingRewritten(names, base, pack);
    } else {
      LastRewrite(names, base, pack, tensors);
      var n := |tensors| - 1;
      RewriteCost(names, base, pack, tensors[..n]);
      var before := Rewritten(names, base, pack, tensors[..n]).value;
      var w := Rewritten(names, base, pack, tensors).value;
      if tensors[n].name in names {
        assert w.promoted[..|w.promoted| - 1] == before.promoted;
      } else {
        assert w.promoted == before.promoted;
      }
    }
  }

  /** The promoted names are the selected names the model has, each once when the model's names are distinct. */
  lemma {:induction false} PromotedFacts(names: set<string>, base: string, pack: Packer, tensors: seq<Tensor>)
    requires Rewritten(names, base, pack, tensors).Ok?
    ensures var promoted := Rewritten(names, base, pack, tensors).value.promoted;
            && (forall m :: Reported(promoted, m) <==> m in names && Present(tensors, m))
            && (DistinctTensors(tensors) ==> PromotedDistinct(promoted))
  {
    hide Rewritten, ComesOut, Growth;
    if tensors == [] {
      NothingRewritten(names, base, pack);
    } else {
      LastRewrite(names, base, pack, tensors);
      hide PromotedDistinct, Present, Reported;
      var n := |tensors| - 1;
      var t := tensors[n];
      PromotedFacts(names, base, pack, tensors[..n]);
      var before := Rewritten(names, base, pack, tensors[..n]).value.promoted;
      var promoted := Rewritten(names, base, pack, tensors).value.promoted;
      forall m ensures Present(tensors, m) <==> Present(tensors[..n], m) || t.name == m {
        PresentMore(tensors, m);
      }
      if t.name in names {
        var x := Promoted(t.name, Growth(t));
        forall m ensures Reported(promoted, m) <==> Reported(before, m) || t.name == m {
          ReportedMore(before, x, m);
        }
        if DistinctTensors(tensors) {
          NotBefore(tensors);
          MoreDistinct(before, x);
        }
      } else {
        assert promoted == before;
      }
    }
  }

  lemma NotBefore(tensors: seq<Tensor>)
    requires tensors != [] && DistinctTensors(tensors)
    ensures !Present(tensors[..|tensors| - 1], tensors[|tensors| - 1].name)
  {
  }

  lemma PresentMore(tensors: seq<Tensor>, m: string)
    requires tensors != []
    ensures Present(tensors, m) <==> Present(tensors[..|tensors| - 1], m) || tensors[|tensors| - 1].name == m
  {
    var n := |tensors| - 1;
    if i :| 0 <= i < n && tensors[..n][i].name == m {
      assert tensors[i].name == m;
    }
    if i :| 0 <= i < |tensors| && tensors[i].name == m {
      assert i < n ==> tensors[..n][i].name == m;
    }
  }

  lemma ReportedMore(before: seq<Promoted>, x: Promoted, m: string)
    ensures Reported(before + [x], m) <==> Reported(before, m) || x.name == m
  {
    var s := before + [x];
    if i :| 0 <= i < |before| && before[i].name == m {
      assert s[i].name == m;
    }
    if i :| 0 <= i < |s| && s[i].name == m {
      assert i < |before| ==> before[i].name == m;
    }
    assert s[|before|].name == x.name;
  }

  lemma MoreDistinct(before: seq<Promoted>, x: Promoted)
    requires PromotedDistinct(before) && !Reported(before, x.name)
    ensures PromotedDistinct(before + [x])
  {
  }

  /** Distinct promoted names that are together the set `names` number as many as it. */
  lemma {:induction false} CountPromoted(promoted: seq<Promoted>, names: set<string>)
    requires PromotedDistinct(promoted) && forall m :: Reported(promoted, m) <==> m in names
    ensures |promoted| == |names|
  {
    if promoted == [] {
      assert names == {};
    } else {
      var n := |promoted| - 1;
      var x := promoted[n];
      assert promoted == promoted[..n] + [x];
      forall m ensures Reported(promoted[..n], m) <==> m in names - {x.name} {
        ReportedMore(promoted[..n], x, m);
      }
      assert Reported(promoted, x.name);
      CountPromoted(promoted[..n], names - {x.name});
    }
  }

  // ---------- growth and the policy's own accounting ----------

  lemma {:induction false} GrowthWithout(tensors: seq<Tensor>, names: set<string>, x: string)
    requires !Present(tensors, x)
    ensures GrowthOf(tensors, names + {x}) == GrowthOf(tensors, names)
  {
    if tensors == [] {
    } else {
      PresentMore(tensors, x);
      GrowthWithout(tensors[..|tensors| - 1], names, x);
    }
  }

  /** One more name adds its tensor's growth. */
  lemma {:induction false} GrowthWith(tensors: seq<Tensor>, names: set<string>, i: nat)
    requires DistinctTensors(tensors) && i < |tensors| && tensors[i].name !in names
    ensures GrowthOf(tensors, names + {tensors[i].name}) == GrowthOf(tensors, names) + Growth(tensors[i])
  {
    hide Growth;
    var n := |tensors| - 1;
    if i == n {
      NotBefore(tensors);
      GrowthWithout(tensors[..n], names, tensors[n].name);
    } else {
      assert tensors[..n][i] == tensors[i];
      GrowthWith(tensors[..n], names, i);
    }
  }

  /** Fewer names, less growth, as long as nothing selected shrinks. */
  lemma {:induction false} GrowthMonotone(tensors: seq<Tensor>, few: set<string>, many: set<string>)
    requires few <= many && forall i | 0 <= i < |tensors| && tensors[i].name in many :: Growth(tensors[i]) >= 0
    ensures GrowthOf(tensors, few) <= GrowthOf(tensors, many)
  {
    hide Growth;
    if tensors == [] {
    } else {
      GrowthMonotone(tensors[..|tensors| - 1], few, many);
    }
  }

  /** The tensor behind a policy item. */
  ghost predicate Behind(base: string, tensors: seq<Tensor>, x: Item) {
    exists i :: 0 <= i < |tensors| && tensors[i].name == x.name && FormatOf(tensors[i].quantType) == base && Growth(tensors[i]) == x.extra
  }

  /** For distinct items of the model, the growth of their tensors is what the policy accounts. */
  lemma {:induction false} GrowthIsExtra(base: string, tensors: seq<Tensor>, items: seq<Item>)
    requires DistinctTensors(tensors) && Distinct(items) && forall i | 0 <= i < |items| :: Behind(base, tensors, items[i])
    ensures GrowthOf(tensors, Names(items)) == Extra(items)
  {
    hide Growth;
    if items == [] {
      assert Names(items) == {};
      GrowthOfNone(tensors);
    } else {
      var n := |items| - 1;
      GrowthIsExtra(base, tensors, items[..n]);
      assert Behind(base, tensors, items[n]);
      var i :| 0 <= i < |tensors| && tensors[i].name == items[n].name && Growth(tensors[i]) == items[n].extra;
      assert items == items[..n] + [items[n]];
      NamesAppend(items[..n], items[n]);
      GrowthWith(tensors, Names(items[..n]), i);
    }
  }

  lemma {:induction false} GrowthOfNone(tensors: seq<Tensor>)
    ensures GrowthOf(tensors, {}) == 0
  {
    if tensors == [] {
    } else {
      GrowthOfNone(tensors[..|tensors| - 1]);
    }
  }

  // ---------- the writer ----------

  /** What was asked for, the expanded selection, and the rewritten model. */
  datatype Outcome = Outcome(requested: seq<string>, selection: Expansion, result: Rewriting)

  function NameList(items: seq<Item>): seq<string> {
    seq(|items|, i requires 0 <= i < |items| => items[i].name)
  }

  function NameSet(names: seq<string>): set<string> {
    set n | n in names
  }

  /** Names an anchor may be taken from: the model's records and everything the policy lists. */
  function Available(policy: PolicyFile, tensors: seq<Tensor>): set<string> {
    (set i | 0 <= i < |tensors| :: tensors[i].name) + (set i | 0 <= i < |policy.selected| :: policy.selected[i].name)
      + (set i | 0 <= i < |policy.skipped| :: policy.skipped[i].item.name)
  }

  lemma AvailableIff(policy: PolicyFile, tensors: seq<Tensor>, n: string)
    ensures n in Available(policy, tensors) <==>
              || Present(tensors, n) || HasName(policy.selected, n)
              || exists i :: 0 <= i < |policy.skipped| && policy.skipped[i].item.name == n
  {
  }

  function Requested(policy: PolicyFile, filters: seq<string>, cap: Option<int>): seq<string> {
    NameList(Capped(Matching(filters, policy.selected), cap))
  }

  /** `write_policy_promotion_candidate`, up to writing the file; `source` holds the names of the source tensors. */
  function PromotionOf(policy: PolicyFile, tensors: seq<Tensor>, filters: seq<string>, cap: Option<int>, source: set<string>,
                       pack: Packer): Result<Outcome, Error>
  {
    if policy.promotion != "q8" then Err(OnlyQ8)
    else
      var requested := Requested(policy, filters, cap);
      if requested == [] then Err(NothingSelected)
      else
        var e :- Expanded(AnchorFor(policy.base, policy.promotion), Available(policy, tensors), requested);
        var names := NameSet(e.names);
        if !(names <= source) then Err(SourceMissing)
        else
          var w :- Rewritten(names, policy.base, pack, tensors);
          if |w.promoted| != |names| then Err(NotInModel) else Ok(Outcome(requested, e, w))
  }

  method WritePromotion(policy: PolicyFile, tensors: seq<Tensor>, filters: seq<string>, cap: Option<int>, source: set<string>,
                        pack: Packer) returns (r: Result<Outcome, Error>)
    ensures r == PromotionOf(policy, tensors, filters, cap, source, pack)
  {
    hide Matching, Capped, Expanded, Rewritten, Available;
    if policy.promotion != "q8" {
      return Err(OnlyQ8);
    }
    var items := SelectedItems(policy, filters, cap);
    if items == [] {
      return Err(NothingSelected);
    }
    var e :- Expand(AnchorFor(policy.base, policy.promotion), Available(policy, tensors), NameList(items));
    var names := NameSet(e.names);
    if !(names <= source) {
      return Err(SourceMissing);
    }
    var w :- Rewrite(names, policy.base, pack, tensors);
    if |w.promoted| != |names| {
      return Err(NotInModel);
    }
    r := Ok(Outcome(NameList(items), e, w));
  }

  // ---------- promotion stays in budget ----------

  /** What promotion relies on in a policy for this model. */
  ghost predicate FitsModel(policy: PolicyFile, tensors: seq<Tensor>) {
    && Distinct(policy.selected) && Anchored(AnchorFor(policy.base, policy.promotion), policy.selected)
    && Extra(policy.selected) <= policy.budget
    && (forall i | 0 <= i < |policy.selected| :: policy.selected[i].extra > 0)
    && (forall i | 0 <= i < |policy.selected| :: Behind(policy.base, tensors, policy.selected[i]))
  }

  lemma BuiltPolicyFits(req: Request, tensors: seq<Tensor>)
    requires DistinctTensors(tensors) && PolicyOf(req, tensors).Ok? && req.promotion == "q8"
    ensures FitsModel(PolicyOf(req, tensors).value, tensors)
  {
    hide PolicyOf, CandidatesOf, Extra, Distinct, Anchored, Ranked, Candidates, Behind, Backed, Invariant, AnchorFor;
    PolicyFields(req, tensors);
    PolicyIsAllocation(req, tensors);
    RankedFacts(req, tensors);
    var p := PolicyOf(req, tensors).value;
    var st := Allocation(p.selected, p.skipped, req.budget - Extra(p.selected), p.added);
    SelectionFacts(AnchorFor(req.base, req.promotion), Ranked(req, tensors), req.budget, st);
    forall i | 0 <= i < |p.selected| ensures Behind(req.base, tensors, p.selected[i]) {
      BackedIsBehind(req, tensors, p.selected[i]);
    }
  }

  lemma BackedIsBehind(req: Request, tensors: seq<Tensor>, x: Item)
    requires Backed(req, tensors, x) && req.promotion == "q8"
    ensures Behind(req.base, tensors, x)
  {
    var i :| 0 <= i < |tensors| && CandidateOf(req, tensors[i]) == Ok(Some(x));
    hide Q8Size, FormatOf;
    assert tensors[i].name == x.name && Growth(tensors[i]) == x.extra;
  }

  lemma {:induction false} MatchingMembers(filters: seq<string>, items: seq<Item>, x: Item)
    requires x in Matching(filters, items)
    ensures x in items
  {
    hide Matches;
    var n := |items| - 1;
    if x in Matching(filters, items[..n]) {
      MatchingMembers(filters, items[..n], x);
    }
  }

  lemma RequestedMembers(policy: PolicyFile, filters: seq<string>, cap: Option<int>, n: string)
    requires n in Requested(policy, filters, cap)
    ensures HasName(policy.selected, n)
  {
    var items := Capped(Matching(filters, policy.selected), cap);
    var i :| 0 <= i < |items| && NameList(items)[i] == n;
    assert items[i] in Matching(filters, policy.selected);
    MatchingMembers(filters, policy.selected, items[i]);
    var j :| 0 <= j < |policy.selected| && policy.selected[j] == items[i];
  }

  lemma AnchorInSelection(anchor: AnchorRule, items: seq<Item>, n: string)
    requires Anchored(anchor, items) && HasName(items, n) && anchor(n).Some?
    ensures HasName(items, anchor(n).value)
  {
    var i :| 0 <= i < |items| && items[i].name == n;
    assert AnchoredAt(anchor, items, i);
    var j :| 0 <= j < |items[..i]| && items[..i][j].name == anchor(n).value;
    assert items[j].name == anchor(n).value;
  }

  lemma AnchorForNeverEmpty(base: string, promotion: string)
    ensures NoEmptyAnchor(AnchorFor(base, promotion))
  {
    hide Replace;
    forall n ensures Anchor(base, promotion, n) != Some("") {
      if Replace(n, 0).Some? {
        ReplaceIsAnchorLike(n, 0);
      }
    }
  }

  /** Restricting and expanding a fitting policy never fails, and stays inside its selection: the result holds every
      requested name, is closed under anchors, and has anchors first. */
  lemma ExpansionStaysInside(policy: PolicyFile, tensors: seq<Tensor>, filters: seq<string>, cap: Option<int>)
    requires FitsModel(policy, tensors)
    ensures var anchor := AnchorFor(policy.base, policy.promotion);
            var requested := Requested(policy, filters, cap);
            var r := Expanded(anchor, Available(policy, tensors), requested);
            && r.Ok?
            && NoRepeats(r.value.names) && AnchorsFirst(anchor, r.value.names)
            && (forall n | n in requested && n != "" :: n in r.value.names)
            && (forall n | n in r.value.names :: HasName(policy.selected, n))
  {
    hide Requested, Expanded, Available, Distinct, Anchored, Extra, Behind, AnchorFor, HasName, NoRepeats, AnchorsFirst, Flat,
         NoEmptyAnchor;
    var anchor := AnchorFor(policy.base, policy.promotion);
    var requested := Requested(policy, filters, cap);
    AnchorForIsFlat(policy.base, policy.promotion);
    AnchorForNeverEmpty(policy.base, policy.promotion);
    ExpansionFacts(anchor, Available(policy, tensors), requested);
    forall i | 0 <= i < |requested| ensures AnchorAtHand(anchor, Available(policy, tensors), requested, i) {
      RequestedMembers(policy, filters, cap, requested[i]);
      if anchor(requested[i]).Some? {
        AnchorInSelection(anchor, policy.selected, requested[i]);
        SelectedAvailable(policy, tensors, anchor(requested[i]).value);
      }
    }
    var names := Expanded(anchor, Available(policy, tensors), requested).value.names;
    forall n | n in requested && n != "" ensures n in names {
      assert Wanted(anchor, requested, n);
    }
    forall n | n in names ensures HasName(policy.selected, n) {
      assert Wanted(anchor, requested, n);
      if n in requested {
        RequestedMembers(policy, filters, cap, n);
      } else {
        var i :| 0 <= i < |requested| && requested[i] != "" && anchor(requested[i]) == Some(n);
        RequestedMembers(policy, filters, cap, requested[i]);
        AnchorInSelection(anchor, policy.selected, requested[i]);
      }
    }
  }

  lemma SelectedAvailable(policy: PolicyFile, tensors: seq<Tensor>, n: string)
    requires HasName(policy.selected, n)
    ensures n in Available(policy, tensors)
  {
  }

  /** Tensors of selected names are of the base format and do not shrink. */
  lemma SelectedTensor(policy: PolicyFile, tensors: seq<Tensor>, i: nat)
    requires FitsModel(policy, tensors) && DistinctTensors(tensors) && i < |tensors| && HasName(policy.selected, tensors[i].name)
    ensures FormatOf(tensors[i].quantType) == policy.base && Growth(tensors[i]) > 0
  {
    hide Growth, FormatOf, Extra, Distinct, Anchored;
    var j :| 0 <= j < |policy.selected| && policy.selected[j].name == tensors[i].name;
    assert Behind(policy.base, tensors, policy.selected[j]);
    var k :| 0 <= k < |tensors| && tensors[k].name == policy.selected[j].name && FormatOf(tensors[k].quantType) == policy.base
             && Growth(tensors[k]) == policy.selected[j].extra;
    assert k == i;
  }

  /** The growth of any part of the selection is within the budget. */
  lemma PartWithinBudget(policy: PolicyFile, tensors: seq<Tensor>, names: set<string>)
    requires FitsModel(policy, tensors) && DistinctTensors(tensors) && forall n | n in names :: HasName(policy.selected, n)
    ensures GrowthOf(tensors, names) <= policy.budget
  {
    hide Growth, GrowthOf, Extra, HasName, Names, Behind, Anchored, Distinct;
    var all := Names(policy.selected);
    forall n | n in names ensures n in all {
      NamesAre(policy.selected, n);
    }
    forall i | 0 <= i < |tensors| && tensors[i].name in all ensures Growth(tensors[i]) >= 0 {
      NamesAre(policy.selected, tensors[i].name);
      SelectedTensor(policy, tensors, i);
    }
    GrowthMonotone(tensors, names, all);
    GrowthIsExtra(policy.base, tensors, policy.selected);
  }

  /** Rewriting fails only where the quantiser does. */
  lemma {:induction false} RewriteErrors(names: set<string>, base: string, pack: Packer, tensors: seq<Tensor>)
    requires forall i | 0 <= i < |tensors| && tensors[i].name in names :: FormatOf(tensors[i].quantType) == base
    requires Rewritten(names, base, pack, tensors).Err?
    ensures Rewritten(names, base, pack, tensors).error in {PackFailed, PackedSize}
  {
    hide FormatOf, Q8Size;
    var n := |tensors| - 1;
    if Rewritten(names, base, pack, tensors[..n]).Err? {
      RewriteErrors(names, base, pack, tensors[..n]);
    }
  }

  /** Every selected name is in the model, so the final count agrees. */
  lemma AllPromoted(policy: PolicyFile, tensors: seq<Tensor>, names: set<string>, pack: Packer)
    requires FitsModel(policy, tensors) && DistinctTensors(tensors) && forall n | n in names :: HasName(policy.selected, n)
    requires Rewritten(names, policy.base, pack, tensors).Ok?
    ensures |Rewritten(names, policy.base, pack, tensors).value.promoted| == |names|
  {
    hide Rewritten, Extra, Growth, FormatOf, Reported, PromotedDistinct, Distinct, Anchored;
    PromotedFacts(names, policy.base, pack, tensors);
    forall n | n in names ensures Present(tensors, n) {
      var j :| 0 <= j < |policy.selected| && policy.selected[j].name == n;
      assert Behind(policy.base, tensors, policy.selected[j]);
    }
    CountPromoted(Rewritten(names, policy.base, pack, tensors).value.promoted, names);
  }

  /** What promoting a fitting policy gives. */
  ghost predicate Conforms(policy: PolicyFile, tensors: seq<Tensor>, pack: Packer, o: Outcome) {
    var anchor := AnchorFor(policy.base, policy.promotion);
    var names := NameSet(o.selection.names);
    && ExtraBytes(o.result.promoted) <= policy.budget
    && PayloadBytes(o.result.tensors) == PayloadBytes(tensors) + ExtraBytes(o.result.promoted)
    && NoRepeats(o.selection.names) && AnchorsFirst(anchor, o.selection.names)
    && (forall n | n in o.requested && n != "" :: n in names)
    && (forall n | n in names :: HasName(policy.selected, n))
    && |o.result.tensors| == |tensors|
    && (forall i | 0 <= i < |tensors| :: ComesOut(names, policy.base, pack, tensors[i], o.result.tensors[i]))
  }

  /** For a policy built from this model: whatever the filter and the cap, the promotion stays within the byte budget,
      promotes an anchor-closed part of the selection, and changes no other tensor; it can fail only for want of a
      request, a source tensor or a proper packing. */
  lemma PromotionStaysInBudget(req: Request, tensors: seq<Tensor>, filters: seq<string>, cap: Option<int>,
                               source: set<string>, pack: Packer)
    requires DistinctTensors(tensors) && PolicyOf(req, tensors).Ok? && req.promotion == "q8"
    ensures var policy := PolicyOf(req, tensors).value;
            match PromotionOf(policy, tensors, filters, cap, source, pack)
            case Ok(o) => policy.budget == req.budget && Conforms(policy, tensors, pack, o)
            case Err(e) => e in {NothingSelected, SourceMissing, PackFailed, PackedSize}
  {
    hide Requested, Expanded, Rewritten, Available, PolicyOf, FitsModel, HasName, NoRepeats, AnchorsFirst, ComesOut, AnchorFor,
         ExtraBytes, PayloadBytes, GrowthOf, DistinctTensors;
    var policy := PolicyOf(req, tensors).value;
    PolicyFields(req, tensors);
    BuiltPolicyFits(req, tensors);
    ExpansionStaysInside(policy, tensors, filters, cap);
    var e := Expanded(AnchorFor(policy.base, policy.promotion), Available(policy, tensors), Requested(policy, filters, cap)).value;
    var names := NameSet(e.names);
    forall i | 0 <= i < |tensors| && tensors[i].name in names ensures FormatOf(tensors[i].quantType) == policy.base {
      SelectedTensor(policy, tensors, i);
    }
    hide FormatOf;
    if Rewritten(names, policy.base, pack, tensors).Err? {
      RewriteErrors(names, policy.base, pack, tensors);
    } else {
      RewriteKeepsOrder(names, policy.base, pack, tensors);
      RewriteCost(names, policy.base, pack, tensors);
      PartWithinBudget(policy, tensors, names);
      AllPromoted(policy, tensors, names, pack);
    }
  }
}
