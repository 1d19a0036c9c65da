/** The greedy byte-budget allocator of `build_policy` in scripts/astrea.py, for any anchor rule in which anchors have no
    anchors themselves. */
module Allocator {
  import opened Wrappers

  /** A candidate tensor: `extra` is the growth in bytes if it is promoted. */
  datatype Item = Item(name: string, alias: Option<string>, extra: int, score: real)

  datatype Reason = AnchorMissing | OverBudget

  datatype Skip = Skip(item: Item, reason: Reason)

  /** The loop's variables; `added` lists the anchors that were pulled in, each with the name that needed it. */
  datatype Allocation = Allocation(selected: seq<Item>, skipped: seq<Skip>, remaining: int, added: seq<(string, string)>)

  type AnchorRule = string -> Option<string>

  ghost predicate Flat(anchor: AnchorRule) {
    forall n :: NotChained(anchor, n)
  }

  predicate NotChained(anchor: AnchorRule, n: string) {
    anchor(n).Some? ==> anchor(anchor(n).value) == None
  }

  predicate HasName(items: seq<Item>, name: string) {
    exists i :: 0 <= i < |items| && items[i].name == name
  }

  ghost predicate Distinct(items: seq<Item>) {
    forall i, j | 0 <= i < j < |items| :: items[i].name != items[j].name
  }

  function Extra(items: seq<Item>): int {
    if items == [] then 0 else Extra(items[..|items| - 1]) + items[|items| - 1].extra
  }

  /** Every item that needs an anchor comes after it. */
  ghost predicate AnchoredAt(anchor: AnchorRule, items: seq<Item>, i: nat)
    requires i < |items|
  {
    anchor(items[i].name).Some? ==> HasName(items[..i], anchor(items[i].name).value)
  }

  ghost predicate Anchored(anchor: AnchorRule, items: seq<Item>) {
    forall i | 0 <= i < |items| :: AnchoredAt(anchor, items, i)
  }

  /** A candidate list as `build_policy` makes it: distinct names, positive growth. */
  ghost predicate Candidates(items: seq<Item>) {
    && Distinct(items)
    && forall i | 0 <= i < |items| :: items[i].extra > 0
  }

  function Find(items: seq<Item>, name: string): (r: Option<Item>)
    ensures r.Some? ==> r.value in items && r.value.name == name
    ensures r.None? ==> !HasName(items, name)
  {
    if items == [] then None
    else
      var n := |items| - 1;
      if items[n].name == name then Some(items[n])
      else
        var r := Find(items[..n], name);
        r
  }

  /** The bundle of an item: its anchor, if it needs one that is not selected yet, and the item. */
  function Bundle(anchor: AnchorRule, candidates: seq<Item>, selected: seq<Item>, item: Item): Option<seq<Item>> {
    match anchor(item.name)
    case None => Some([item])
    case Some(a) =>
      if HasName(selected, a) then Some([item])
      else
        match Find(candidates, a)
        case None => None
        case Some(anchorItem) => Some([anchorItem, item])
  }

  /** The anchor of a bundle that has one, with the item that needs it. */
  function PulledIn(bundle: seq<Item>): seq<(string, string)> {
    if |bundle| == 2 then [(bundle[0].name, bundle[1].name)] else []
  }

  /** One pass of the allocation loop. */
  function Step(anchor: AnchorRule, candidates: seq<Item>, st: Allocation, item: Item): Allocation {
    if HasName(st.selected, item.name) then st
    else
      match Bundle(anchor, candidates, st.selected, item)
      case None => st.(skipped := st.skipped + [Skip(item, AnchorMissing)])
      case Some(bundle) =>
        if Extra(bundle) <= st.remaining then
          st.(selected := st.selected + bundle, remaining := st.remaining - Extra(bundle), added := st.added + PulledIn(bundle))
        else st.(skipped := st.skipped + [Skip(item, OverBudget)])
  }

  /** The state after the first `k` passes. */
  function Run(anchor: AnchorRule, candidates: seq<Item>, budget: int, k: nat): Allocation
    requires k <= |candidates|
  {
    if k == 0 then Allocation([], [], budget, [])
    else Step(anchor, candidates, Run(anchor, candidates, budget, k - 1), candidates[k - 1])
  }

  // ---------- what every pass keeps ----------

  /** What a skipped item would still cost: itself, and its anchor unless that is selected by now. */
  ghost function StillNeeded(anchor: AnchorRule, candidates: seq<Item>, selected: seq<Item>, item: Item): int {
    match anchor(item.name)
    case None => item.extra
    case Some(a) =>
      if HasName(selected, a) then item.extra
      else match Find(candidates, a) case None => item.extra case Some(x) => item.extra + x.extra
  }

  /** Why an item stays skipped: its anchor is no candidate, or what it still needs exceeds what is left. */
  ghost predicate Justified(anchor: AnchorRule, candidates: seq<Item>, st: Allocation, s: Skip) {
    && s.item in candidates
    && !HasName(st.selected, s.item.name)
    && match s.reason
       case AnchorMissing => anchor(s.item.name).Some? && !HasName(candidates, anchor(s.item.name).value)
       case OverBudget => StillNeeded(anchor, candidates, st.selected, s.item) > st.remaining
  }

  ghost predicate SkipsDistinct(skipped: seq<Skip>) {
    forall i, j | 0 <= i < j < |skipped| :: skipped[i].item.name != skipped[j].item.name
  }

  ghost predicate Skipped(st: Allocation, name: string) {
    exists i :: 0 <= i < |st.skipped| && st.skipped[i].item.name == name
  }

  /** The invariant after the first `done` candidates. */
  ghost predicate Invariant(anchor: AnchorRule, candidates: seq<Item>, budget: int, st: Allocation, done: nat) {
    && done <= |candidates|
    && Distinct(st.selected) && Anchored(anchor, st.selected)
    && (forall i | 0 <= i < |st.selected| :: st.selected[i] in candidates)
    && st.remaining == budget - Extra(st.selected) && st.remaining >= 0
    && SkipsDistinct(st.skipped)
    && (forall i | 0 <= i < |st.skipped| :: Justified(anchor, candidates, st, st.skipped[i]))
    && (forall i | 0 <= i < |st.skipped| :: HasName(candidates[..done], st.skipped[i].item.name))
    && (forall i | 0 <= i < done :: HasName(st.selected, candidates[i].name) || Skipped(st, candidates[i].name))
  }

  lemma HasNameAppend(a: seq<Item>, b: seq<Item>, name: string)
    ensures HasName(a + b, name) <==> HasName(a, name) || HasName(b, name)
  {
    if i :| 0 <= i < |a| && a[i].name == name {
      assert (a + b)[i].name == name;
    }
    if i :| 0 <= i < |b| && b[i].name == name {
      assert (a + b)[|a| + i].name == name;
    }
    if i :| 0 <= i < |a + b| && (a + b)[i].name == name {
      assert if i < |a| then a[i].name == name else b[i - |a|].name == name;
    }
  }

  lemma {:induction false} ExtraAppend(a: seq<Item>, b: seq<Item>)
    ensures Extra(a + b) == Extra(a) + Extra(b)
  {
    if b == [] {
      assert a + b == a;
    } else {
      assert (a + b)[..|a + b| - 1] == a + b[..|b| - 1];
      ExtraAppend(a, b[..|b| - 1]);
    }
  }

  lemma ExtraOfBundle(x: Item, y: Item)
    ensures Extra([x]) == x.extra && Extra([x, y]) == x.extra + y.extra
  {
    assert [x, y][..1] == [x] && [x][..0] == [];
  }

  /** Appending a fresh item whose anchor is already there. */
  lemma AppendOne(anchor: AnchorRule, selected: seq<Item>, x: Item)
    requires Distinct(selected) && Anchored(anchor, selected) && !HasName(selected, x.name)
    requires anchor(x.name).Some? ==> HasName(selected, anchor(x.name).value)
    ensures Distinct(selected + [x]) && Anchored(anchor, selected + [x])
  {
    hide HasName;
    var s := selected + [x];
    forall i, j | 0 <= i < j < |s| ensures s[i].name != s[j].name {
      if j == |selected| {
        NotNamed(selected, x.name, i);
      }
    }
    forall i | 0 <= i < |s| ensures AnchoredAt(anchor, s, i) {
      if i < |selected| {
        assert s[..i] == selected[..i];
        assert AnchoredAt(anchor, selected, i);
      } else {
        assert s[..i] == selected;
      }
    }
  }

  lemma NotNamed(items: seq<Item>, name: string, i: nat)
    requires !HasName(items, name) && i < |items|
    ensures items[i].name != name
  {
  }

  /** In a list of distinct names the name determines the item. */
  lemma SameNameSameItem(items: seq<Item>, x: Item, y: Item)
    requires Distinct(items) && x in items && y in items && x.name == y.name
    ensures x == y
  {
    var i :| 0 <= i < |items| && items[i] == x;
    var j :| 0 <= j < |items| && items[j] == y;
  }

  lemma FindIs(items: seq<Item>, x: Item)
    requires Distinct(items) && x in items
    ensures Find(items, x.name) == Some(x)
  {
    hide Find;
    var i :| 0 <= i < |items| && items[i] == x;
    assert HasName(items, x.name);
    SameNameSameItem(items, x, Find(items, x.name).value);
  }

  /** Selecting `y` lowers what a skipped item still needs by at most what `y` costs. */
  lemma StillNeededFalls(anchor: AnchorRule, candidates: seq<Item>, selected: seq<Item>, x: Item, y: Item)
    requires Candidates(candidates) && y in candidates
    ensures StillNeeded(anchor, candidates, selected + [y], x) >= StillNeeded(anchor, candidates, selected, x) - y.extra
  {
    hide HasName, Find;
    assert y.extra > 0;
    if anchor(x.name).Some? {
      var a := anchor(x.name).value;
      HasNameAppend(selected, [y], a);
      SingleName(y, a);
      if a == y.name {
        FindIs(candidates, y);
      }
    }
  }

  lemma SingleName(y: Item, name: string)
    ensures HasName([y], name) <==> y.name == name
  {
    if y.name == name {
      assert [y][0].name == name;
    }
  }

  lemma JustifiedStays(anchor: AnchorRule, candidates: seq<Item>, st: Allocation, s: Skip, y: Item)
    requires Candidates(candidates) && y in candidates && Justified(anchor, candidates, st, s) && y.name != s.item.name
    ensures Justified(anchor, candidates, st.(selected := st.selected + [y], remaining := st.remaining - y.extra), s)
  {
    hide HasName, StillNeeded, Candidates;
    HasNameAppend(st.selected, [y], s.item.name);
    SingleName(y, s.item.name);
    StillNeededFalls(anchor, candidates, st.selected, s.item, y);
  }

  lemma CandidateName(candidates: seq<Item>, y: Item)
    requires Candidates(candidates) && y in candidates
    ensures y.extra > 0
  {
  }

  /** Selecting one more item that is neither selected nor skipped, fits, and has its anchor. */
  lemma SelectOne(anchor: AnchorRule, candidates: seq<Item>, budget: int, st: Allocation, done: nat, y: Item)
    requires Candidates(candidates) && Invariant(anchor, candidates, budget, st, done)
    requires y in candidates && y.extra <= st.remaining && !HasName(st.selected, y.name) && !Skipped(st, y.name)
    requires anchor(y.name).Some? ==> HasName(st.selected, anchor(y.name).value)
    ensures Invariant(anchor, candidates, budget,
                      st.(selected := st.selected + [y], remaining := st.remaining - y.extra), done)
  {
    hide HasName, Justified, Distinct, Anchored, Extra, Candidates, SkipsDistinct;
    var st' := st.(selected := st.selected + [y], remaining := st.remaining - y.extra);
    AppendOne(anchor, st.selected, y);
    ExtraAppend(st.selected, [y]);
    ExtraOfBundle(y, y);
    forall i | 0 <= i < |st.skipped| ensures Justified(anchor, candidates, st', st.skipped[i]) {
      assert Justified(anchor, candidates, st, st.skipped[i]);
      assert st.skipped[i].item.name != y.name;
      JustifiedStays(anchor, candidates, st, st.skipped[i], y);
    }
    forall i | 0 <= i < done ensures HasName(st'.selected, candidates[i].name) || Skipped(st', candidates[i].name) {
      HasNameAppend(st.selected, [y], candidates[i].name);
      SkippedSame(st, st', candidates[i].name);
    }
  }

  lemma SkippedSame(st: Allocation, st': Allocation, name: string)
    requires st.skipped == st'.skipped
    ensures Skipped(st, name) == Skipped(st', name)
  {
  }

  /** The next candidate is accounted for. */
  lemma Advance(anchor: AnchorRule, candidates: seq<Item>, budget: int, st: Allocation, done: nat)
    requires Invariant(anchor, candidates, budget, st, done) && done < |candidates|
    requires HasName(st.selected, candidates[done].name) || Skipped(st, candidates[done].name)
    ensures Invariant(anchor, candidates, budget, st, done + 1)
  {
    hide HasName, Justified, Distinct, Anchored, Extra, SkipsDistinct, Skipped;
    forall i | 0 <= i < |st.skipped| ensures HasName(candidates[..done + 1], st.skipped[i].item.name) {
      assert candidates[..done + 1] == candidates[..done] + [candidates[done]];
      HasNameAppend(candidates[..done], [candidates[done]], st.skipped[i].item.name);
    }
  }

  /** Skipping the next candidate for a good reason. */
  lemma SkipOne(anchor: AnchorRule, candidates: seq<Item>, budget: int, st: Allocation, done: nat, s: Skip)
    requires Candidates(candidates) && Invariant(anchor, candidates, budget, st, done) && done < |candidates|
    requires s.item == candidates[done] && Justified(anchor, candidates, st, s)
    ensures Invariant(anchor, candidates, budget, st.(skipped := st.skipped + [s]), done + 1)
  {
    hide Distinct, Anchored, Extra, StillNeeded;
    var st' := st.(skipped := st.skipped + [s]);
    NextIsNew(candidates, st, done);
    assert SkipsDistinct(st'.skipped);
    SkipMore(anchor, candidates, budget, st, st', done, s);
  }

  lemma NextIsNew(candidates: seq<Item>, st: Allocation, done: nat)
    requires Distinct(candidates) && done < |candidates|
    requires forall i | 0 <= i < |st.skipped| :: HasName(candidates[..done], st.skipped[i].item.name)
    ensures forall i | 0 <= i < |st.skipped| :: st.skipped[i].item.name != candidates[done].name
    ensures !Skipped(st, candidates[done].name)
  {
    forall i | 0 <= i < |st.skipped| ensures st.skipped[i].item.name != candidates[done].name {
      assert HasName(candidates[..done], st.skipped[i].item.name);
    }
  }

  lemma SkipMore(anchor: AnchorRule, candidates: seq<Item>, budget: int, st: Allocation, st': Allocation, done: nat, s: Skip)
    requires Invariant(anchor, candidates, budget, st, done) && done < |candidates|
    requires s.item == candidates[done] && Justified(anchor, candidates, st, s)
    requires st' == st.(skipped := st.skipped + [s]) && SkipsDistinct(st'.skipped)
    ensures Invariant(anchor, candidates, budget, st', done + 1)
  {
    hide HasName, Distinct, Anchored, Extra, SkipsDistinct, StillNeeded;
    forall i | 0 <= i < |st'.skipped| ensures Justified(anchor, candidates, st', st'.skipped[i]) {
      if i < |st.skipped| {
        assert Justified(anchor, candidates, st, st.skipped[i]);
      }
    }
    forall i | 0 <= i < |st'.skipped| ensures HasName(candidates[..done + 1], st'.skipped[i].item.name) {
      assert candidates[..done + 1] == candidates[..done] + [candidates[done]];
      HasNameAppend(candidates[..done], [candidates[done]], st'.skipped[i].item.name);
      SingleName(candidates[done], st'.skipped[i].item.name);
    }
    forall i | 0 <= i <= done ensures HasName(st'.selected, candidates[i].name) || Skipped(st', candidates[i].name) {
      if i < done {
        if Skipped(st, candidates[i].name) {
          SkippedMore(st, st', candidates[i].name);
        }
      } else {
        assert st'.skipped[|st.skipped|].item.name == candidates[i].name;
      }
    }
  }

  lemma SkippedMore(st: Allocation, st': Allocation, name: string)
    requires st.skipped <= st'.skipped && Skipped(st, name)
    ensures Skipped(st', name)
  {
    var i :| 0 <= i < |st.skipped| && st.skipped[i].item.name == name;
    assert st'.skipped[i].item.name == name;
  }

  /** A skipped candidate is never pulled in later as an anchor: the bundle would not fit. */
  lemma AnchorNotSkipped(anchor: AnchorRule, candidates: seq<Item>, budget: int, st: Allocation, done: nat, a: Item, item: Item)
    requires Candidates(candidates) && Invariant(anchor, candidates, budget, st, done)
    requires a in candidates && item in candidates && anchor(a.name) == None
    requires a.extra + item.extra <= st.remaining
    ensures !Skipped(st, a.name)
  {
    hide Distinct, Anchored, Extra, SkipsDistinct;
    if i :| 0 <= i < |st.skipped| && st.skipped[i].item.name == a.name {
      assert Justified(anchor, candidates, st, st.skipped[i]);
      SameNameSameItem(candidates, a, st.skipped[i].item);
      CandidateName(candidates, item);
      assert false;
    }
  }

  /** One pass keeps the invariant. */
  lemma StepKeeps(anchor: AnchorRule, candidates: seq<Item>, budget: int, st: Allocation, done: nat)
    requires Flat(anchor) && Candidates(candidates) && Invariant(anchor, candidates, budget, st, done) && done < |candidates|
    ensures Invariant(anchor, candidates, budget, Step(anchor, candidates, st, candidates[done]), done + 1)
  {
    hide Invariant, Candidates, HasName, Find, Skipped, Extra, Justified;
    var item := candidates[done];
    if HasName(st.selected, item.name) {
      Advance(anchor, candidates, budget, st, done);
    } else {
      match Bundle(anchor, candidates, st.selected, item)
      case None =>
        MissingJustified(anchor, candidates, st, item);
        SkipOne(anchor, candidates, budget, st, done, Skip(item, AnchorMissing));
      case Some(bundle) =>
        if Extra(bundle) <= st.remaining {
          SelectBundle(anchor, candidates, budget, st, done, bundle);
          AddedDoesNotMatter(anchor, candidates, budget,
                             st.(selected := st.selected + bundle, remaining := st.remaining - Extra(bundle)), done + 1,
                             st.added + PulledIn(bundle));
        } else {
          OverBudgetJustified(anchor, candidates, st, item, bundle);
          SkipOne(anchor, candidates, budget, st, done, Skip(item, OverBudget));
        }
    }
  }

  lemma AddedDoesNotMatter(anchor: AnchorRule, candidates: seq<Item>, budget: int, st: Allocation, done: nat, added: seq<(string, string)>)
    requires Invariant(anchor, candidates, budget, st, done)
    ensures Invariant(anchor, candidates, budget, st.(added := added), done)
  {
    hide HasName, Distinct, Anchored, Extra, SkipsDistinct, StillNeeded;
    var st' := st.(added := added);
    forall i | 0 <= i < |st.skipped| ensures Justified(anchor, candidates, st', st.skipped[i]) {
      assert Justified(anchor, candidates, st, st.skipped[i]);
    }
    forall i | 0 <= i < done ensures HasName(st'.selected, candidates[i].name) || Skipped(st', candidates[i].name) {
      SkippedSame(st, st', candidates[i].name);
    }
  }

  lemma MissingJustified(anchor: AnchorRule, candidates: seq<Item>, st: Allocation, item: Item)
    requires item in candidates && !HasName(st.selected, item.name) && Bundle(anchor, candidates, st.selected, item).None?
    ensures Justified(anchor, candidates, st, Skip(item, AnchorMissing))
  {
    hide HasName, Find;
  }

  lemma OverBudgetJustified(anchor: AnchorRule, candidates: seq<Item>, st: Allocation, item: Item, bundle: seq<Item>)
    requires item in candidates && !HasName(st.selected, item.name)
    requires Bundle(anchor, candidates, st.selected, item) == Some(bundle) && Extra(bundle) > st.remaining
    ensures Justified(anchor, candidates, st, Skip(item, OverBudget))
  {
    hide HasName, Find, Extra;
    ExtraOfBundle(bundle[0], item);
    ExtraOfBundle(item, item);
  }

  lemma SelectBundle(anchor: AnchorRule, candidates: seq<Item>, budget: int, st: Allocation, done: nat, bundle: seq<Item>)
    requires Flat(anchor) && Candidates(candidates) && Invariant(anchor, candidates, budget, st, done) && done < |candidates|
    requires !HasName(st.selected, candidates[done].name)
    requires Bundle(anchor, candidates, st.selected, candidates[done]) == Some(bundle) && Extra(bundle) <= st.remaining
    ensures Invariant(anchor, candidates, budget,
                      st.(selected := st.selected + bundle, remaining := st.remaining - Extra(bundle)), done + 1)
  {
    hide Invariant, Candidates, HasName, Find, Skipped, Extra;
    var item := candidates[done];
    assert !Skipped(st, item.name) by { NewFromInvariant(anchor, candidates, budget, st, done); }
    var before, base := st, st.selected;
    if |bundle| == 2 {
      var a := bundle[0];
      assert NotChained(anchor, item.name);
      ExtraOfBundle(a, item);
      AnchorNotSkipped(anchor, candidates, budget, st, done, a, item);
      CandidateName(candidates, item);
      SelectOne(anchor, candidates, budget, st, done, a);
      before := st.(selected := st.selected + [a], remaining := st.remaining - a.extra);
      HasNameAppend(st.selected, [a], item.name);
      HasNameAppend(st.selected, [a], a.name);
      SingleName(a, item.name);
      SingleName(a, a.name);
      SkippedSame(st, before, item.name);
      assert st.selected + bundle == before.selected + [item];
    } else {
      ExtraOfBundle(item, item);
    }
    SelectOne(anchor, candidates, budget, before, done, item);
    var after := before.(selected := before.selected + [item], remaining := before.remaining - item.extra);
    HasNameAppend(before.selected, [item], item.name);
    SingleName(item, item.name);
    Advance(anchor, candidates, budget, after, done);
  }

  lemma NewFromInvariant(anchor: AnchorRule, candidates: seq<Item>, budget: int, st: Allocation, done: nat)
    requires Candidates(candidates) && Invariant(anchor, candidates, budget, st, done) && done < |candidates|
    ensures !Skipped(st, candidates[done].name)
  {
    hide HasName, Distinct, Justified, Anchored, Extra;
    NextIsNew(candidates, st, done);
  }

  // ---------- the loop ----------

  ghost function Names(items: seq<Item>): set<string> {
    set i | 0 <= i < |items| :: items[i].name
  }

  lemma NamesAre(items: seq<Item>, name: string)
    ensures name in Names(items) <==> HasName(items, name)
  {
  }

  lemma NamesAppend(items: seq<Item>, x: Item)
    ensures Names(items + [x]) == Names(items) + {x.name}
  {
    forall n: string ensures n in Names(items + [x]) <==> n in Names(items) + {x.name} {
      HasNameAppend(items, [x], n);
      SingleName(x, n);
      NamesAre(items + [x], n);
      NamesAre(items, n);
    }
  }

  /** The `unique_bundle` loop: drops what is selected already or repeated; a bundle has neither. */
  method UniqueBundle(bundle: seq<Item>, selectedNames: set<string>) returns (unique: seq<Item>)
    requires Distinct(bundle) && forall i | 0 <= i < |bundle| :: bundle[i].name !in selectedNames
    ensures unique == bundle
  {
    unique := [];
    var bundleNames: set<string> := {};
    for k := 0 to |bundle|
      invariant unique == bundle[..k]
      invariant forall n :: n in bundleNames <==> exists i :: 0 <= i < k && bundle[i].name == n
    {
      var name := bundle[k].name;
      if name !in selectedNames && name !in bundleNames {
        unique := unique + [bundle[k]];
        bundleNames := bundleNames + {name};
      } else {
        assert false;
      }
    }
  }

  /** Adds a bundle that fits, item by item. */
  method TakeBundle(bundle: seq<Item>, selected: seq<Item>, selectedNames: set<string>, remaining: int)
    returns (selected': seq<Item>, selectedNames': set<string>, remaining': int)
    requires selectedNames == Names(selected)
    ensures selected' == selected + bundle && selectedNames' == Names(selected') && remaining' == remaining - Extra(bundle)
  {
    hide Names, Extra;
    selected', selectedNames', remaining' := selected, selectedNames, remaining;
    ExtraPrefix(bundle, 0);
    for k := 0 to |bundle|
      invariant selected' == selected + bundle[..k] && selectedNames' == Names(selected')
      invariant remaining' == remaining - Extra(bundle[..k])
    {
      NamesAppend(selected', bundle[k]);
      ExtraPrefix(bundle, k);
      selected' := selected' + [bundle[k]];
      selectedNames' := selectedNames' + {bundle[k].name};
      remaining' := remaining' - bundle[k].extra;
    }
    assert bundle[..|bundle|] == bundle;
  }

  lemma ExtraPrefix(items: seq<Item>, k: nat)
    ensures Extra(items[..0]) == 0
    ensures k < |items| ==> Extra(items[..k + 1]) == Extra(items[..k]) + items[k].extra
  {
    if k < |items| {
      assert items[..k + 1][..k] == items[..k];
    }
  }

  /** A bundle consists of distinct candidates that are not selected yet. */
  lemma BundleFresh(anchor: AnchorRule, candidates: seq<Item>, selected: seq<Item>, item: Item, bundle: seq<Item>)
    requires Flat(anchor) && !HasName(selected, item.name) && Bundle(anchor, candidates, selected, item) == Some(bundle)
    ensures Distinct(bundle) && forall i | 0 <= i < |bundle| :: bundle[i].name !in Names(selected)
  {
    hide HasName, Find, Names;
    assert NotChained(anchor, item.name);
    forall i | 0 <= i < |bundle| ensures bundle[i].name !in Names(selected) {
      NamesAre(selected, bundle[i].name);
    }
  }

  /** The selection loop of `build_policy`. */
  method Allocate(anchor: AnchorRule, candidates: seq<Item>, budget: int) returns (st: Allocation)
    requires Flat(anchor) && Candidates(candidates) && budget >= 0
    ensures st == Run(anchor, candidates, budget, |candidates|)
    ensures Invariant(anchor, candidates, budget, st, |candidates|)
  {
    hide Invariant, Candidates, HasName, Find, Extra, Names, Flat, Distinct;
    var selected: seq<Item>, selectedNames: set<string>, skipped: seq<Skip>, remaining := [], {}, [], budget;
    var added: seq<(string, string)> := [];
    NothingYet(anchor, candidates, budget);
    for k := 0 to |candidates|
      invariant selectedNames == Names(selected)
      invariant Allocation(selected, skipped, remaining, added) == Run(anchor, candidates, budget, k)
      invariant Invariant(anchor, candidates, budget, Allocation(selected, skipped, remaining, added), k)
    {
      var item := candidates[k];
      StepKeeps(anchor, candidates, budget, Allocation(selected, skipped, remaining, added), k);
      NamesAre(selected, item.name);
      if item.name !in selectedNames {
        var a := anchor(item.name);
        var bundle := [item];
        var missing := false;
        if a.Some? {
          NamesAre(selected, a.value);
          if a.value !in selectedNames {
            var anchorItem := Find(candidates, a.value);
            missing := anchorItem.None?;
            if anchorItem.Some? {
              bundle := [anchorItem.value, item];
            }
          }
        }
        if missing {
          skipped := skipped + [Skip(item, AnchorMissing)];
        } else {
          BundleFresh(anchor, candidates, selected, item, bundle);
          var unique := UniqueBundle(bundle, selectedNames);
          if Extra(unique) <= remaining {
            selected, selectedNames, remaining := TakeBundle(unique, selected, selectedNames, remaining);
            added := added + PulledIn(unique);
          } else {
            skipped := skipped + [Skip(item, OverBudget)];
          }
        }
      }
    }
    st := Allocation(selected, skipped, remaining, added);
  }

  /** Every state of every run keeps the invariant. */
  lemma {:induction false} RunKeeps(anchor: AnchorRule, candidates: seq<Item>, budget: int, k: nat)
    requires Flat(anchor) && Candidates(candidates) && budget >= 0 && k <= |candidates|
    ensures Invariant(anchor, candidates, budget, Run(anchor, candidates, budget, k), k)
  {
    hide Invariant, Candidates, Flat, Step;
    if k == 0 {
      NothingYet(anchor, candidates, budget);
    } else {
      RunKeeps(anchor, candidates, budget, k - 1);
      StepKeeps(anchor, candidates, budget, Run(anchor, candidates, budget, k - 1), k - 1);
    }
  }

  lemma NothingYet(anchor: AnchorRule, candidates: seq<Item>, budget: int)
    requires budget >= 0
    ensures Invariant(anchor, candidates, budget, Allocation([], [], budget, []), 0) && Names([]) == {}
  {
  }

  /** What a finished allocation guarantees: within budget, no duplicates, every anchor first, selected and skipped names
      partition the candidates, and no skipped item (with the anchor it still lacks) fits what is left. */
  lemma PolicyGuarantees(anchor: AnchorRule, candidates: seq<Item>, budget: int, st: Allocation, name: string)
    requires Invariant(anchor, candidates, budget, st, |candidates|)
    ensures Extra(st.selected) + st.remaining == budget && Extra(st.selected) <= budget
    ensures Distinct(st.selected) && SkipsDistinct(st.skipped) && Anchored(anchor, st.selected)
    ensures HasName(candidates, name) <==> HasName(st.selected, name) || Skipped(st, name)
    ensures !(HasName(st.selected, name) && Skipped(st, name))
    ensures forall s | s in st.skipped && s.reason == OverBudget ::
              StillNeeded(anchor, candidates, st.selected, s.item) > st.remaining
  {
    hide Extra, Distinct, SkipsDistinct, Anchored, StillNeeded;
    assert candidates[..|candidates|] == candidates;
    if i :| 0 <= i < |candidates| && candidates[i].name == name {
      assert HasName(st.selected, candidates[i].name) || Skipped(st, candidates[i].name);
    }
    if i :| 0 <= i < |st.selected| && st.selected[i].name == name {
      assert st.selected[i] in candidates;
    }
    if i :| 0 <= i < |st.skipped| && st.skipped[i].item.name == name {
      assert Justified(anchor, candidates, st, st.skipped[i]);
    }
  }
}
