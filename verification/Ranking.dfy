/** What the order of the candidates means for an allocation: selected items that were not pulled in as anchors stand in
    that order, and a candidate is passed over for want of bytes only if it did not fit when its turn came. */
module Ranking {
  import opened Wrappers
  import opened Sorting
  import opened Allocator

  type Order = (Item, Item) -> bool

  /** The item was pulled in as the anchor of another one. */
  ghost predicate Pulled(added: seq<(string, string)>, x: Item) {
    exists k :: 0 <= k < |added| && added[k].0 == x.name
  }

  /** Items that came up on their own stand in order. */
  ghost predicate InOrder(le: Order, selected: seq<Item>, added: seq<(string, string)>) {
    forall i, j | 0 <= i < j < |selected| && !Pulled(added, selected[i]) && !Pulled(added, selected[j]) ::
      le(selected[i], selected[j])
  }

  /** `x`, with the anchor it lacks after `before`, needs more than `left`. */
  ghost predicate DoesNotFit(anchor: AnchorRule, candidates: seq<Item>, before: seq<Item>, x: Item, left: int) {
    if anchor(x.name).None? || HasName(before, anchor(x.name).value) then x.extra > left
    else exists y :: y in candidates && y.name == anchor(x.name).value && y.extra + x.extra > left
  }

  /** The turn of `x` came after the first `m` selected items: these rank above it, the later ones below. */
  ghost predicate TurnAt(le: Order, selected: seq<Item>, added: seq<(string, string)>, x: Item, m: nat)
    requires m <= |selected|
  {
    && (m > 0 ==> !Pulled(added, selected[m - 1]))
    && (forall i | 0 <= i < m && !Pulled(added, selected[i]) :: le(selected[i], x))
    && (forall i | m <= i < |selected| && !Pulled(added, selected[i]) :: le(x, selected[i]))
  }

  ghost predicate PassedOver(le: Order, anchor: AnchorRule, candidates: seq<Item>, budget: int, selected: seq<Item>,
                             added: seq<(string, string)>, x: Item)
  {
    exists m: nat | m <= |selected| ::
      TurnAt(le, selected, added, x, m) && DoesNotFit(anchor, candidates, selected[..m], x, budget - Extra(selected[..m]))
  }

  /** Item `i` is an anchor pulled in by the next item, which ranks above it and came up on its own. */
  ghost predicate PulledByNext(le: Order, anchor: AnchorRule, selected: seq<Item>, added: seq<(string, string)>,
                               pair: (string, string), i: nat)
    requires i + 1 < |selected|
  {
    && selected[i].name == pair.0 && selected[i + 1].name == pair.1 && anchor(pair.1) == Some(pair.0)
    && le(selected[i + 1], selected[i]) && !Pulled(added, selected[i + 1])
  }

  ghost predicate PulledWhereNeeded(le: Order, anchor: AnchorRule, selected: seq<Item>, added: seq<(string, string)>,
                                    pair: (string, string))
  {
    exists i: nat | i + 1 < |selected| :: PulledByNext(le, anchor, selected, added, pair, i)
  }

  /** What the order means for the state after the first `done` candidates. */
  ghost predicate RanksKept(le: Order, anchor: AnchorRule, candidates: seq<Item>, budget: int, st: Allocation, done: nat) {
    && done <= |candidates|
    && InOrder(le, st.selected, st.added)
    && (st.selected != [] ==> !Pulled(st.added, st.selected[|st.selected| - 1]))
    && (forall i | 0 <= i < |st.selected| && !Pulled(st.added, st.selected[i]) :: st.selected[i] in candidates[..done])
    && (forall k | 0 <= k < |st.added| :: PulledWhereNeeded(le, anchor, st.selected, st.added, st.added[k]))
    && (forall k | 0 <= k < |st.skipped| && st.skipped[k].reason == OverBudget ::
          PassedOver(le, anchor, candidates, budget, st.selected, st.added, st.skipped[k].item))
    && (forall k | 0 <= k < |st.skipped| :: st.skipped[k].item in candidates[..done])
  }

  // ---------- one pass ----------

  lemma SortedBefore(le: Order, candidates: seq<Item>, done: nat, x: Item)
    requires Sorted(le, candidates) && done < |candidates| && x in candidates[..done]
    ensures le(x, candidates[done])
  {
    var i :| 0 <= i < done && candidates[..done][i] == x;
    assert candidates[i] == x;
  }

  lemma OneMoreDone(candidates: seq<Item>, done: nat)
    requires done < |candidates|
    ensures forall x :: x in candidates[..done] ==> x in candidates[..done + 1]
    ensures candidates[done] in candidates[..done + 1]
  {
    assert candidates[..done + 1] == candidates[..done] + [candidates[done]];
  }

  lemma SkipKeepsRanks(le: Order, anchor: AnchorRule, candidates: seq<Item>, budget: int, st: Allocation, done: nat, reason: Reason)
    requires RanksKept(le, anchor, candidates, budget, st, done) && done < |candidates|
    requires reason == OverBudget ==> PassedOver(le, anchor, candidates, budget, st.selected, st.added, candidates[done])
    ensures RanksKept(le, anchor, candidates, budget, st.(skipped := st.skipped + [Skip(candidates[done], reason)]), done + 1)
  {
    hide InOrder, Pulled, PassedOver, PulledWhereNeeded;
    OneMoreDone(candidates, done);
  }

  lemma StayKeepsRanks(le: Order, anchor: AnchorRule, candidates: seq<Item>, budget: int, st: Allocation, done: nat)
    requires RanksKept(le, anchor, candidates, budget, st, done) && done < |candidates|
    ensures RanksKept(le, anchor, candidates, budget, st, done + 1)
  {
    hide InOrder, Pulled, PassedOver, PulledWhereNeeded;
    OneMoreDone(candidates, done);
  }

  /** A candidate that does not fit now is passed over at the end of what is selected. */
  lemma PassedOverNow(le: Order, anchor: AnchorRule, candidates: seq<Item>, budget: int, st: Allocation, done: nat, bundle: seq<Item>)
    requires Sorted(le, candidates) && RanksKept(le, anchor, candidates, budget, st, done) && done < |candidates|
    requires Bundle(anchor, candidates, st.selected, candidates[done]) == Some(bundle)
    requires st.remaining == budget - Extra(st.selected) && Extra(bundle) > st.remaining
    ensures PassedOver(le, anchor, candidates, budget, st.selected, st.added, candidates[done])
  {
    hide Pulled, Sorted, InOrder, PulledWhereNeeded, Extra, Find, HasName;
    var x, m := candidates[done], |st.selected|;
    assert st.selected[..m] == st.selected;
    forall i | 0 <= i < m && !Pulled(st.added, st.selected[i]) ensures le(st.selected[i], x) {
      SortedBefore(le, candidates, done, st.selected[i]);
    }
    ExtraOfBundle(bundle[0], x);
    ExtraOfBundle(x, x);
    assert TurnAt(le, st.selected, st.added, x, m);
    assert DoesNotFit(anchor, candidates, st.selected, x, budget - Extra(st.selected));
  }

  /** Adding an anchor that is not selected yet leaves the selected items as they were. */
  lemma PulledSame(selected: seq<Item>, added: seq<(string, string)>, pair: (string, string), i: nat)
    requires i < |selected| && !HasName(selected, pair.0)
    ensures Pulled(added + [pair], selected[i]) <==> Pulled(added, selected[i])
  {
    var all := added + [pair];
    if k :| 0 <= k < |added| && added[k].0 == selected[i].name {
      assert all[k].0 == selected[i].name;
    }
    if k :| 0 <= k < |all| && all[k].0 == selected[i].name {
      assert k < |added| ==> added[k].0 == selected[i].name;
    }
  }

  /** The bundle as it is appended: the last item is not pulled, an item before it is. */
  ghost predicate Appended(st: Allocation, bundle: seq<Item>, item: Item, added': seq<(string, string)>) {
    && (bundle == [item] || (|bundle| == 2 && bundle[1] == item && Pulled(added', bundle[0])))
    && (forall i | 0 <= i < |st.selected| :: Pulled(added', st.selected[i]) <==> Pulled(st.added, st.selected[i]))
    && !Pulled(added', item)
  }

  lemma AddedAreSelected(le: Order, anchor: AnchorRule, selected: seq<Item>, added: seq<(string, string)>, k: nat)
    requires k < |added| && PulledWhereNeeded(le, anchor, selected, added, added[k])
    ensures HasName(selected, added[k].0)
  {
    hide Pulled;
    var i: nat :| i + 1 < |selected| && PulledByNext(le, anchor, selected, added, added[k], i);
  }

  lemma BundleIsAppended(le: Order, anchor: AnchorRule, candidates: seq<Item>, budget: int, st: Allocation, done: nat, bundle: seq<Item>)
    requires Flat(anchor) && RanksKept(le, anchor, candidates, budget, st, done) && done < |candidates|
    requires !HasName(st.selected, candidates[done].name)
    requires Bundle(anchor, candidates, st.selected, candidates[done]) == Some(bundle)
    ensures Appended(st, bundle, candidates[done], st.added + PulledIn(bundle))
  {
    hide HasName, Find, InOrder, PassedOver, PulledWhereNeeded;
    var item := candidates[done];
    var added' := st.added + PulledIn(bundle);
    assert NotChained(anchor, item.name);
    if |bundle| == 2 {
      var pair := (bundle[0].name, item.name);
      assert added' == st.added + [pair] && added'[|st.added|].0 == bundle[0].name;
      forall i | 0 <= i < |st.selected| ensures Pulled(added', st.selected[i]) <==> Pulled(st.added, st.selected[i]) {
        PulledSame(st.selected, st.added, pair, i);
      }
    } else {
      assert added' == st.added;
    }
    forall k | 0 <= k < |added'| ensures added'[k].0 != item.name {
      if k < |st.added| {
        AddedAreSelected(le, anchor, st.selected, st.added, k);
      }
    }
  }

  lemma OrderAfter(le: Order, candidates: seq<Item>, st: Allocation, bundle: seq<Item>, done: nat, added': seq<(string, string)>)
    requires Sorted(le, candidates) && done < |candidates| && InOrder(le, st.selected, st.added)
    requires forall i | 0 <= i < |st.selected| && !Pulled(st.added, st.selected[i]) :: st.selected[i] in candidates[..done]
    requires Appended(st, bundle, candidates[done], added')
    ensures InOrder(le, st.selected + bundle, added')
  {
    hide Pulled, Sorted;
    var item, s := candidates[done], st.selected + bundle;
    var n := |st.selected|;
    forall i, j | 0 <= i < j < |s| && !Pulled(added', s[i]) && !Pulled(added', s[j]) ensures le(s[i], s[j]) {
      if j >= n {
        assert s[j] == item && i < n;
        SortedBefore(le, candidates, done, s[i]);
      }
    }
  }

  lemma PassedOverStays(le: Order, anchor: AnchorRule, candidates: seq<Item>, budget: int, st: Allocation, bundle: seq<Item>,
                        done: nat, added': seq<(string, string)>, x: Item)
    requires Sorted(le, candidates) && done < |candidates| && x in candidates[..done]
    requires Appended(st, bundle, candidates[done], added')
    requires PassedOver(le, anchor, candidates, budget, st.selected, st.added, x)
    ensures PassedOver(le, anchor, candidates, budget, st.selected + bundle, added', x)
  {
    hide Pulled, Sorted, DoesNotFit, Extra;
    var m: nat :| m <= |st.selected| && TurnAt(le, st.selected, st.added, x, m)
                  && DoesNotFit(anchor, candidates, st.selected[..m], x, budget - Extra(st.selected[..m]));
    var s := st.selected + bundle;
    assert s[..m] == st.selected[..m];
    SortedBefore(le, candidates, done, x);
    forall i | m <= i < |s| && !Pulled(added', s[i]) ensures le(x, s[i]) {
      assert i >= |st.selected| ==> s[i] == candidates[done];
    }
    assert TurnAt(le, s, added', x, m);
  }

  lemma PulledStays(le: Order, anchor: AnchorRule, st: Allocation, bundle: seq<Item>, item: Item, added': seq<(string, string)>,
                    pair: (string, string))
    requires Appended(st, bundle, item, added') && PulledWhereNeeded(le, anchor, st.selected, st.added, pair)
    ensures PulledWhereNeeded(le, anchor, st.selected + bundle, added', pair)
  {
    hide Pulled;
    var i: nat :| i + 1 < |st.selected| && PulledByNext(le, anchor, st.selected, st.added, pair, i);
    assert PulledByNext(le, anchor, st.selected + bundle, added', pair, i);
  }

  lemma SelectKeepsRanks(le: Order, anchor: AnchorRule, candidates: seq<Item>, budget: int, st: Allocation, done: nat, bundle: seq<Item>,
                         st': Allocation)
    requires Flat(anchor) && Sorted(le, candidates) && RanksKept(le, anchor, candidates, budget, st, done) && done < |candidates|
    requires !HasName(st.selected, candidates[done].name)
    requires Bundle(anchor, candidates, st.selected, candidates[done]) == Some(bundle)
    requires |bundle| == 2 ==> le(candidates[done], bundle[0])
    requires st'.selected == st.selected + bundle && st'.added == st.added + PulledIn(bundle) && st'.skipped == st.skipped
    ensures RanksKept(le, anchor, candidates, budget, st', done + 1)
  {
    hide Pulled, Sorted, InOrder, PassedOver, PulledWhereNeeded, HasName, Find, Flat;
    var item := candidates[done];
    BundleIsAppended(le, anchor, candidates, budget, st, done, bundle);
    OrderAfter(le, candidates, st, bundle, done, st'.added);
    OneMoreDone(candidates, done);
    forall k | 0 <= k < |st'.added| ensures PulledWhereNeeded(le, anchor, st'.selected, st'.added, st'.added[k]) {
      if k < |st.added| {
        PulledStays(le, anchor, st, bundle, item, st'.added, st.added[k]);
      } else {
        NewlyPulled(le, anchor, candidates, st, bundle, item, st'.added);
      }
    }
    forall k | 0 <= k < |st.skipped| && st.skipped[k].reason == OverBudget
      ensures PassedOver(le, anchor, candidates, budget, st'.selected, st'.added, st.skipped[k].item)
    {
      PassedOverStays(le, anchor, candidates, budget, st, bundle, done, st'.added, st.skipped[k].item);
    }
  }

  lemma NewlyPulled(le: Order, anchor: AnchorRule, candidates: seq<Item>, st: Allocation, bundle: seq<Item>, item: Item,
                    added': seq<(string, string)>)
    requires |bundle| == 2 && Bundle(anchor, candidates, st.selected, item) == Some(bundle) && le(item, bundle[0])
    requires Appended(st, bundle, item, added')
    ensures PulledWhereNeeded(le, anchor, st.selected + bundle, added', PulledIn(bundle)[0])
  {
    hide Pulled, HasName, Find;
    assert PulledByNext(le, anchor, st.selected + bundle, added', PulledIn(bundle)[0], |st.selected|);
  }

  /** An anchor that is pulled in comes later in the order: all earlier candidates are selected or skipped. */
  lemma PulledRanksBelow(le: Order, anchor: AnchorRule, candidates: seq<Item>, budget: int, st: Allocation, done: nat, a: Item)
    requires Flat(anchor) && Candidates(candidates) && Sorted(le, candidates)
    requires Invariant(anchor, candidates, budget, st, done) && done < |candidates|
    requires a in candidates && !HasName(st.selected, a.name) && anchor(candidates[done].name) == Some(a.name)
    requires a.extra + candidates[done].extra <= st.remaining
    ensures le(candidates[done], a)
  {
    hide HasName, Justified, Distinct, Anchored, Extra, Skipped, SkipsDistinct, Candidates, Sorted;
    assert NotChained(anchor, candidates[done].name);
    AnchorNotSkipped(anchor, candidates, budget, st, done, a, candidates[done]);
    var i :| 0 <= i < |candidates| && candidates[i] == a;
    assert i >= done;
    SortedPair(le, candidates, done, i);
  }

  lemma SortedPair(le: Order, candidates: seq<Item>, i: nat, j: nat)
    requires Sorted(le, candidates) && i < j < |candidates|
    ensures le(candidates[i], candidates[j])
  {
  }

  lemma StepKeepsRanks(le: Order, anchor: AnchorRule, candidates: seq<Item>, budget: int, st: Allocation, done: nat)
    requires Flat(anchor) && Candidates(candidates) && Sorted(le, candidates) && done < |candidates|
    requires Invariant(anchor, candidates, budget, st, done) && RanksKept(le, anchor, candidates, budget, st, done)
    ensures RanksKept(le, anchor, candidates, budget, Step(anchor, candidates, st, candidates[done]), done + 1)
  {
    hide RanksKept, Candidates, Sorted, HasName, Find, Extra, Flat, Justified, Distinct, Anchored, SkipsDistinct, Skipped;
    var item := candidates[done];
    if HasName(st.selected, item.name) {
      StayKeepsRanks(le, anchor, candidates, budget, st, done);
    } else {
      match Bundle(anchor, candidates, st.selected, item)
      case None =>
        SkipKeepsRanks(le, anchor, candidates, budget, st, done, AnchorMissing);
      case Some(bundle) =>
        if Extra(bundle) <= st.remaining {
          if |bundle| == 2 {
            ExtraOfBundle(bundle[0], item);
            PulledRanksBelow(le, anchor, candidates, budget, st, done, bundle[0]);
          }
          SelectKeepsRanks(le, anchor, candidates, budget, st, done, bundle, Step(anchor, candidates, st, item));
        } else {
          PassedOverNow(le, anchor, candidates, budget, st, done, bundle);
          SkipKeepsRanks(le, anchor, candidates, budget, st, done, OverBudget);
        }
    }
  }

  /** The order is kept in every state of every run. */
  lemma {:induction false} RunKeepsRanks(le: Order, anchor: AnchorRule, candidates: seq<Item>, budget: int, k: nat)
    requires Flat(anchor) && Candidates(candidates) && Sorted(le, candidates) && budget >= 0 && k <= |candidates|
    ensures RanksKept(le, anchor, candidates, budget, Run(anchor, candidates, budget, k), k)
  {
    hide Invariant, Candidates, Flat, Step, Sorted;
    if k == 0 {
    } else {
      RunKeeps(anchor, candidates, budget, k - 1);
      RunKeepsRanks(le, anchor, candidates, budget, k - 1);
      StepKeepsRanks(le, anchor, candidates, budget, Run(anchor, candidates, budget, k - 1), k - 1);
    }
  }
}
