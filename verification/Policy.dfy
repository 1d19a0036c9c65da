/** `build_policy` of scripts/astrea.py: candidates from the tensor index, their order, and the allocation under a byte
    budget. */
module Policy {
  import opened Wrappers
  import opened Bytes
  import opened Sorting
  import opened Strings
  import opened Anchors
  import opened Allocator
  import opened Ranking

  /** A tensor of the model file with its payload. */
  datatype Tensor = Tensor(name: string, quantType: nat, shape: seq<nat>, groupSize: nat, data: seq<byte>)

  /** What a policy is asked for. */
  datatype Request = Request(base: string, promotion: string, budget: int, scores: map<string, real>, aliases: map<string, string>)

  /** A policy; `added` lists the runtime anchors that were pulled in. */
  datatype PolicyFile = PolicyFile(base: string, promotion: string, budget: int, selected: seq<Item>, skipped: seq<Skip>,
                                   added: seq<(string, string)>)

  datatype Error =
    | UnsupportedFormat | NegativeBudget
    | OnlyQ8 | NothingSelected | AnchorUnavailable | SourceMissing | WrongFormat | PackFailed | PackedSize | NotInModel

  const SUPPORTED: set<string> := {"mq3", "mq4", "mq6", "hfq4", "hfq6", "hfp4", "mfp4", "paro4", "q8", "f16"}

  /** The format a stored quantisation type belongs to. */
  function FormatOf(quantType: nat): string {
    match quantType
    case 1 => "f16"
    case 3 => "q8"
    case 5 => "q8"
    case 6 => "hfq4"
    case 7 => "hfq4"
    case 8 => "hfq6"
    case 13 => "mq4"
    case 14 => "q8"
    case 17 => "mq3"
    case 20 => "mq3"
    case 21 => "hfp4"
    case 24 => "mfp4"
    case _ => "unknown"
  }

  function Elements(shape: seq<nat>): nat {
    if shape == [] then 1 else Elements(shape[..|shape| - 1]) * shape[|shape| - 1]
  }

  function CeilDiv(value: nat, denom: nat): (r: nat)
    requires denom > 0
    ensures r * denom >= value && (r > 0 ==> (r - 1) * denom < value)
  {
    assert (value + denom - 1) / denom * denom + (value + denom - 1) % denom == value + denom - 1;
    (value + denom - 1) / denom
  }

  function Q8Size(shape: seq<nat>): nat {
    CeilDiv(Elements(shape), 32) * 34
  }

  /** `estimate_format_data_size`; no value where the source raises. */
  function EstimateSize(shape: seq<nat>, format: string): Option<nat> {
    var elements := Elements(shape);
    if format == "f16" then Some(elements * 2)
    else if format == "q8" then Some(Q8Size(shape))
    else if format in {"mq4", "hfq4"} then Some(CeilDiv(elements, 256) * 136)
    else if format == "mq3" then Some(CeilDiv(elements, 256) * 104)
    else if format in {"mq6", "hfq6"} then Some(CeilDiv(elements, 256) * 200)
    else if format in {"hfp4", "mfp4"} then
      if |shape| != 2 then Some(CeilDiv(elements, 2))
      else if shape[1] == 0 then Some(0)
      else Some(shape[0] * (16 + 17 * CeilDiv(shape[1], 32)))
    else None
  }

  // ---------- candidates ----------

  /** The candidate a tensor gives: of the base format, scored, and larger once promoted. */
  function CandidateOf(req: Request, t: Tensor): Result<Option<Item>, Error> {
    if FormatOf(t.quantType) != req.base || t.name !in req.scores then Ok(None)
    else
      match EstimateSize(t.shape, req.promotion)
      case None => Err(UnsupportedFormat)
      case Some(size) =>
        if size - |t.data| <= 0 then Ok(None)
        else
          var alias := if t.name in req.aliases then Some(req.aliases[t.name]) else None;
          Ok(Some(Item(t.name, alias, size - |t.data|, req.scores[t.name])))
  }

  /** The candidates of the first tensors, in order. */
  function CandidatesOf(req: Request, tensors: seq<Tensor>): Result<seq<Item>, Error> {
    if tensors == [] then Ok([])
    else
      var before :- CandidatesOf(req, tensors[..|tensors| - 1]);
      var last :- CandidateOf(req, tensors[|tensors| - 1]);
      Ok(if last.Some? then before + [last.value] else before)
  }

  predicate ByName(s: Tensor, t: Tensor) {
    StringLe(s.name, t.name)
  }

  /** Score per extra byte. */
  function Density(x: Item): real {
    if x.extra == 0 then 0.0 else x.score / (x.extra as real)
  }

  /** The sort key: density and score falling, then growth and name rising. */
  predicate Priority(x: Item, y: Item) {
    || Density(x) > Density(y)
    || (Density(x) == Density(y) &&
        (|| x.score > y.score
         || (x.score == y.score && (x.extra < y.extra || (x.extra == y.extra && StringLe(x.name, y.name))))))
  }

  lemma PriorityIsPreorder()
    ensures TotalPreorder(Priority)
  {
    hide Density;
    forall x, y ensures Priority(x, y) || Priority(y, x) {
      StringLeTotal(x.name, y.name);
    }
    forall x, y, z | Priority(x, y) && Priority(y, z) ensures Priority(x, z) {
      if StringLe(x.name, y.name) && StringLe(y.name, z.name) {
        StringLeTransitive(x.name, y.name, z.name);
      }
    }
  }

  ghost predicate DistinctTensors(tensors: seq<Tensor>) {
    forall i, j | 0 <= i < j < |tensors| :: tensors[i].name != tensors[j].name
  }

  function AnchorFor(base: string, promotion: string): AnchorRule {
    n => Anchor(base, promotion, n)
  }

  lemma AnchorForIsFlat(base: string, promotion: string)
    ensures Flat(AnchorFor(base, promotion))
  {
    hide Anchor;
    forall n ensures NotChained(AnchorFor(base, promotion), n) {
      if Anchor(base, promotion, n).Some? {
        AnchorsAreFlat(base, promotion, n);
      }
    }
  }

  /** What `build_policy` returns for a model with these tensors. */
  function PolicyOf(req: Request, tensors: seq<Tensor>): Result<PolicyFile, Error> {
    if req.base !in SUPPORTED || req.promotion !in SUPPORTED then Err(UnsupportedFormat)
    else if req.budget < 0 then Err(NegativeBudget)
    else
      var items :- CandidatesOf(req, Sort(ByName, tensors));
      var candidates := Sort(Priority, items);
      var st := Run(AnchorFor(req.base, req.promotion), candidates, req.budget, |candidates|);
      Ok(PolicyFile(req.base, req.promotion, req.budget, st.selected, st.skipped, st.added))
  }

  /** `build_policy`: a policy, or the error of an unsupported format or a negative budget.  A policy is well ranked. */
  method BuildPolicy(req: Request, tensors: seq<Tensor>) returns (r: Result<PolicyFile, Error>)
    requires DistinctTensors(tensors)
    ensures r == PolicyOf(req, tensors)
    ensures r.Ok? ==> WellRanked(req, tensors, r.value)
  {
    hide WellRanked;
    hide Run, Candidates, CandidateOf, Flat;
    if req.base !in SUPPORTED || req.promotion !in SUPPORTED {
      return Err(UnsupportedFormat);
    }
    if req.budget < 0 {
      return Err(NegativeBudget);
    }
    var byName := Sort(ByName, tensors);
    var items: seq<Item> := [];
    for k := 0 to |byName|
      invariant CandidatesOf(req, byName[..k]) == Ok(items)
    {
      assert byName[..k + 1][..k] == byName[..k];
      var c := CandidateOf(req, byName[k]);
      if c.Err? {
        ErrorStays(req, byName, k + 1);
        return Err(c.error);
      }
      if c.value.Some? {
        items := items + [c.value.value];
      }
    }
    assert byName[..|byName|] == byName;
    var candidates := Sort(Priority, items);
    RankedFacts(req, tensors);
    AnchorForIsFlat(req.base, req.promotion);
    var st := Allocate(AnchorFor(req.base, req.promotion), candidates, req.budget);
    r := Ok(PolicyFile(req.base, req.promotion, req.budget, st.selected, st.skipped, st.added));
    PolicyIsWellRanked(req, tensors);
  }

  lemma {:induction false} ErrorStays(req: Request, tensors: seq<Tensor>, k: nat)
    requires k <= |tensors| && CandidatesOf(req, tensors[..k]).Err?
    ensures CandidatesOf(req, tensors) == Err(CandidatesOf(req, tensors[..k]).error)
    decreases |tensors| - k
  {
    hide CandidateOf;
    if k == |tensors| {
      assert tensors[..k] == tensors;
    } else {
      assert tensors[..k + 1][..k] == tensors[..k];
      ErrorStays(req, tensors, k + 1);
    }
  }

  // ---------- what a policy guarantees ----------

  /** The item is the candidate of some tensor in the model. */
  ghost predicate Backed(req: Request, tensors: seq<Tensor>, x: Item) {
    exists i :: 0 <= i < |tensors| && CandidateOf(req, tensors[i]) == Ok(Some(x))
  }

  /** Distinct tensors give distinct, backed candidates of positive growth, and every tensor that qualifies gives one. */
  lemma {:induction false} CandidatesOfFacts(req: Request, tensors: seq<Tensor>)
    requires DistinctTensors(tensors) && CandidatesOf(req, tensors).Ok?
    ensures var items := CandidatesOf(req, tensors).value;
            && Candidates(items)
            && (forall i | 0 <= i < |items| :: Backed(req, tensors, items[i]))
            && (forall x :: Backed(req, tensors, x) ==> x in items)
  {
    if tensors == [] {
    } else {
      hide CandidateOf, Candidates, Backed;
      var n := |tensors| - 1;
      CandidatesOfFacts(req, tensors[..n]);
      var before := CandidatesOf(req, tensors[..n]).value;
      var last := CandidateOf(req, tensors[n]).value;
      if last.Some? {
        CandidatesMore(req, tensors, before, last.value);
      } else {
        forall x ensures Backed(req, tensors, x) <==> Backed(req, tensors[..n], x) {
          BackedMore(req, tensors, x);
        }
      }
    }
  }

  /** One more tensor that gives a candidate. */
  lemma CandidatesMore(req: Request, tensors: seq<Tensor>, before: seq<Item>, y: Item)
    requires tensors != [] && DistinctTensors(tensors) && CandidateOf(req, tensors[|tensors| - 1]) == Ok(Some(y))
    requires Candidates(before) && forall i | 0 <= i < |before| :: Backed(req, tensors[..|tensors| - 1], before[i])
    requires forall x :: Backed(req, tensors[..|tensors| - 1], x) ==> x in before
    ensures var items := before + [y];
            && Candidates(items)
            && (forall i | 0 <= i < |items| :: Backed(req, tensors, items[i]))
            && (forall x :: Backed(req, tensors, x) ==> x in items)
  {
    hide CandidateOf, Backed;
    var items := before + [y];
    CandidateFacts(req, tensors[|tensors| - 1]);
    forall x ensures Backed(req, tensors, x) <==> Backed(req, tensors[..|tensors| - 1], x) || x == y {
      BackedMore(req, tensors, x);
    }
    forall i | 0 <= i < |before| ensures before[i].name != y.name {
      BackedEarlier(req, tensors, before[i]);
    }
  }

  lemma CandidateFacts(req: Request, t: Tensor)
    ensures CandidateOf(req, t).Ok? && CandidateOf(req, t).value.Some? ==>
              CandidateOf(req, t).value.value.name == t.name && CandidateOf(req, t).value.value.extra > 0
  {
  }

  lemma BackedMore(req: Request, tensors: seq<Tensor>, x: Item)
    requires tensors != []
    ensures Backed(req, tensors, x) <==>
              Backed(req, tensors[..|tensors| - 1], x) || CandidateOf(req, tensors[|tensors| - 1]) == Ok(Some(x))
  {
    hide CandidateOf;
    var n := |tensors| - 1;
    if i :| 0 <= i < n && CandidateOf(req, tensors[..n][i]) == Ok(Some(x)) {
      assert CandidateOf(req, tensors[i]) == Ok(Some(x));
    }
    if i :| 0 <= i < |tensors| && CandidateOf(req, tensors[i]) == Ok(Some(x)) {
      assert i < n ==> CandidateOf(req, tensors[..n][i]) == Ok(Some(x));
    }
  }

  lemma BackedEarlier(req: Request, tensors: seq<Tensor>, x: Item)
    requires tensors != [] && DistinctTensors(tensors) && Backed(req, tensors[..|tensors| - 1], x)
    ensures x.name != tensors[|tensors| - 1].name
  {
    hide CandidateOf;
    var n := |tensors| - 1;
    var i :| 0 <= i < n && CandidateOf(req, tensors[..n][i]) == Ok(Some(x));
    CandidateFacts(req, tensors[i]);
  }

  lemma BackedSame(req: Request, a: seq<Tensor>, b: seq<Tensor>, x: Item)
    requires multiset(a) == multiset(b) && Backed(req, a, x)
    ensures Backed(req, b, x)
  {
    hide CandidateOf;
    SameMembers(a, b);
    var i :| 0 <= i < |a| && CandidateOf(req, a[i]) == Ok(Some(x));
    assert a[i] in b;
  }

  /** The ranked candidates of a model. */
  function Ranked(req: Request, tensors: seq<Tensor>): seq<Item>
    requires CandidatesOf(req, Sort(ByName, tensors)).Ok?
  {
    Sort(Priority, CandidatesOf(req, Sort(ByName, tensors)).value)
  }

  /** The ranked candidates have distinct names and positive growth, are in priority order, and are exactly the
      candidates of the model's tensors. */
  lemma RankedFacts(req: Request, tensors: seq<Tensor>)
    requires DistinctTensors(tensors) && CandidatesOf(req, Sort(ByName, tensors)).Ok?
    ensures Candidates(Ranked(req, tensors)) && Sorted(Priority, Ranked(req, tensors))
    ensures forall x :: x in Ranked(req, tensors) <==> Backed(req, tensors, x)
  {
    hide CandidatesOf, Backed, Sort, Sorted, Priority;
    var byName := Sort(ByName, tensors);
    DistinctSame(tensors, byName);
    CandidatesOfFacts(req, byName);
    var items := CandidatesOf(req, byName).value;
    var ranked := Sort(Priority, items);
    CandidatesSame(items, ranked);
    PriorityIsPreorder();
    SortSorts(Priority, items);
    SameMembers(items, ranked);
    forall x ensures x in ranked <==> Backed(req, tensors, x) {
      if Backed(req, tensors, x) {
        BackedSame(req, tensors, byName, x);
      }
      if x in items {
        var i :| 0 <= i < |items| && items[i] == x;
        BackedSame(req, byName, tensors, x);
      }
    }
  }

  lemma DistinctSame(a: seq<Tensor>, b: seq<Tensor>)
    requires DistinctTensors(a) && multiset(a) == multiset(b)
    ensures DistinctTensors(b)
  {
    var name := (t: Tensor) => t.name;
    assert KeysDistinct(name, a);
    KeysStayDistinct(name, a, b);
    forall i, j | 0 <= i < j < |b| ensures b[i].name != b[j].name {
      assert name(b[i]) != name(b[j]);
    }
  }

  lemma CandidatesSame(a: seq<Item>, b: seq<Item>)
    requires Candidates(a) && multiset(a) == multiset(b)
    ensures Candidates(b)
  {
    var name := (x: Item) => x.name;
    assert KeysDistinct(name, a);
    KeysStayDistinct(name, a, b);
    forall i, j | 0 <= i < j < |b| ensures b[i].name != b[j].name {
      assert name(b[i]) != name(b[j]);
    }
    SameMembers(a, b);
    forall i | 0 <= i < |b| ensures b[i].extra > 0 {
      assert b[i] in a;
    }
  }

  /** The loop invariant at the end of the run behind a policy, hence all that `PolicyGuarantees` draws from it. */
  lemma PolicyIsAllocation(req: Request, tensors: seq<Tensor>)
    requires DistinctTensors(tensors) && PolicyOf(req, tensors).Ok?
    ensures CandidatesOf(req, Sort(ByName, tensors)).Ok?
    ensures var p := PolicyOf(req, tensors).value;
            var candidates := Ranked(req, tensors);
            var st := Allocation(p.selected, p.skipped, req.budget - Extra(p.selected), p.added);
            Invariant(AnchorFor(req.base, req.promotion), candidates, req.budget, st, |candidates|)
  {
    hide Run, Flat, Candidates, CandidatesOf, Sorted, Sort, Extra;
    var anchor := AnchorFor(req.base, req.promotion);
    var candidates := Ranked(req, tensors);
    RankedFacts(req, tensors);
    AnchorForIsFlat(req.base, req.promotion);
    RunKeeps(anchor, candidates, req.budget, |candidates|);
  }

  /** What an allocation over backed candidates says of its selection. */
  lemma SelectionFacts(anchor: AnchorRule, candidates: seq<Item>, budget: int, st: Allocation)
    requires Candidates(candidates) && Invariant(anchor, candidates, budget, st, |candidates|)
    ensures Distinct(st.selected) && Anchored(anchor, st.selected) && Extra(st.selected) <= budget
    ensures forall i | 0 <= i < |st.selected| :: st.selected[i] in candidates && st.selected[i].extra > 0
  {
    hide Distinct, Anchored, Extra, Justified, HasName, Skipped, SkipsDistinct;
  }

  lemma PolicyFields(req: Request, tensors: seq<Tensor>)
    requires PolicyOf(req, tensors).Ok?
    ensures var p := PolicyOf(req, tensors).value; p.base == req.base && p.promotion == req.promotion && p.budget == req.budget
  {
    hide Run, CandidatesOf, Sort;
  }

  ghost predicate CandidateNamed(req: Request, tensors: seq<Tensor>, name: string) {
    exists x :: Backed(req, tensors, x) && x.name == name
  }

  /** A built policy: within the byte budget, no duplicates, every anchor before what needs it; a tensor is selected or
      skipped exactly when it is of the base format, scored and larger once promoted, and never both. */
  lemma BuiltPolicyIsSound(req: Request, tensors: seq<Tensor>, name: string)
    requires DistinctTensors(tensors) && PolicyOf(req, tensors).Ok?
    ensures var p := PolicyOf(req, tensors).value;
            var st := Allocation(p.selected, p.skipped, req.budget - Extra(p.selected), p.added);
            && Extra(p.selected) <= req.budget
            && Distinct(p.selected) && SkipsDistinct(p.skipped)
            && Anchored(AnchorFor(req.base, req.promotion), p.selected)
            && (CandidateNamed(req, tensors, name) <==> HasName(p.selected, name) || Skipped(st, name))
            && !(HasName(p.selected, name) && Skipped(st, name))
  {
    hide PolicyOf, Invariant, Candidates, Extra, Distinct, SkipsDistinct, Anchored, Skipped, Backed, Ranked, AnchorFor, CandidatesOf;
    PolicyIsAllocation(req, tensors);
    RankedFacts(req, tensors);
    var p, candidates := PolicyOf(req, tensors).value, Ranked(req, tensors);
    var st := Allocation(p.selected, p.skipped, req.budget - Extra(p.selected), p.added);
    PolicyGuarantees(AnchorFor(req.base, req.promotion), candidates, req.budget, st, name);
    if x :| Backed(req, tensors, x) && x.name == name {
      var i :| 0 <= i < |candidates| && candidates[i] == x;
    }
    if i :| 0 <= i < |candidates| && candidates[i].name == name {
      assert Backed(req, tensors, candidates[i]);
    }
  }

  // ---------- what the ranking means ----------

  /** More score for each extra byte; then the higher score, the smaller growth, the smaller name. */
  predicate RanksAbove(x: Item, y: Item) {
    && x.extra > 0 && y.extra > 0
    && var (dx, dy) := (x.score / (x.extra as real), y.score / (y.extra as real));
       || dx > dy
       || (dx == dy && x.score > y.score)
       || (dx == dy && x.score == y.score && x.extra < y.extra)
       || (dx == dy && x.score == y.score && x.extra == y.extra && StringLe(x.name, y.name))
  }

  /** `x`, with the anchor it lacks after `before`, needs more than `left`. */
  ghost predicate CannotFit(req: Request, tensors: seq<Tensor>, before: seq<Item>, x: Item, left: int) {
    var anchor := Anchor(req.base, req.promotion, x.name);
    if anchor.None? || HasName(before, anchor.value) then x.extra > left
    else exists y :: Backed(req, tensors, y) && y.name == anchor.value && y.extra + x.extra > left
  }

  /** When its turn came, after the selected items that rank above it, `x` did not fit what was left of the budget. */
  ghost predicate TurnedAway(req: Request, tensors: seq<Tensor>, p: PolicyFile, x: Item) {
    exists m: nat | m <= |p.selected| ::
      && TurnAt(RanksAbove, p.selected, p.added, x, m)
      && CannotFit(req, tensors, p.selected[..m], x, req.budget - Extra(p.selected[..m]))
  }

  /** Selected items that were not pulled in as anchors stand in rank order; an anchor was pulled in right before an item
      that needs it and ranks above it; what was skipped for its size did not fit when its turn came. */
  ghost predicate WellRanked(req: Request, tensors: seq<Tensor>, p: PolicyFile) {
    && InOrder(RanksAbove, p.selected, p.added)
    && (forall k | 0 <= k < |p.added| ::
          PulledWhereNeeded(RanksAbove, AnchorFor(req.base, req.promotion), p.selected, p.added, p.added[k]))
    && (forall k | 0 <= k < |p.skipped| && p.skipped[k].reason == OverBudget :: TurnedAway(req, tensors, p, p.skipped[k].item))
  }

  lemma PriorityIsRank(x: Item, y: Item)
    requires x.extra > 0 && y.extra > 0
    ensures Priority(x, y) <==> RanksAbove(x, y)
  {
    hide StringLe;
  }

  lemma RankedByRank(req: Request, tensors: seq<Tensor>)
    requires DistinctTensors(tensors) && CandidatesOf(req, Sort(ByName, tensors)).Ok?
    ensures Sorted(RanksAbove, Ranked(req, tensors))
  {
    hide Ranked, Priority, RanksAbove, CandidatesOf, Backed, Sort;
    RankedFacts(req, tensors);
    var c := Ranked(req, tensors);
    forall i, j | 0 <= i < j < |c| ensures RanksAbove(c[i], c[j]) {
      PriorityIsRank(c[i], c[j]);
    }
  }

  lemma TurnedAwayIs(req: Request, tensors: seq<Tensor>, candidates: seq<Item>, p: PolicyFile, x: Item)
    requires forall y :: y in candidates <==> Backed(req, tensors, y)
    requires PassedOver(RanksAbove, AnchorFor(req.base, req.promotion), candidates, req.budget, p.selected, p.added, x)
    ensures TurnedAway(req, tensors, p, x)
  {
    hide TurnAt, Extra, HasName, Backed, Anchor;
    var m: nat :| m <= |p.selected| && TurnAt(RanksAbove, p.selected, p.added, x, m)
                  && DoesNotFit(AnchorFor(req.base, req.promotion), candidates, p.selected[..m], x, req.budget - Extra(p.selected[..m]));
    assert CannotFit(req, tensors, p.selected[..m], x, req.budget - Extra(p.selected[..m]));
  }

  /** Every built policy is well ranked. */
  lemma PolicyIsWellRanked(req: Request, tensors: seq<Tensor>)
    requires DistinctTensors(tensors) && PolicyOf(req, tensors).Ok?
    ensures WellRanked(req, tensors, PolicyOf(req, tensors).value)
  {
    hide Run, Flat, Candidates, CandidatesOf, Sorted, Sort, Backed, InOrder, PulledWhereNeeded, PassedOver, TurnedAway, AnchorFor;
    var anchor, candidates := AnchorFor(req.base, req.promotion), Ranked(req, tensors);
    var p := PolicyOf(req, tensors).value;
    RankedFacts(req, tensors);
    RankedByRank(req, tensors);
    AnchorForIsFlat(req.base, req.promotion);
    RunKeepsRanks(RanksAbove, anchor, candidates, req.budget, |candidates|);
    forall k | 0 <= k < |p.skipped| && p.skipped[k].reason == OverBudget ensures TurnedAway(req, tensors, p, p.skipped[k].item) {
      TurnedAwayIs(req, tensors, candidates, p, p.skipped[k].item);
    }
  }

  // ---------- which tensors are candidates ----------

  /** The stored types of each format; mq6 and paro4 have none. */
  lemma FormatTable(q: nat)
    ensures FormatOf(q) == "f16" <==> q == 1
    ensures FormatOf(q) == "q8" <==> q in {3, 5, 14}
    ensures FormatOf(q) == "hfq4" <==> q in {6, 7}
    ensures FormatOf(q) == "hfq6" <==> q == 8
    ensures FormatOf(q) == "mq4" <==> q == 13
    ensures FormatOf(q) == "mq3" <==> q in {17, 20}
    ensures FormatOf(q) == "hfp4" <==> q == 21
    ensures FormatOf(q) == "mfp4" <==> q == 24
    ensures FormatOf(q) != "mq6" && FormatOf(q) != "paro4"
  {
    var f := FormatOf(q);
    assert |"q8"| == 2 && |"mq3"| == |"mq4"| == |"mq6"| == |"f16"| == 3 && |"paro4"| == 5 && |"unknown"| == 7;
    assert "f16"[0] == 'f' && "mq3"[2] == '3' && "mq4"[2] == '4' && "mq6"[2] == '6';
    assert "hfq4"[3] == '4' && "hfq6"[3] == '6' && "hfq4"[2] == 'q' && "hfq6"[2] == 'q' && "hfp4"[0] == 'h' && "mfp4"[0] == 'm';
    assert "hfp4"[2] == 'p' && "hfq4"[0] == 'h' && "hfq6"[0] == 'h';
  }

  /** The number of elements is the product of the dimensions. */
  lemma ElementsIsProduct(shape: seq<nat>, d: nat)
    ensures Elements([]) == 1 && Elements(shape + [d]) == Elements(shape) * d
  {
    assert (shape + [d])[..|shape|] == shape;
  }

  /** `n` elements start `blocks` blocks of `per`. */
  ghost predicate Starts(n: nat, per: nat, blocks: nat) {
    n <= blocks * per && (blocks > 0 ==> (blocks - 1) * per < n)
  }

  /** The bytes of a tensor in the element-wise formats: so many for each element or each started block of elements. */
  lemma SizeTable(shape: seq<nat>, blocks: nat)
    ensures EstimateSize(shape, "f16") == Some(2 * Elements(shape))
    ensures Starts(Elements(shape), 32, blocks) ==> EstimateSize(shape, "q8") == Some(34 * blocks)
    ensures Starts(Elements(shape), 256, blocks) ==> EstimateSize(shape, "mq4") == EstimateSize(shape, "hfq4") == Some(136 * blocks)
    ensures Starts(Elements(shape), 256, blocks) ==> EstimateSize(shape, "mq3") == Some(104 * blocks)
    ensures Starts(Elements(shape), 256, blocks) ==> EstimateSize(shape, "mq6") == EstimateSize(shape, "hfq6") == Some(200 * blocks)
    ensures EstimateSize(shape, "paro4") == None
  {
    hide Elements, CeilDiv;
    DistinctFormats();
    StartsUnique(Elements(shape), 32, blocks);
    StartsUnique(Elements(shape), 256, blocks);
    hide Starts;
  }

  /** The FP4 formats: a matrix takes 16 bytes a row and 17 for each started 32 columns of it; anything else half a byte an
      element. */
  lemma Fp4SizeTable(shape: seq<nat>, format: string, blocks: nat)
    requires format in {"hfp4", "mfp4"}
    ensures |shape| == 2 && shape[1] > 0 && Starts(shape[1], 32, blocks) ==>
              EstimateSize(shape, format) == Some(shape[0] * (16 + 17 * blocks))
    ensures |shape| == 2 && shape[1] == 0 ==> EstimateSize(shape, format) == Some(0)
    ensures |shape| != 2 && Starts(Elements(shape), 2, blocks) ==> EstimateSize(shape, format) == Some(blocks)
  {
    hide Elements, CeilDiv;
    DistinctFormats();
    StartsUnique(Elements(shape), 2, blocks);
    if |shape| == 2 {
      StartsUnique(shape[1], 32, blocks);
    }
    hide Starts;
  }

  lemma DistinctFormats()
    ensures "q8" != "f16" && "paro4" !in {"f16", "q8", "mq4", "hfq4", "mq3", "mq6", "hfq6", "hfp4", "mfp4"}
    ensures "mq4" !in {"f16", "q8"} && "hfq4" !in {"f16", "q8"} && "mq3" !in {"f16", "q8", "mq4", "hfq4"}
    ensures "mq6" !in {"f16", "q8", "mq4", "hfq4", "mq3"} && "hfq6" !in {"f16", "q8", "mq4", "hfq4", "mq3"}
    ensures "hfp4" !in {"f16", "q8", "mq4", "hfq4", "mq3", "mq6", "hfq6"}
    ensures "mfp4" !in {"f16", "q8", "mq4", "hfq4", "mq3", "mq6", "hfq6"}
  {
    assert |"q8"| == 2 && |"f16"| == |"mq3"| == |"mq4"| == |"mq6"| == 3 && |"paro4"| == 5;
    assert |"hfq4"| == |"hfq6"| == |"hfp4"| == |"mfp4"| == 4;
    assert "f16"[0] == 'f' && "mq3"[2] == '3' && "mq4"[2] == '4' && "mq6"[2] == '6';
    assert "hfq4"[3] == '4' && "hfq6"[3] == '6' && "hfq4"[2] == 'q' && "hfp4"[2] == 'p' && "mfp4"[2] == 'p' && "hfq6"[2] == 'q';
  }

  lemma StartsUnique(n: nat, per: nat, blocks: nat)
    requires per > 0
    ensures Starts(n, per, blocks) ==> CeilDiv(n, per) == blocks
  {
    var c := CeilDiv(n, per);
    if Starts(n, per, blocks) {
      if c < blocks {
        LessBlocks(c, blocks, per);
        assert false;
      }
      if blocks < c {
        LessBlocks(blocks, c, per);
        assert false;
      }
    }
  }

  lemma LessBlocks(a: nat, b: nat, per: nat)
    requires a < b
    ensures a * per <= (b - 1) * per
  {
    var d := b - 1 - a;
    assert (b - 1) * per == a * per + d * per;
  }

  /** A tensor is a candidate for q8 exactly when it is stored in the base format, is scored, and 34 bytes for each started
      32 elements are more than it takes now; the candidate carries its name, alias, score and growth. */
  ghost predicate QualifiesForQ8(req: Request, t: Tensor, x: Item) {
    && FormatOf(t.quantType) == req.base && t.name in req.scores
    && x.name == t.name && x.score == req.scores[t.name]
    && x.alias == (if t.name in req.aliases then Some(req.aliases[t.name]) else None)
    && x.extra > 0
    && exists blocks: nat :: Starts(Elements(t.shape), 32, blocks) && |t.data| + x.extra == 34 * blocks
  }

  lemma CandidateForQ8(req: Request, t: Tensor, x: Item)
    requires req.promotion == "q8"
    ensures CandidateOf(req, t) == Ok(Some(x)) <==> QualifiesForQ8(req, t, x)
  {
    hide FormatOf, Elements;
    var n := Elements(t.shape);
    var blocks := CeilDiv(n, 32);
    assert Starts(n, 32, blocks);
    SizeTable(t.shape, blocks);
    if QualifiesForQ8(req, t, x) {
      var b: nat :| Starts(n, 32, b) && |t.data| + x.extra == 34 * b;
      StartsUnique(n, 32, b);
    }
  }

  // ---------- when there is no policy ----------

  lemma SizeMissing(shape: seq<nat>, format: string)
    ensures EstimateSize(shape, format).None? <==> format !in {"f16", "q8", "mq4", "hfq4", "mq3", "mq6", "hfq6", "hfp4", "mfp4"}
  {
    hide Elements, CeilDiv;
  }

  ghost predicate Sized(req: Request, t: Tensor) {
    FormatOf(t.quantType) == req.base && t.name in req.scores
  }

  lemma {:induction false} CandidatesFail(req: Request, tensors: seq<Tensor>)
    ensures CandidatesOf(req, tensors).Err? <==> exists i :: 0 <= i < |tensors| && CandidateOf(req, tensors[i]).Err?
    ensures CandidatesOf(req, tensors).Err? ==> CandidatesOf(req, tensors).error == UnsupportedFormat
  {
    hide CandidateOf;
    if tensors == [] {
    } else {
      var n := |tensors| - 1;
      CandidatesFail(req, tensors[..n]);
      OnlyUnsupported(req, tensors[n]);
      if i :| 0 <= i < n && CandidateOf(req, tensors[..n][i]).Err? {
        assert CandidateOf(req, tensors[i]).Err?;
      }
      if i :| 0 <= i < |tensors| && CandidateOf(req, tensors[i]).Err? {
        assert i < n ==> CandidateOf(req, tensors[..n][i]).Err?;
      }
    }
  }

  lemma OnlyUnsupported(req: Request, t: Tensor)
    ensures CandidateOf(req, t).Err? ==> CandidateOf(req, t).error == UnsupportedFormat
    ensures CandidateOf(req, t).Err? <==> Sized(req, t) && EstimateSize(t.shape, req.promotion).None?
  {
    hide EstimateSize, FormatOf;
  }

  lemma ParoHasNoSize(format: string, shape: seq<nat>)
    requires format in {"mq3", "mq4", "mq6", "hfq4", "hfq6", "hfp4", "mfp4", "paro4", "q8", "f16"}
    ensures EstimateSize(shape, format).None? <==> format == "paro4"
  {
    hide EstimateSize;
    DistinctFormats();
    SizeMissing(shape, format);
  }

  /** A request fails exactly when a format is not one of the ten, the budget is negative, or paro4, which has no size
      estimate, is asked for and some scored tensor is of the base format. */
  lemma PolicyFailsIff(req: Request, tensors: seq<Tensor>)
    ensures PolicyOf(req, tensors).Err? <==>
              || req.base !in {"mq3", "mq4", "mq6", "hfq4", "hfq6", "hfp4", "mfp4", "paro4", "q8", "f16"}
              || req.promotion !in {"mq3", "mq4", "mq6", "hfq4", "hfq6", "hfp4", "mfp4", "paro4", "q8", "f16"}
              || req.budget < 0
              || (req.promotion == "paro4" && exists i :: 0 <= i < |tensors| && Sized(req, tensors[i]))
  {
    hide Run, CandidatesOf, CandidateOf, Sort, Sized;
    var byName := Sort(ByName, tensors);
    CandidatesFail(req, byName);
    if req.base in SUPPORTED && req.promotion in SUPPORTED && req.budget >= 0 {
      forall t: Tensor ensures CandidateOf(req, t).Err? <==> Sized(req, t) && req.promotion == "paro4" {
        OnlyUnsupported(req, t);
        ParoHasNoSize(req.promotion, t.shape);
      }
      SameMembers(tensors, byName);
      if i :| 0 <= i < |tensors| && Sized(req, tensors[i]) {
        assert tensors[i] in byName;
        var j :| 0 <= j < |byName| && byName[j] == tensors[i];
      }
      if j :| 0 <= j < |byName| && CandidateOf(req, byName[j]).Err? {
        assert byName[j] in tensors;
        var i :| 0 <= i < |tensors| && tensors[i] == byName[j];
      }
    }
  }
}
