/** `write_policy_promotion_candidate` of scripts/astrea.py from file to file: read the model, promote, write the candidate. */
module Candidate {
  import opened Wrappers
  import opened Bytes
  import opened JsonScan
  import opened Hfq
  import opened Places
  import opened HfqFiles
  import opened Policy
  import opened Promotion

  /** Text and its encoding. */
  datatype Naming = Naming(encode: string -> seq<byte>, decode: seq<byte> -> string)

  datatype Failure = BadPolicy(policyError: Policy.Error) | BadFile(fileError: Hfq.Error)

  /** Encoding a name that was decoded gives its bytes back. */
  ghost predicate Faithful(utf8: Utf8, naming: Naming) {
    forall b :: utf8(b) ==> naming.encode(naming.decode(b)) == b
  }

  /** Such a naming exists for every notion of what decodes: one character for each byte. */
  lemma SomeNamingIsFaithful(utf8: Utf8) returns (naming: Naming)
    ensures Faithful(utf8, naming)
  {
    var decode := (b: seq<byte>) => seq(|b|, i requires 0 <= i < |b| => b[i] as char);
    var encode := (s: string) => seq(|s|, i requires 0 <= i < |s| => s[i] as int % 256);
    naming := Naming(encode, decode);
    forall b ensures encode(decode(b)) == b {
    }
  }

  function TensorOf(naming: Naming, r: Record): Tensor {
    Tensor(naming.decode(r.entry.name), r.entry.quantType, r.entry.shape, r.entry.groupSize, r.data)
  }

  function RecordOf(naming: Naming, t: Tensor): Record {
    Record(Entry(naming.encode(t.name), t.quantType, t.shape, t.groupSize, |t.data|), t.data)
  }

  function TensorsOf(naming: Naming, records: seq<Record>): (ts: seq<Tensor>)
    ensures |ts| == |records|
  {
    seq(|records|, i requires 0 <= i < |records| => TensorOf(naming, records[i]))
  }

  function RecordsOf(naming: Naming, tensors: seq<Tensor>): (rs: seq<Record>)
    ensures |rs| == |tensors|
  {
    seq(|tensors|, i requires 0 <= i < |tensors| => RecordOf(naming, tensors[i]))
  }

  /** The layout with other tensors. */
  function WithTensors(naming: Naming, layout: Layout, tensors: seq<Tensor>): Layout {
    layout.(records := RecordsOf(naming, tensors))
  }

  /** The whole writer: policy checks, reader, promotion, writer. */
  method PromoteFile(utf8: Utf8, naming: Naming, policy: PolicyFile, filters: seq<string>, cap: Option<int>, source: set<string>,
                     pack: Packer, data: seq<byte>)
    returns (r: Result<seq<byte>, Failure>)
    ensures r.Ok? <==>
              && Read(utf8, data).Ok?
              && var layout := Read(utf8, data).value;
                 var promotion := PromotionOf(policy, TensorsOf(naming, layout.records), filters, cap, source, pack);
                 promotion.Ok? && Writable(WithTensors(naming, layout, promotion.value.result.tensors))
    ensures r.Ok? ==>
              var layout := Read(utf8, data).value;
              var promotion := PromotionOf(policy, TensorsOf(naming, layout.records), filters, cap, source, pack);
              r.value == Image(WithTensors(naming, layout, promotion.value.result.tensors))
  {
    hide Read, Writable, Image, Matching, Capped, Expanded, Rewritten, Available;
    if policy.promotion != "q8" {
      return Err(BadPolicy(OnlyQ8));
    }
    var requested := SelectedItems(policy, filters, cap);
    if requested == [] {
      return Err(BadPolicy(NothingSelected));
    }
    var layout := ReadLayout(utf8, data);
    if layout.Err? {
      return Err(BadFile(layout.error));
    }
    var o := WritePromotion(policy, TensorsOf(naming, layout.value.records), filters, cap, source, pack);
    if o.Err? {
      return Err(BadPolicy(o.error));
    }
    var file := WriteLayout(WithTensors(naming, layout.value, o.value.result.tensors));
    if file.Err? {
      return Err(BadFile(file.error));
    }
    r := Ok(file.value);
  }

  // ---------- records and tensors ----------

  /** A promoted tensor keeps its name and its shape; it is otherwise unchanged or in Q8 form. */
  ghost predicate KeepsPlace(t: Tensor, t': Tensor) {
    t'.name == t.name && t'.shape == t.shape && (t' == t || (t'.quantType == 3 && t'.groupSize == 32))
  }

  lemma ComesOutKeepsPlace(names: set<string>, base: string, pack: Packer, t: Tensor, t': Tensor)
    requires ComesOut(names, base, pack, t, t')
    ensures KeepsPlace(t, t')
  {
    hide Pack;
  }

  /** The record written for a tensor that came from a record. */
  lemma RecordBack(utf8: Utf8, naming: Naming, r: Record, t': Tensor)
    requires Faithful(utf8, naming) && utf8(r.entry.name) && KeepsPlace(TensorOf(naming, r), t')
    ensures var r' := RecordOf(naming, t');
            && r'.entry.name == r.entry.name && r'.entry.shape == r.entry.shape
            && TensorOf(naming, r') == t'
            && (RecordInRange(r) ==> (RecordInRange(r') <==> |t'.data| < Pow256(8)))
  {
    SmallFields();
    hide Pow256;
    assert naming.encode(naming.decode(r.entry.name)) == r.entry.name;
  }

  lemma SmallFields()
    ensures 3 < Pow256(1) && 32 < Pow256(4)
  {
  }

  lemma RecordsBack(utf8: Utf8, naming: Naming, records: seq<Record>)
    requires Faithful(utf8, naming) && NamesDecode(utf8, records) && RecordsInRange(records)
    ensures RecordsOf(naming, TensorsOf(naming, records)) == records
  {
    forall i | 0 <= i < |records| ensures RecordOf(naming, TensorOf(naming, records[i])) == records[i] {
      assert utf8(records[i].entry.name) && RecordInRange(records[i]);
    }
  }

  lemma EntrySize(e: Entry)
    ensures |EntryBytes(e)| == 16 + |e.name| + 4 * |e.shape|
  {
  }

  /** Index size depends on names and dimensions only. */
  lemma {:induction false} SameIndexSize(a: seq<Record>, b: seq<Record>)
    requires |a| == |b|
    requires forall i | 0 <= i < |a| :: |a[i].entry.name| == |b[i].entry.name| && |a[i].entry.shape| == |b[i].entry.shape|
    ensures |IndexBytes(a)| == |IndexBytes(b)|
    decreases |a|
  {
    hide EntryBytes;
    if a != [] {
      EntrySize(a[0].entry);
      EntrySize(b[0].entry);
      SameIndexSize(a[1..], b[1..]);
    } else {
      assert b == [];
    }
  }

  lemma {:induction false} PayloadSize(naming: Naming, tensors: seq<Tensor>)
    ensures |Payloads(RecordsOf(naming, tensors))| == PayloadBytes(tensors)
  {
    if tensors == [] {
      assert RecordsOf(naming, tensors) == [];
    } else {
      hide Payloads;
      var n := |tensors| - 1;
      PayloadSize(naming, tensors[..n]);
      assert RecordsOf(naming, tensors) == RecordsOf(naming, tensors[..n]) + [RecordOf(naming, tensors[n])];
      RecordsAppend(RecordsOf(naming, tensors[..n]), RecordOf(naming, tensors[n]));
    }
  }

  lemma ImageSize(layout: Layout)
    ensures |Image(layout)| == DataOffset(layout) + |Payloads(layout.records)|
  {
    hide HeaderBytes, LittleEndian, IndexBytes, Payloads;
  }

  // ---------- the candidate reads back ----------

  ghost predicate AllKeepPlace(tensors: seq<Tensor>, tensors': seq<Tensor>) {
    |tensors'| == |tensors| && forall i | 0 <= i < |tensors| :: KeepsPlace(tensors[i], tensors'[i])
  }

  /** The records written for tensors that kept their place. */
  lemma RecordsWritten(utf8: Utf8, naming: Naming, records: seq<Record>, tensors': seq<Tensor>)
    requires Faithful(utf8, naming) && NamesDecode(utf8, records) && RecordsInRange(records)
    requires AllKeepPlace(TensorsOf(naming, records), tensors')
    ensures var written := RecordsOf(naming, tensors');
            && |written| == |records| && NamesDecode(utf8, written) && TensorsOf(naming, written) == tensors'
            && |IndexBytes(written)| == |IndexBytes(records)|
            && (RecordsInRange(written) <==> forall i | 0 <= i < |tensors'| :: |tensors'[i].data| < Pow256(8))
  {
    hide KeepsPlace, IndexBytes, RecordInRange, Pow256, Faithful, TensorOf, RecordOf;
    var written := RecordsOf(naming, tensors');
    forall i | 0 <= i < |records|
      ensures && utf8(written[i].entry.name) && TensorOf(naming, written[i]) == tensors'[i]
              && written[i].entry.name == records[i].entry.name && written[i].entry.shape == records[i].entry.shape
              && (RecordInRange(written[i]) <==> |tensors'[i].data| < Pow256(8))
    {
      assert RecordInRange(records[i]) && utf8(records[i].entry.name);
      assert KeepsPlace(TensorsOf(naming, records)[i], tensors'[i]);
      RecordBack(utf8, naming, records[i], tensors'[i]);
    }
    SameIndexSize(written, records);
    assert TensorsOf(naming, written) == tensors';
  }

  /** What a written candidate is: it reads back as the model with the rewritten tensors, and its size differs from that of
      the model written back unchanged by the growth of the payload. */
  lemma CandidateReadsBack(utf8: Utf8, naming: Naming, data: seq<byte>, tensors': seq<Tensor>)
    requires Read(utf8, data).Ok? && Faithful(utf8, naming)
    requires AllKeepPlace(TensorsOf(naming, Read(utf8, data).value.records), tensors')
    ensures var layout := Read(utf8, data).value;
            var tensors := TensorsOf(naming, layout.records);
            var candidate := WithTensors(naming, layout, tensors');
            && TensorsOf(naming, candidate.records) == tensors'
            && (Writable(candidate) <==>
                  DataOffset(layout) < Pow256(8) && forall i | 0 <= i < |tensors'| :: |tensors'[i].data| < Pow256(8))
            && (Writable(candidate) ==> Read(utf8, Image(candidate)) == Ok(candidate))
            && |Image(candidate)| + PayloadBytes(tensors) == |Image(layout)| + PayloadBytes(tensors')
  {
    hide Read, Image, IndexBytes, Payloads, RecordsInRange, NamesDecode, HeaderOf, Pow256, AllKeepPlace, Faithful, OneObject;
    var layout := Read(utf8, data).value;
    var candidate := WithTensors(naming, layout, tensors');
    ReadFacts(utf8, data);
    HeaderWrites(data);
    MetadataInside(utf8, data, layout);
    RecordsWritten(utf8, naming, layout.records, tensors');
    assert candidate.version < Pow256(4) && candidate.arch < Pow256(4);
    assert |candidate.records| == |layout.records| < Pow256(4);
    assert DataOffset(candidate) == DataOffset(layout);
    assert Writable(candidate) <==> DataOffset(layout) < Pow256(8) && RecordsInRange(candidate.records);
    if Writable(candidate) {
      ReadsBack(utf8, candidate);
    }
    ImageSize(layout);
    ImageSize(candidate);
    PayloadSize(naming, tensors');
    PayloadSize(naming, TensorsOf(naming, layout.records));
    RecordsBack(utf8, naming, layout.records);
  }

  /** From file to file: for a policy built from the model in `data` and any filter, cap, source and quantiser, a promotion
      that succeeds can be written exactly when its sizes fit the format; the candidate then reads back as the model with
      the rewritten tensors, and is larger than the model written back unchanged by the promoted bytes, so by at most the
      budget. */
  lemma CandidateFileInBudget(utf8: Utf8, naming: Naming, req: Request, filters: seq<string>, cap: Option<int>,
                              source: set<string>, pack: Packer, data: seq<byte>)
    requires Read(utf8, data).Ok? && Faithful(utf8, naming)
    requires var tensors := TensorsOf(naming, Read(utf8, data).value.records);
             DistinctTensors(tensors) && PolicyOf(req, tensors).Ok? && req.promotion == "q8"
    ensures var layout := Read(utf8, data).value;
            var tensors := TensorsOf(naming, layout.records);
            var policy := PolicyOf(req, tensors).value;
            match PromotionOf(policy, tensors, filters, cap, source, pack)
            case Err(_) => true
            case Ok(o) =>
              var candidate := WithTensors(naming, layout, o.result.tensors);
              && Conforms(policy, tensors, pack, o)
              && (Writable(candidate) <==>
                    DataOffset(layout) < Pow256(8) &&
                    forall i | 0 <= i < |o.result.tensors| :: |o.result.tensors[i].data| < Pow256(8))
              && (Writable(candidate) ==> Read(utf8, Image(candidate)) == Ok(candidate))
              && TensorsOf(naming, candidate.records) == o.result.tensors
              && |candidate.records| == |layout.records|
              && (forall i | 0 <= i < |layout.records| ::
                    RecordComesOut(naming, NameSet(o.selection.names), pack, layout.records[i], candidate.records[i]))
              && |Image(candidate)| == |Image(layout)| + ExtraBytes(o.result.promoted) <= |Image(layout)| + req.budget
  {
    hide Read, Image, Writable, PolicyOf, PromotionOf, DistinctTensors, Faithful, ComesOut, PayloadBytes, ExtraBytes, AnchorFor,
         DataOffset, Pow256, TensorsOf, RecordsOf, RecordComesOut, NamesDecode, RecordsInRange, HeaderOf, IndexBytes, Payloads, LittleEndian;
    var layout := Read(utf8, data).value;
    var tensors := TensorsOf(naming, layout.records);
    PromotionStaysInBudget(req, tensors, filters, cap, source, pack);
    var policy := PolicyOf(req, tensors).value;
    match PromotionOf(policy, tensors, filters, cap, source, pack)
    case Err(_) =>
    case Ok(o) =>
      ConformingKeepsPlace(policy, tensors, pack, o);
      CandidateReadsBack(utf8, naming, data, o.result.tensors);
      ReadFacts(utf8, data);
      RecordsComeOut(utf8, naming, layout.records, NameSet(o.selection.names), policy.base, pack, o.result.tensors);
      assert RecordsOf(naming, o.result.tensors) == WithTensors(naming, layout, o.result.tensors).records;
  }

  /** A selected record gets type 3, group size 32 and the packed bytes, and keeps its name and shape; any other record
      stays. */
  ghost predicate RecordComesOut(naming: Naming, names: set<string>, pack: Packer, r: Record, r': Record) {
    if naming.decode(r.entry.name) in names then
      && r'.entry == Entry(r.entry.name, 3, r.entry.shape, 32, |r'.data|)
      && pack(naming.decode(r.entry.name), r.entry.shape) == Some(r'.data)
    else r' == r
  }

  lemma RecordsComeOut(utf8: Utf8, naming: Naming, records: seq<Record>, names: set<string>, base: string, pack: Packer,
                       tensors': seq<Tensor>)
    requires Faithful(utf8, naming) && NamesDecode(utf8, records) && RecordsInRange(records) && |tensors'| == |records|
    requires forall i | 0 <= i < |records| :: ComesOut(names, base, pack, TensorsOf(naming, records)[i], tensors'[i])
    ensures forall i | 0 <= i < |records| :: RecordComesOut(naming, names, pack, records[i], RecordsOf(naming, tensors')[i])
  {
    hide ComesOut, RecordComesOut, RecordInRange, Faithful;
    forall i | 0 <= i < |records| ensures RecordComesOut(naming, names, pack, records[i], RecordsOf(naming, tensors')[i]) {
      assert RecordInRange(records[i]) && utf8(records[i].entry.name);
      assert ComesOut(names, base, pack, TensorsOf(naming, records)[i], tensors'[i]);
      OneRecordComesOut(utf8, naming, records[i], names, base, pack, tensors'[i]);
    }
  }

  lemma OneRecordComesOut(utf8: Utf8, naming: Naming, r: Record, names: set<string>, base: string, pack: Packer, t': Tensor)
    requires Faithful(utf8, naming) && utf8(r.entry.name) && RecordInRange(r)
    requires ComesOut(names, base, pack, TensorOf(naming, r), t')
    ensures RecordComesOut(naming, names, pack, r, RecordOf(naming, t'))
  {
    hide Q8Size, FormatOf, EntryInRange;
    assert naming.encode(naming.decode(r.entry.name)) == r.entry.name;
  }

  lemma ConformingKeepsPlace(policy: PolicyFile, tensors: seq<Tensor>, pack: Packer, o: Outcome)
    requires Conforms(policy, tensors, pack, o)
    ensures AllKeepPlace(tensors, o.result.tensors)
  {
    hide KeepsPlace, ComesOut;
    forall i | 0 <= i < |tensors| ensures KeepsPlace(tensors[i], o.result.tensors[i]) {
      ComesOutKeepsPlace(NameSet(o.selection.names), policy.base, pack, tensors[i], o.result.tensors[i]);
    }
  }
}
