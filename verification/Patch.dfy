/** Candidate files of scripts/astrea.py: `read_hfq_index`, the in-place tensor patches of
    `patch_hfq_tensor_from_file`, and the worker pool of `run_patch_tasks` that prepares them. */
module Patch {
  import opened Wrappers
  import opened Bytes
  import opened Sorting
  import opened JsonScan
  import opened Hfq
  import opened Places
  import opened HfqFiles

  // ---------- the index ----------

  /** An index entry with the payload offset the reader computes for it. */
  datatype Located = Located(entry: Entry, offset: nat) {
    function End(): nat {
      offset + entry.dataSize
    }
  }

  function Locate(utf8: Utf8, index: seq<byte>, offset: nat, n: nat): Result<(seq<Located>, seq<byte>), Error>
    decreases n
  {
    if n == 0 then Ok(([], index))
    else
      var (e, rest) :- TakeEntry(utf8, index);
      var (ts, rest') :- Locate(utf8, rest, offset + e.dataSize, n - 1);
      Ok(([Located(e, offset)] + ts, rest'))
  }

  /** `read_hfq_index` as a function of the file's bytes; `loads` says which metadata texts parse. */
  function Index(utf8: Utf8, loads: Utf8, data: seq<byte>): Result<(seq<Located>, seq<byte>), Error> {
    if |data| < 32 then Err(Malformed)
    else if data[0..4] != MAGIC then Err(NotHfq)
    else
      var h := HeaderOf(data);
      if h.metadataOffset > h.dataOffset || h.dataOffset > |data| then Err(OutOfRange)
      else
        var region := data[h.metadataOffset..h.dataOffset];
        var end :- ScanResult(Scan(region, At(0)));
        if !loads(region[..end]) then Err(Malformed)
        else IndexTail(utf8, data, h, h.metadataOffset + end)
  }

  function IndexTail(utf8: Utf8, data: seq<byte>, h: Header, pos: nat): Result<(seq<Located>, seq<byte>), Error> {
    if pos + 4 > h.dataOffset || h.dataOffset > |data| then Err(Malformed)
    else if Number(data[pos..pos + 4]) != h.n then Err(CountMismatch)
    else Locate(utf8, data[pos + 4..], h.dataOffset, h.n)
  }

  lemma LocateUnfold(utf8: Utf8, index: seq<byte>, offset: nat, n: nat)
    requires n > 0
    ensures TakeEntry(utf8, index).Err? ==> Locate(utf8, index, offset, n) == Err(TakeEntry(utf8, index).error)
    ensures TakeEntry(utf8, index).Ok? ==>
              var (e, rest) := TakeEntry(utf8, index).value;
              Locate(utf8, index, offset, n) == After([Located(e, offset)], Locate(utf8, rest, offset + e.dataSize, n - 1))
  {
    hide TakeEntry;
  }

  lemma NoneLocated(utf8: Utf8, index: seq<byte>, offset: nat, ts: seq<Located>)
    ensures After(ts, Locate(utf8, index, offset, 0)) == Ok((ts, index))
  {
    assert ts + [] == ts;
  }

  /** The loop of `read_hfq_index`. */
  method LocateAll(utf8: Utf8, data: seq<byte>, start: nat, dataOffset: nat, n: nat)
    returns (r: Result<(seq<Located>, nat), Error>)
    requires start <= |data|
    ensures Mirrors(r, data, Locate(utf8, data[start..], dataOffset, n))
  {
    hide TakeEntry, Locate, After;
    var pos: nat, offset: nat, ts: seq<Located> := start, dataOffset, [];
    ghost var whole := Locate(utf8, data[start..], dataOffset, n);
    AfterAfter([], Located(Entry([], 0, [], 0, 0), 0), whole);
    for k := 0 to n
      invariant pos <= |data|
      invariant whole == After(ts, Locate(utf8, data[pos..], offset, n - k))
    {
      LocateUnfold(utf8, data[pos..], offset, n - k);
      var entry := ReadEntry(utf8, data, pos);
      if entry.Err? {
        AfterErr(ts, Locate(utf8, data[pos..], offset, n - k));
        return Err(entry.error);
      }
      pos := entry.value.1;
      AfterAfter(ts, Located(entry.value.0, offset), Locate(utf8, data[pos..], offset + entry.value.0.dataSize, n - k - 1));
      ts := ts + [Located(entry.value.0, offset)];
      offset := offset + entry.value.0.dataSize;
    }
    NoneLocated(utf8, data[pos..], offset, ts);
    r := Ok((ts, pos));
  }

  /** `read_hfq_index`: the tensors with their offsets, and where the index ends. */
  method ReadIndex(utf8: Utf8, loads: Utf8, data: seq<byte>) returns (r: Result<(seq<Located>, nat), Error>)
    ensures Mirrors(r, data, Index(utf8, loads, data))
  {
    hide Number, Scan, Locate;
    if |data| < 32 {
      return Err(Malformed);
    }
    if data[0..4] != MAGIC {
      return Err(NotHfq);
    }
    var h := HeaderOf(data);
    if h.metadataOffset > h.dataOffset || h.dataOffset > |data| {
      return Err(OutOfRange);
    }
    var region := data[h.metadataOffset..h.dataOffset];
    var jsonEnd := JsonObjectEnd(region);
    if jsonEnd.None? {
      return Err(NoObjectEnd);
    }
    if !loads(region[..jsonEnd.value]) {
      return Err(Malformed);
    }
    var pos := h.metadataOffset + jsonEnd.value;
    if pos + 4 > h.dataOffset {
      return Err(Malformed);
    }
    if Number(data[pos..pos + 4]) != h.n {
      return Err(CountMismatch);
    }
    r := LocateAll(utf8, data, pos + 4, h.dataOffset, h.n);
  }

  /** Payloads lie back to back: earlier tensors end before later ones start. */
  ghost predicate BackToBack(ts: seq<Located>, from: nat) {
    && (forall i | 0 <= i < |ts| :: from <= ts[i].offset)
    && (forall i, j | 0 <= i < j < |ts| :: ts[i].End() <= ts[j].offset)
  }

  function EntriesBytes(ts: seq<Located>): seq<byte> {
    if ts == [] then [] else EntryBytes(ts[0].entry) + EntriesBytes(ts[1..])
  }

  /** What locating establishes: offsets back to back, and a result that depends only on the index bytes. */
  lemma {:induction false} LocateFacts(utf8: Utf8, index: seq<byte>, offset: nat, n: nat, tail: seq<byte>)
    requires Locate(utf8, index, offset, n).Ok?
    ensures var (ts, rest) := Locate(utf8, index, offset, n).value;
            && |ts| == n && BackToBack(ts, offset)
            && index == EntriesBytes(ts) + rest
            && Locate(utf8, EntriesBytes(ts) + tail, offset, n) == Ok((ts, tail))
    decreases n
  {
    hide TakeEntry, EntryBytes, EntryInRange, BackToBack;
    if n == 0 {
      NoneBackToBack(offset);
      assert index == [] + index && [] + tail == tail;
    } else {
      EntryWrites(utf8, index);
      var (e, rest) := TakeEntry(utf8, index).value;
      LocateFacts(utf8, rest, offset + e.dataSize, n - 1, tail);
      var (ts, rest') := Locate(utf8, rest, offset + e.dataSize, n - 1).value;
      var all := [Located(e, offset)] + ts;
      assert all[1..] == ts;
      assert index == EntryBytes(e) + EntriesBytes(ts) + rest';
      assert EntriesBytes(all) + tail == EntryBytes(e) + (EntriesBytes(ts) + tail);
      EntryReads(utf8, e, EntriesBytes(ts) + tail);
      BackToBackFront(e, offset, ts);
    }
  }

  /** Each tensor starts where the one before it ends, the first at `from`. */
  ghost predicate Cumulative(ts: seq<Located>, from: nat) {
    && (ts != [] ==> ts[0].offset == from)
    && (forall i | 0 < i < |ts| :: ts[i].offset == ts[i - 1].End())
  }

  ghost function AsRecords(ts: seq<Located>): (rs: seq<Record>)
    ensures |rs| == |ts|
  {
    seq(|ts|, i requires 0 <= i < |ts| => Record(ts[i].entry, []))
  }

  /** Located tensors are cumulative and their entries lie where they were read. */
  lemma {:induction false} LocatedAt(utf8: Utf8, data: seq<byte>, p: nat, offset: nat, n: nat)
    requires p <= |data| && Locate(utf8, data[p..], offset, n).Ok?
    ensures var ts := Locate(utf8, data[p..], offset, n).value.0;
            |ts| == n && Cumulative(ts, offset) && IndexAt(data, p, AsRecords(ts))
    decreases n
  {
    hide TakeEntry, EntryBytes, EntryInRange, EntryAt, EntrySize, IndexAt;
    if n == 0 {
      NoneAt(data, p);
    } else {
      EntryWrites(utf8, data[p..]);
      var (e, rest) := TakeEntry(utf8, data[p..]).value;
      HoldsStart(data, p, EntryBytes(e));
      EntryAtIff(data, p, e);
      assert rest == data[p..][|EntryBytes(e)|..] == data[p + EntrySize(e)..];
      LocatedAt(utf8, data, p + EntrySize(e), offset + e.dataSize, n - 1);
      OneMoreAt(data, p, Located(e, offset), Locate(utf8, rest, offset + e.dataSize, n - 1).value.0);
    }
  }

  lemma NoneAt(data: seq<byte>, p: nat)
    requires p <= |data|
    ensures IndexAt(data, p, AsRecords([]))
  {
  }

  lemma OneMoreAt(data: seq<byte>, p: nat, t: Located, ts: seq<Located>)
    requires EntryAt(data, p, t.entry) && IndexAt(data, p + EntrySize(t.entry), AsRecords(ts)) && Cumulative(ts, t.End())
    ensures Cumulative([t] + ts, t.offset) && IndexAt(data, p, AsRecords([t] + ts))
  {
    hide EntryAt, EntrySize;
    var all := [t] + ts;
    forall i | 0 < i < |all| ensures all[i].offset == all[i - 1].End() {
      assert i > 1 ==> ts[i - 1].offset == ts[i - 2].End();
    }
    assert AsRecords(all)[1..] == AsRecords(ts);
  }

  /** `read_hfq_index` by places: the count in the header and behind the metadata, the entries behind that, and each tensor
      where the one before it ends, the first at the data offset. */
  lemma IndexPlaces(utf8: Utf8, loads: Utf8, data: seq<byte>) returns (end: nat)
    requires Index(utf8, loads, data).Ok?
    ensures |data| >= 32
    ensures var ts, p := Index(utf8, loads, data).value.0, U64At(data, 16) + end;
            && U32At(data, 12) == |ts| && Cumulative(ts, U64At(data, 24))
            && p + 4 <= |data| && U32At(data, p) == |ts| && IndexAt(data, p + 4, AsRecords(ts))
  {
    hide Scan, Number, Locate, HeaderOf, Index, IndexAt, U32At, U64At, Cumulative;
    IndexUnfold(utf8, loads, data);
    var h := HeaderOf(data);
    HeaderAt(data);
    end := Scan(data[h.metadataOffset..h.dataOffset], At(0)).value;
    var p := h.metadataOffset + end;
    NumbersAt(data, p);
    LocatedAt(utf8, data, p + 4, h.dataOffset, h.n);
  }

  /** Both readers see the same tensors: same entries, and each payload at its offset. */
  ghost predicate SameTensors(data: seq<byte>, ts: seq<Located>, rs: seq<Record>) {
    && |ts| == |rs|
    && forall i | 0 <= i < |ts| ::
         ts[i].entry == rs[i].entry && ts[i].End() <= |data| && data[ts[i].offset..ts[i].End()] == rs[i].data
  }

  lemma {:induction false} LocateAgrees(utf8: Utf8, data: seq<byte>, index: seq<byte>, offset: nat, n: nat)
    requires ReadRecords(utf8, data, index, offset, n).Ok? && ReadRecords(utf8, data, index, offset, n).value.2 <= |data|
    ensures offset <= ReadRecords(utf8, data, index, offset, n).value.2
    ensures Locate(utf8, index, offset, n).Ok?
    ensures SameTensors(data, Locate(utf8, index, offset, n).value.0, ReadRecords(utf8, data, index, offset, n).value.0)
    decreases n
  {
    hide TakeEntry, SameTensors, Slice;
    if n == 0 {
      NoTensors(data);
    } else {
      var (e, rest) := TakeEntry(utf8, index).value;
      LocateAgrees(utf8, data, rest, offset + e.dataSize, n - 1);
      OneMoreTensor(data, e, offset, Locate(utf8, rest, offset + e.dataSize, n - 1).value.0,
                    ReadRecords(utf8, data, rest, offset + e.dataSize, n - 1).value.0);
    }
  }

  lemma NoTensors(data: seq<byte>)
    ensures SameTensors(data, [], [])
  {
  }

  lemma OneMoreTensor(data: seq<byte>, e: Entry, offset: nat, ts: seq<Located>, rs: seq<Record>)
    requires offset + e.dataSize <= |data| && SameTensors(data, ts, rs)
    ensures SameTensors(data, [Located(e, offset)] + ts, [Record(e, Slice(data, offset, offset + e.dataSize))] + rs)
  {
  }

  /** A file that `read_hfq_layout` reads and whose metadata parses and leaves room for the count before the payloads is
      read by `read_hfq_index` too, and both see the same tensors. */
  lemma ReadersAgree(utf8: Utf8, loads: Utf8, data: seq<byte>, layout: Layout)
    requires |data| >= 32 && Read(utf8, data) == Ok(layout) && loads(layout.metadata)
    requires HeaderOf(data).metadataOffset + |layout.metadata| + 4 <= HeaderOf(data).dataOffset
    ensures Index(utf8, loads, data).Ok? && SameTensors(data, Index(utf8, loads, data).value.0, layout.records)
  {
    hide Scan, Number, Locate, HeaderOf, Index, ReadRecords, SameTensors, Slice;
    ReadFacts(utf8, data);
    var h := HeaderOf(data);
    var region := Slice(data, h.metadataOffset, h.dataOffset);
    var end := Scan(region, At(0)).value;
    RegionFacts(data, h.metadataOffset, h.dataOffset, end);
    ReadTailFacts(utf8, data, h, region[..end], data[h.metadataOffset + end..]);
    SliceInside(data, h.metadataOffset, h.dataOffset);
    var p := h.metadataOffset + end;
    assert data[p..][4..] == data[p + 4..] && data[p..][..4] == data[p..p + 4];
    IndexFold(utf8, loads, data, h, end);
    LocateAgrees(utf8, data, data[p + 4..], h.dataOffset, h.n);
  }

  lemma SliceInside(data: seq<byte>, lo: nat, hi: nat)
    requires lo <= hi <= |data|
    ensures Slice(data, lo, hi) == data[lo..hi]
  {
  }

  lemma NoneBackToBack(offset: nat)
    ensures BackToBack([], offset)
  {
  }

  lemma BackToBackFront(e: Entry, offset: nat, ts: seq<Located>)
    requires BackToBack(ts, offset + e.dataSize)
    ensures BackToBack([Located(e, offset)] + ts, offset)
  {
  }

  // ---------- patching in place ----------

  /** Seek and write: bytes past the end are appended, a gap is filled with zeros. */
  function Overwrite(file: seq<byte>, offset: nat, packed: seq<byte>): seq<byte> {
    if offset > |file| then file + seq(offset - |file|, _ => 0) + packed
    else file[..offset] + packed + (if offset + |packed| < |file| then file[offset + |packed|..] else [])
  }

  /** The file being patched. */
  class CandidateFile {
    var bytes: seq<byte>

    /** A copy of the source model. */
    constructor (source: seq<byte>)
      ensures bytes == source
    {
      bytes := source;
    }

    /** `patch_hfq_tensor_from_file`: refuses a patch of the wrong size, else overwrites the tensor's bytes. */
    method Patch(t: Located, packed: seq<byte>) returns (ok: bool)
      modifies this
      ensures ok == (|packed| == t.entry.dataSize)
      ensures bytes == if ok then Overwrite(old(bytes), t.offset, packed) else old(bytes)
    {
      ok := |packed| == t.entry.dataSize;
      if ok {
        bytes := Overwrite(bytes, t.offset, packed);
      }
    }
  }

  /** One prepared patch. */
  datatype Job = Job(tensor: Located, packed: seq<byte>)

  /** All patches, first to last. */
  function ApplyAll(file: seq<byte>, jobs: seq<Job>): seq<byte> {
    if jobs == [] then file
    else
      var n := |jobs| - 1;
      Overwrite(ApplyAll(file, jobs[..n]), jobs[n].tensor.offset, jobs[n].packed)
  }

  predicate Covers(j: Job, k: nat) {
    j.tensor.offset <= k < j.tensor.offset + |j.packed|
  }

  predicate Apart(x: Job, y: Job) {
    x.tensor.offset + |x.packed| <= y.tensor.offset || y.tensor.offset + |y.packed| <= x.tensor.offset
  }

  /** Patches that fit the file and do not overlap. */
  ghost predicate Separate(file: seq<byte>, jobs: seq<Job>) {
    && (forall i | 0 <= i < |jobs| :: jobs[i].tensor.offset + |jobs[i].packed| <= |file|)
    && (forall i, j | 0 <= i < j < |jobs| :: Apart(jobs[i], jobs[j]))
  }

  /** The frame: byte `k` of the result is the patch's byte where a patch covers it, and the source's byte elsewhere. */
  ghost predicate Framed(file: seq<byte>, jobs: seq<Job>, result: seq<byte>) {
    && |result| == |file|
    && (forall i, k | 0 <= i < |jobs| && 0 <= k < |file| && Covers(jobs[i], k) ::
          result[k] == jobs[i].packed[k - jobs[i].tensor.offset])
    && (forall k | 0 <= k < |file| && (forall i | 0 <= i < |jobs| :: !Covers(jobs[i], k)) :: result[k] == file[k])
  }

  lemma OverwriteLength(file: seq<byte>, offset: nat, packed: seq<byte>)
    requires offset + |packed| <= |file|
    ensures |Overwrite(file, offset, packed)| == |file|
  {
  }

  lemma OverwriteAt(file: seq<byte>, offset: nat, packed: seq<byte>, k: nat)
    requires offset + |packed| <= |file| && k < |file|
    ensures |Overwrite(file, offset, packed)| == |file|
    ensures Overwrite(file, offset, packed)[k]
         == if offset <= k < offset + |packed| then packed[k - offset] else file[k]
  {
  }

  /** Every byte of a patched file. */
  lemma {:induction false} ApplyAllFramed(file: seq<byte>, jobs: seq<Job>)
    requires Separate(file, jobs)
    ensures Framed(file, jobs, ApplyAll(file, jobs))
  {
    if jobs == [] {
    } else {
      hide Overwrite;
      var n := |jobs| - 1;
      var before, last := jobs[..n], jobs[n];
      ApplyAllFramed(file, before);
      var mid := ApplyAll(file, before);
      var result := ApplyAll(file, jobs);
      OverwriteLength(mid, last.tensor.offset, last.packed);
      forall k: nat | k < |file|
        ensures result[k] == if Covers(last, k) then last.packed[k - last.tensor.offset] else mid[k]
      {
        OverwriteAt(mid, last.tensor.offset, last.packed, k);
      }
      FrameStep(file, jobs, mid, result);
    }
  }

  lemma FrameStep(file: seq<byte>, jobs: seq<Job>, mid: seq<byte>, result: seq<byte>)
    requires jobs != [] && Separate(file, jobs) && Framed(file, jobs[..|jobs| - 1], mid)
    requires |result| == |file|
    requires var last := jobs[|jobs| - 1];
             forall k: nat | k < |file| ::
               result[k] == if Covers(last, k) then last.packed[k - last.tensor.offset] else mid[k]
    ensures Framed(file, jobs, result)
  {
    var n := |jobs| - 1;
    var before, last := jobs[..n], jobs[n];
    forall i, k | 0 <= i < |jobs| && 0 <= k < |file| && Covers(jobs[i], k)
      ensures result[k] == jobs[i].packed[k - jobs[i].tensor.offset]
    {
      if i < n {
        assert Apart(jobs[i], last);
        assert Covers(before[i], k) && !Covers(last, k);
      }
    }
    forall k | 0 <= k < |file| && (forall i | 0 <= i < |jobs| :: !Covers(jobs[i], k)) ensures result[k] == file[k] {
      assert !Covers(jobs[n], k);
      assert forall i | 0 <= i < |before| :: before[i] == jobs[i];
    }
  }

  /** A frame pins the result down. */
  lemma FramedUnique(file: seq<byte>, jobs: seq<Job>, jobs': seq<Job>, a: seq<byte>, b: seq<byte>)
    requires forall j :: j in jobs <==> j in jobs'
    requires Framed(file, jobs, a) && Framed(file, jobs', b)
    ensures a == b
  {
    forall k | 0 <= k < |file| ensures a[k] == b[k] {
      if i :| 0 <= i < |jobs| && Covers(jobs[i], k) {
        assert jobs[i] in jobs';
        var j :| 0 <= j < |jobs'| && jobs'[j] == jobs[i];
        assert Covers(jobs'[j], k);
      } else {
        forall i | 0 <= i < |jobs'| ensures !Covers(jobs'[i], k) {
          assert jobs'[i] in jobs;
        }
      }
    }
  }

  /** The order in which the patches are applied does not matter. */
  lemma AnyOrderSameFile(file: seq<byte>, jobs: seq<Job>, jobs': seq<Job>)
    requires Separate(file, jobs) && Separate(file, jobs')
    requires forall j :: j in jobs <==> j in jobs'
    ensures ApplyAll(file, jobs) == ApplyAll(file, jobs')
  {
    hide ApplyAll, Separate, Framed;
    ApplyAllFramed(file, jobs);
    ApplyAllFramed(file, jobs');
    FramedUnique(file, jobs, jobs', ApplyAll(file, jobs), ApplyAll(file, jobs'));
  }

  // ---------- the worker pool ----------

  /** An order in which the futures may complete: every task, in any order (and no harm if one reports again). */
  ghost predicate CompletionOrder(order: seq<nat>, n: nat) {
    && (forall k | 0 <= k < |order| :: order[k] < n)
    && (forall i: nat | i < n :: i in order)
  }

  /** `run_patch_tasks` with a pool: results are filed under their task's index as they complete, then listed in task
      order.  Whatever the completion order, this is the serial result. */
  method RunPatchTasks<T, R>(tasks: seq<T>, worker: T -> R, order: seq<nat>) returns (results: seq<R>)
    requires CompletionOrder(order, |tasks|)
    ensures results == seq(|tasks|, i requires 0 <= i < |tasks| => worker(tasks[i]))
  {
    var byIndex: map<nat, R> := map[];
    for k := 0 to |order|
      invariant forall i | i in byIndex :: i < |tasks| && byIndex[i] == worker(tasks[i])
      invariant forall j | 0 <= j < k :: order[j] in byIndex
    {
      var i := order[k];
      byIndex := byIndex[i := worker(tasks[i])];
    }
    forall i: nat | i < |tasks| ensures i in byIndex {
      assert i in order;
      var k :| 0 <= k < |order| && order[k] == i;
    }
    results := seq(|tasks|, i requires 0 <= i < |tasks| && i in byIndex => byIndex[i]);
  }

  // ---------- a whole candidate ----------

  /** A file whose index is readable and ends before the payloads start, and whose payloads lie behind the header and
      inside the file. */
  ghost predicate WellFormedFile(utf8: Utf8, loads: Utf8, data: seq<byte>) {
    && Index(utf8, loads, data).Ok?
    && |data| >= 32 && HeaderOf(data).dataOffset >= 32
    && var (ts, rest) := Index(utf8, loads, data).value;
    && |data| - |rest| <= HeaderOf(data).dataOffset
    && forall i | 0 <= i < |ts| :: ts[i].End() <= |data|
  }

  /** Distinct tensors of one index, each with a patch of its size. */
  ghost predicate GoodJobs(ts: seq<Located>, jobs: seq<Job>) {
    && (forall i | 0 <= i < |jobs| :: jobs[i].tensor in ts && |jobs[i].packed| == jobs[i].tensor.entry.dataSize)
    && (forall i, j | 0 <= i < j < |jobs| :: jobs[i].tensor.entry.name != jobs[j].tensor.entry.name)
  }

  lemma GoodJobsSeparate(ts: seq<Located>, from: nat, data: seq<byte>, jobs: seq<Job>)
    requires BackToBack(ts, from) && (forall i | 0 <= i < |ts| :: ts[i].End() <= |data|) && GoodJobs(ts, jobs)
    ensures Separate(data, jobs)
    ensures forall i | 0 <= i < |jobs| :: from <= jobs[i].tensor.offset
  {
    forall i | 0 <= i < |jobs| ensures from <= jobs[i].tensor.offset && jobs[i].tensor.offset + |jobs[i].packed| <= |data| {
      var a :| 0 <= a < |ts| && ts[a] == jobs[i].tensor;
    }
    forall i, j | 0 <= i < j < |jobs| ensures Apart(jobs[i], jobs[j]) {
      var a :| 0 <= a < |ts| && ts[a] == jobs[i].tensor;
      var b :| 0 <= b < |ts| && ts[b] == jobs[j].tensor;
      assert a != b;
      if a < b {
        assert ts[a].End() <= ts[b].offset;
      } else {
        assert ts[b].End() <= ts[a].offset;
      }
    }
  }

  lemma IndexUnfold(utf8: Utf8, loads: Utf8, data: seq<byte>)
    requires Index(utf8, loads, data).Ok?
    ensures |data| >= 32
    ensures var h := HeaderOf(data);
            && data[0..4] == MAGIC && h.metadataOffset <= h.dataOffset <= |data|
            && var region := data[h.metadataOffset..h.dataOffset];
            && Scan(region, At(0)).Some? && loads(region[..Scan(region, At(0)).value])
            && var pos := h.metadataOffset + Scan(region, At(0)).value;
            && pos + 4 <= h.dataOffset && Number(data[pos..pos + 4]) == h.n
            && Index(utf8, loads, data) == Locate(utf8, data[pos + 4..], h.dataOffset, h.n)
  {
    hide Scan, Number, Locate;
  }

  lemma HeaderOfPrefix(data: seq<byte>, data': seq<byte>)
    requires |data| >= 32 && |data'| >= 32 && data[..32] == data'[..32]
    ensures HeaderOf(data) == HeaderOf(data') && data[0..4] == data'[0..4]
  {
    hide Number;
    SameSlice(data, data', 32, 0, 4);
    SameSlice(data, data', 32, 4, 8);
    SameSlice(data, data', 32, 8, 12);
    SameSlice(data, data', 32, 12, 16);
    SameSlice(data, data', 32, 16, 24);
    SameSlice(data, data', 32, 24, 32);
  }

  lemma SameSlice(data: seq<byte>, data': seq<byte>, n: nat, lo: nat, hi: nat)
    requires n <= |data| && n <= |data'| && data[..n] == data'[..n] && lo <= hi <= n
    ensures data[lo..hi] == data'[lo..hi]
  {
    assert data[lo..hi] == data[..n][lo..hi] && data'[lo..hi] == data'[..n][lo..hi];
  }

  /** The converse: a file with these parts has this index. */
  lemma IndexFold(utf8: Utf8, loads: Utf8, data: seq<byte>, h: Header, end: nat)
    requires |data| >= 32 && data[0..4] == MAGIC && h == HeaderOf(data) && h.metadataOffset <= h.dataOffset <= |data|
    requires var region := data[h.metadataOffset..h.dataOffset];
             Scan(region, At(0)) == Some(end) && end <= |region| && loads(region[..end])
    requires var pos := h.metadataOffset + end; pos + 4 <= h.dataOffset && Number(data[pos..pos + 4]) == h.n
    ensures Index(utf8, loads, data) == Locate(utf8, data[h.metadataOffset + end + 4..], h.dataOffset, h.n)
  {
    hide Scan, Number, Locate, HeaderOf;
  }

  /** Locating looks at nothing behind the index. */
  lemma LocateKept(utf8: Utf8, data: seq<byte>, data': seq<byte>, p: nat, d: nat, n: nat)
    requires p <= d <= |data| == |data'| && data[..d] == data'[..d]
    requires Locate(utf8, data[p..], d, n).Ok? && |data| - |Locate(utf8, data[p..], d, n).value.1| <= d
    ensures Locate(utf8, data'[p..], d, n).Ok? && Locate(utf8, data'[p..], d, n).value.0 == Locate(utf8, data[p..], d, n).value.0
  {
    hide Locate, EntriesBytes;
    var (ts, rest) := Locate(utf8, data[p..], d, n).value;
    LocateFacts(utf8, data[p..], d, n, []);
    var stop := p + |EntriesBytes(ts)|;
    assert stop == |data| - |rest| <= d;
    SameSlice(data, data', d, p, stop);
    assert data[p..stop] == data[p..][..|EntriesBytes(ts)|] == EntriesBytes(ts);
    assert data'[p..] == data'[p..stop] + data'[stop..];
    LocateFacts(utf8, data[p..], d, n, data'[stop..]);
  }

  /** Rewriting bytes from the data offset on leaves the index as it was. */
  lemma IndexKept(utf8: Utf8, loads: Utf8, data: seq<byte>, data': seq<byte>)
    requires WellFormedFile(utf8, loads, data) && |data'| == |data|
    requires data[..HeaderOf(data).dataOffset] == data'[..HeaderOf(data).dataOffset] && HeaderOf(data).dataOffset <= |data|
    ensures Index(utf8, loads, data').Ok? && Index(utf8, loads, data').value.0 == Index(utf8, loads, data).value.0
  {
    hide Scan, Number, Locate, HeaderOf, Index;
    IndexUnfold(utf8, loads, data);
    var h := HeaderOf(data);
    var d := h.dataOffset;
    SameSlice(data, data', d, 0, 32);
    assert data[..32] == data[0..32] && data'[..32] == data'[0..32];
    HeaderOfPrefix(data, data');
    SameSlice(data, data', d, h.metadataOffset, d);
    var end := Scan(data[h.metadataOffset..d], At(0)).value;
    var pos := h.metadataOffset + end;
    SameSlice(data, data', d, pos, pos + 4);
    IndexFold(utf8, loads, data', h, end);
    LocateKept(utf8, data, data', pos + 4, d, h.n);
  }

  lemma FramedPrefix(file: seq<byte>, jobs: seq<Job>, result: seq<byte>, d: nat)
    requires Framed(file, jobs, result) && d <= |file| && forall i | 0 <= i < |jobs| :: d <= jobs[i].tensor.offset
    ensures file[..d] == result[..d]
  {
    forall k | 0 <= k < d ensures file[k] == result[k] {
      assert forall i | 0 <= i < |jobs| :: !Covers(jobs[i], k);
    }
  }

  lemma FramedLength(file: seq<byte>, jobs: seq<Job>, result: seq<byte>)
    requires Framed(file, jobs, result)
    ensures |result| == |file|
  {
  }

  lemma JobSlice(ts: seq<Located>, file: seq<byte>, jobs: seq<Job>, result: seq<byte>, i: nat)
    requires GoodJobs(ts, jobs) && Separate(file, jobs) && Framed(file, jobs, result) && i < |jobs|
    ensures var t := jobs[i].tensor; t.End() <= |result| && result[t.offset..t.End()] == jobs[i].packed
  {
    var t, packed := jobs[i].tensor, jobs[i].packed;
    forall k | 0 <= k < |packed| ensures result[t.offset + k] == packed[k] {
      assert Covers(jobs[i], t.offset + k);
    }
  }

  /** The frame of in-place patching: for a well-formed file and distinct tensors of its index, the patched file has the
      same length and the same index, every selected tensor holds exactly its packed bytes and every other byte is the
      source's. */
  lemma PatchedCandidate(utf8: Utf8, loads: Utf8, source: seq<byte>, jobs: seq<Job>)
    requires WellFormedFile(utf8, loads, source)
    requires GoodJobs(Index(utf8, loads, source).value.0, jobs)
    ensures var result := ApplyAll(source, jobs);
            && Framed(source, jobs, result)
            && Index(utf8, loads, result).Ok?
            && Index(utf8, loads, result).value.0 == Index(utf8, loads, source).value.0
            && forall i | 0 <= i < |jobs| ::
                 jobs[i].tensor.End() <= |result| && result[jobs[i].tensor.offset..jobs[i].tensor.End()] == jobs[i].packed
  {
    hide Scan, Number, Locate, HeaderOf, ApplyAll, Index, Framed, BackToBack, GoodJobs, Separate;
    IndexUnfold(utf8, loads, source);
    var h := HeaderOf(source);
    var pos := h.metadataOffset + Scan(source[h.metadataOffset..h.dataOffset], At(0)).value;
    LocateFacts(utf8, source[pos + 4..], h.dataOffset, h.n, []);
    var ts := Index(utf8, loads, source).value.0;
    GoodJobsSeparate(ts, h.dataOffset, source, jobs);
    ApplyAllFramed(source, jobs);
    var result := ApplyAll(source, jobs);
    FramedPrefix(source, jobs, result, h.dataOffset);
    FramedLength(source, jobs, result);
    IndexKept(utf8, loads, source, result);
    forall i | 0 <= i < |jobs|
      ensures jobs[i].tensor.End() <= |result| && result[jobs[i].tensor.offset..jobs[i].tensor.End()] == jobs[i].packed
    {
      JobSlice(ts, source, jobs, result, i);
    }
  }

  /** Entry `i` is the last one of this name. */
  ghost predicate LastOf(ts: seq<Located>, name: seq<byte>, i: nat)
    requires i < |ts|
  {
    ts[i].entry.name == name && forall j | i < j < |ts| :: ts[j].entry.name != name
  }

  /** The tensor map of `read_hfq_index`: the last entry of a name wins. */
  function LookUp(ts: seq<Located>, name: seq<byte>): (t: Option<Located>)
    ensures t.Some? ==> exists i :: 0 <= i < |ts| && LastOf(ts, name, i) && ts[i] == t.value
    ensures t.None? ==> forall i | 0 <= i < |ts| :: ts[i].entry.name != name
  {
    if ts == [] then None
    else
      var n := |ts| - 1;
      if ts[n].entry.name == name then
        assert LastOf(ts, name, n);
        Some(ts[n])
      else
        var t := LookUp(ts[..n], name);
        assert forall i | 0 <= i < n && LastOf(ts[..n], name, i) :: LastOf(ts, name, i);
        t
  }

  /** The patch of every selected tensor. */
  function Packed(selected: seq<Located>, worker: Located -> seq<byte>): (jobs: seq<Job>)
    ensures |jobs| == |selected|
  {
    seq(|selected|, i requires 0 <= i < |selected| => Job(selected[i], worker(selected[i])))
  }

  lemma ApplyNext(file: seq<byte>, jobs: seq<Job>, k: nat)
    requires k < |jobs|
    ensures ApplyAll(file, jobs[..k + 1]) == Overwrite(ApplyAll(file, jobs[..k]), jobs[k].tensor.offset, jobs[k].packed)
    ensures ApplyAll(file, jobs[..0]) == file && jobs[..|jobs|] == jobs
  {
    assert jobs[..k + 1][..k] == jobs[..k];
  }

  /** Pool, then patches in task order: succeeds exactly when every patch has its tensor's size. */
  method PatchAll(source: seq<byte>, selected: seq<Located>, worker: Located -> seq<byte>, order: seq<nat>)
    returns (file: CandidateFile, ok: bool)
    requires CompletionOrder(order, |selected|)
    ensures fresh(file)
    ensures ok <==> forall i | 0 <= i < |selected| :: |worker(selected[i])| == selected[i].entry.dataSize
    ensures ok ==> file.bytes == ApplyAll(source, Packed(selected, worker))
  {
    hide Overwrite, ApplyAll, CompletionOrder;
    file := new CandidateFile(source);
    var packed := RunPatchTasks(selected, worker, order);
    ghost var jobs := Packed(selected, worker);
    NoJobs(source, jobs);
    for k := 0 to |packed|
      invariant fresh(file)
      invariant file.bytes == ApplyAll(source, jobs[..k])
      invariant forall i | 0 <= i < k :: |worker(selected[i])| == selected[i].entry.dataSize
    {
      assert packed[k] == worker(selected[k]);
      ok := file.Patch(selected[k], packed[k]);
      if !ok {
        return;
      }
      ApplyNext(source, jobs, k);
    }
    ok := true;
  }

  lemma NoJobs(file: seq<byte>, jobs: seq<Job>)
    ensures ApplyAll(file, jobs[..0]) == file && jobs[..|jobs|] == jobs
  {
  }

  /** Looks every selected name up in the tensor map. */
  method SelectTensors(ts: seq<Located>, names: seq<seq<byte>>) returns (selected: seq<Located>, ok: bool)
    ensures ok <==> forall i | 0 <= i < |names| :: LookUp(ts, names[i]).Some?
    ensures ok ==> |selected| == |names| && forall i | 0 <= i < |names| :: LookUp(ts, names[i]) == Some(selected[i])
  {
    hide LookUp;
    selected := [];
    for i := 0 to |names|
      invariant |selected| == i && forall j | 0 <= j < i :: LookUp(ts, names[j]) == Some(selected[j])
    {
      var t := LookUp(ts, names[i]);
      if t.None? {
        return [], false;
      }
      selected := selected + [t.value];
    }
    ok := true;
  }

  /** The named tensor exists and its patch has its size. */
  predicate PatchFits(ts: seq<Located>, name: seq<byte>, worker: Located -> seq<byte>) {
    var t := LookUp(ts, name);
    t.Some? && |worker(t.value)| == t.value.entry.dataSize
  }

  /** The candidate writers' core: copy, read the index, prepare the patches in a pool, apply them in task order.  For a
      well-formed model and distinct names the written candidate obeys the frame, whatever order the workers finish in. */
  method WriteCandidate(utf8: Utf8, loads: Utf8, source: seq<byte>, names: seq<seq<byte>>,
                        worker: Located -> seq<byte>, order: seq<nat>)
    returns (file: CandidateFile, ok: bool, jobs: seq<Job>)
    requires CompletionOrder(order, |names|)
    ensures ok <==> Index(utf8, loads, source).Ok? && forall i | 0 <= i < |names| ::
              PatchFits(Index(utf8, loads, source).value.0, names[i], worker)
    ensures ok ==> |jobs| == |names|
    ensures ok ==> forall i | 0 <= i < |names| ::
              LookUp(Index(utf8, loads, source).value.0, names[i]) == Some(jobs[i].tensor) && jobs[i].packed == worker(jobs[i].tensor)
    ensures ok && WellFormedFile(utf8, loads, source) && NoRepeats(names) ==>
              && Framed(source, jobs, file.bytes)
              && Index(utf8, loads, file.bytes).Ok?
              && Index(utf8, loads, file.bytes).value.0 == Index(utf8, loads, source).value.0
              && forall i | 0 <= i < |jobs| ::
                   jobs[i].tensor.End() <= |file.bytes| && file.bytes[jobs[i].tensor.offset..jobs[i].tensor.End()] == jobs[i].packed
  {
    hide Index, LookUp, Framed, ApplyAll, WellFormedFile, CompletionOrder;
    jobs := [];
    var index := ReadIndex(utf8, loads, source);
    if index.Err? {
      file := new CandidateFile(source);
      return file, false, [];
    }
    var selected, found := SelectTensors(index.value.0, names);
    if !found {
      file := new CandidateFile(source);
      return file, false, [];
    }
    file, ok := PatchAll(source, selected, worker, order);
    jobs := Packed(selected, worker);
    assert forall i | 0 <= i < |names| ::
        PatchFits(index.value.0, names[i], worker) == (|worker(selected[i])| == selected[i].entry.dataSize);
    if ok && WellFormedFile(utf8, loads, source) && NoRepeats(names) {
      SelectedAreGood(index.value.0, names, selected, worker);
      PatchedCandidate(utf8, loads, source, jobs);
    }
  }

  lemma SelectedAreGood(ts: seq<Located>, names: seq<seq<byte>>, selected: seq<Located>, worker: Located -> seq<byte>)
    requires |selected| == |names| && NoRepeats(names)
    requires forall i | 0 <= i < |names| :: LookUp(ts, names[i]) == Some(selected[i])
    requires forall i | 0 <= i < |selected| :: |worker(selected[i])| == selected[i].entry.dataSize
    ensures GoodJobs(ts, Packed(selected, worker))
  {
    hide LookUp;
    forall i | 0 <= i < |names| ensures selected[i] in ts && selected[i].entry.name == names[i] {
      assert LookUp(ts, names[i]) == Some(selected[i]);
    }
  }
}
