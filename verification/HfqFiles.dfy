/** The loops of `write_hfq_layout`, `read_hfq_layout` and `read_hfq_index` in scripts/astrea.py, proved against the
    byte-level functions of module Hfq. */
module HfqFiles {
  import opened Wrappers
  import opened Bytes
  import opened JsonScan
  import opened Hfq
  import opened Places

  // ---------- writing ----------

  lemma {:induction false} DimsAppend(shape: seq<nat>, d: nat)
    ensures DimsBytes(shape + [d]) == DimsBytes(shape) + LittleEndian(d, 4)
  {
    hide LittleEndian;
    if shape == [] {
      assert shape + [d] == [d] && [d][1..] == [];
    } else {
      assert (shape + [d])[1..] == shape[1..] + [d];
      DimsAppend(shape[1..], d);
    }
  }

  lemma {:induction false} RecordsAppend(records: seq<Record>, r: Record)
    ensures IndexBytes(records + [r]) == IndexBytes(records) + EntryBytes(r.entry)
    ensures Payloads(records + [r]) == Payloads(records) + r.data
  {
    hide EntryBytes;
    if records == [] {
      assert records + [r] == [r] && [r][1..] == [];
    } else {
      assert (records + [r])[1..] == records[1..] + [r];
      RecordsAppend(records[1..], r);
    }
  }

  method PackDims(shape: seq<nat>) returns (r: Result<seq<byte>, Error>)
    ensures r.Ok? <==> forall i | 0 <= i < |shape| :: shape[i] < Pow256(4)
    ensures r.Ok? ==> r.value == DimsBytes(shape)
  {
    hide Pow256, LittleEndian;
    var out: seq<byte> := [];
    assert shape[..0] == [];
    for i := 0 to |shape|
      invariant out == DimsBytes(shape[..i])
      invariant forall j | 0 <= j < i :: shape[j] < Pow256(4)
    {
      if shape[i] >= Pow256(4) {
        return Err(OutOfRange);
      }
      DimsAppend(shape[..i], shape[i]);
      assert shape[..i + 1] == shape[..i] + [shape[i]];
      out := out + LittleEndian(shape[i], 4);
    }
    assert shape[..|shape|] == shape;
    r := Ok(out);
  }

  method PackEntry(e: Entry) returns (r: Result<seq<byte>, Error>)
    ensures r.Ok? <==> EntryInRange(e)
    ensures r.Ok? ==> r.value == EntryBytes(e)
  {
    hide Pow256, LittleEndian, DimsBytes;
    if |e.name| >= Pow256(2) || e.quantType >= Pow256(1) || |e.shape| >= Pow256(1) {
      return Err(OutOfRange);
    }
    var out := LittleEndian(|e.name|, 2);
    out := out + e.name;
    out := out + LittleEndian(e.quantType, 1);
    out := out + LittleEndian(|e.shape|, 1);
    var dims :- PackDims(e.shape);
    out := out + dims;
    if e.groupSize >= Pow256(4) || e.dataSize >= Pow256(8) {
      return Err(OutOfRange);
    }
    out := out + LittleEndian(e.groupSize, 4);
    out := out + LittleEndian(e.dataSize, 8);
    r := Ok(out);
  }

  /** `write_hfq_layout`: succeeds exactly when every field fits and every payload has its size, and then writes the image. */
  method WriteLayout(layout: Layout) returns (r: Result<seq<byte>, Error>)
    ensures r.Ok? <==> Writable(layout)
    ensures r.Ok? ==> r.value == Image(layout) && LaidOut(r.value, layout, 32, DataOffset(layout))
  {
    hide Pow256, LittleEndian, EntryBytes, EntryInRange, HeaderBytes, LaidOut;
    var records := layout.records;
    if |records| >= Pow256(4) {
      return Err(OutOfRange);
    }
    var index: seq<byte> := [];
    var payloads: seq<byte> := [];
    assert records[..0] == [];
    for i := 0 to |records|
      invariant index == IndexBytes(records[..i]) && payloads == Payloads(records[..i])
      invariant forall j | 0 <= j < i :: RecordInRange(records[j])
    {
      if |records[i].data| != records[i].entry.dataSize {
        assert !RecordInRange(records[i]);
        return Err(PayloadMismatch);
      }
      var packed := PackEntry(records[i].entry);
      if packed.Err? {
        assert !RecordInRange(records[i]);
        return Err(packed.error);
      }
      RecordsAppend(records[..i], records[i]);
      assert records[..i + 1] == records[..i] + [records[i]];
      index := index + packed.value;
      payloads := payloads + records[i].data;
    }
    assert records[..|records|] == records;
    var dataOffset := 32 + |layout.metadata| + 4 + |index|;
    if layout.version >= Pow256(4) || layout.arch >= Pow256(4) || dataOffset >= Pow256(8) {
      return Err(OutOfRange);
    }
    var out := HeaderBytes(layout.version, layout.arch, |records|, 32, dataOffset);
    out := out + layout.metadata + (LittleEndian(|records|, 4) + index) + payloads;
    r := Ok(out);
    ImageIsLaidOut(layout);
  }

  // ---------- reading ----------

  /** `struct.unpack_from`: an n-byte number at a position. */
  function NumberAt(data: seq<byte>, pos: nat, n: nat): Result<nat, Error> {
    if pos + n <= |data| then Ok(Number(data[pos..pos + n])) else Err(Malformed)
  }

  lemma NumberAtIsField(data: seq<byte>, pos: nat, n: nat)
    requires pos <= |data|
    ensures NumberAt(data, pos, n).Ok? <==> Field(data[pos..], n).Ok?
    ensures NumberAt(data, pos, n).Ok? ==>
              pos + n <= |data| && Field(data[pos..], n) == Ok((NumberAt(data, pos, n).value, data[pos + n..]))
    ensures NumberAt(data, pos, n).Err? ==> Field(data[pos..], n) == Err(Malformed)
  {
    hide Number;
    if pos + n <= |data| {
      assert data[pos..][..n] == data[pos..pos + n] && data[pos..][n..] == data[pos + n..];
    }
  }

  /** A read at a position mirrors a read off the front of the rest. */
  ghost predicate Mirrors<T(!new)>(r: Result<(T, nat), Error>, data: seq<byte>, front: Result<(T, seq<byte>), Error>) {
    match (r, front)
    case (Ok((v, pos)), Ok((w, rest))) => v == w && pos <= |data| && data[pos..] == rest
    case (Err(e), Err(e')) => e == e'
    case _ => false
  }

  /** Puts what has been read so far in front of what is still to be read. */
  ghost function After<T, R>(xs: seq<T>, r: Result<(seq<T>, R), Error>): Result<(seq<T>, R), Error> {
    match r
    case Err(e) => Err(e)
    case Ok((ys, rest)) => Ok((xs + ys, rest))
  }

  lemma AfterAfter<T, R>(xs: seq<T>, x: T, r: Result<(seq<T>, R), Error>)
    ensures After(xs, After([x], r)) == After(xs + [x], r)
    ensures After([], r) == r
  {
    if r.Ok? {
      assert xs + ([x] + r.value.0) == xs + [x] + r.value.0;
      assert [] + r.value.0 == r.value.0;
    }
  }

  lemma DimsUnfold(rest: seq<byte>, n: nat)
    requires n > 0
    ensures Field(rest, 4).Err? ==> Dims(rest, n) == Err(Field(rest, 4).error)
    ensures Field(rest, 4).Ok? ==> var (d, rest1) := Field(rest, 4).value; Dims(rest, n) == After([d], Dims(rest1, n - 1))
  {
    hide Field;
  }

  method ReadDims(data: seq<byte>, start: nat, n: nat) returns (r: Result<(seq<nat>, nat), Error>)
    requires start <= |data|
    ensures Mirrors(r, data, Dims(data[start..], n))
  {
    hide Number, Field, Dims, After;
    var pos: nat, shape: seq<nat> := start, [];
    AfterAfter([], 0, Dims(data[start..], n));
    for k := 0 to n
      invariant pos <= |data|
      invariant Dims(data[start..], n) == After(shape, Dims(data[pos..], n - k))
    {
      NumberAtIsField(data, pos, 4);
      DimsUnfold(data[pos..], n - k);
      var d := NumberAt(data, pos, 4);
      if d.Err? {
        AfterErr(shape, Dims(data[pos..], n - k));
        return Err(d.error);
      }
      AfterAfter(shape, d.value, Dims(data[pos + 4..], n - k - 1));
      shape := shape + [d.value];
      pos := pos + 4;
    }
    NoDims(data[pos..], shape);
    r := Ok((shape, pos));
  }

  lemma AfterErr<T, R>(xs: seq<T>, r: Result<(seq<T>, R), Error>)
    requires r.Err?
    ensures After(xs, r) == r
  {
  }

  lemma NoDims(rest: seq<byte>, shape: seq<nat>)
    ensures After(shape, Dims(rest, 0)) == Ok((shape, rest))
  {
    assert shape + [] == shape;
  }

  /** One entry at a position.  The name slice is cut at the end of the file; the next byte read then fails. */
  method ReadEntry(utf8: Utf8, data: seq<byte>, start: nat) returns (r: Result<(Entry, nat), Error>)
    requires start <= |data|
    ensures Mirrors(r, data, TakeEntry(utf8, data[start..]))
  {
    hide Number, Field, Dims, Slice, Name;
    var pos := start;
    NumberAtIsField(data, pos, 2);
    var nameLen :- NumberAt(data, pos, 2);
    pos := pos + 2;
    var name := Slice(data, pos, pos + nameLen);
    SliceIsName(utf8, data, pos, nameLen);
    if !utf8(name) {
      return Err(Malformed);
    }
    pos := pos + nameLen;
    ByteAt(data, pos);
    if pos >= |data| {
      return Err(Malformed);
    }
    var quantType: nat := data[pos];
    pos := pos + 1;
    ByteAt(data, pos);
    if pos >= |data| {
      return Err(Malformed);
    }
    var nDims: nat := data[pos];
    pos := pos + 1;
    var dims := ReadDims(data, pos, nDims);
    if dims.Err? {
      return Err(dims.error);
    }
    pos := dims.value.1;
    NumberAtIsField(data, pos, 4);
    var groupSize :- NumberAt(data, pos, 4);
    pos := pos + 4;
    NumberAtIsField(data, pos, 8);
    var dataSize :- NumberAt(data, pos, 8);
    pos := pos + 8;
    r := Ok((Entry(name, quantType, dims.value.0, groupSize, dataSize), pos));
  }

  lemma SliceIsName(utf8: Utf8, data: seq<byte>, pos: nat, n: nat)
    requires pos <= |data|
    ensures pos + n <= |data| ==>
              (utf8(Slice(data, pos, pos + n)) ==> Name(utf8, data[pos..], n) == Ok((Slice(data, pos, pos + n), data[pos + n..])))
              && (!utf8(Slice(data, pos, pos + n)) ==> Name(utf8, data[pos..], n) == Err(Malformed))
    ensures pos + n > |data| ==> Name(utf8, data[pos..], n) == Err(Malformed)
  {
    if pos + n <= |data| {
      assert data[pos..][..n] == data[pos..pos + n] && data[pos..][n..] == data[pos + n..];
    }
  }

  /** A single byte read by indexing. */
  lemma ByteAt(data: seq<byte>, pos: nat)
    ensures pos < |data| ==> Field(data[pos..], 1) == Ok((data[pos] as nat, data[pos + 1..]))
    ensures pos == |data| ==> Field(data[pos..], 1) == Err(Malformed)
  {
    if pos < |data| {
      var one := data[pos..][..1];
      assert one == [data[pos]] && one[1..] == [] && data[pos..][1..] == data[pos + 1..];
      assert Number(one) == data[pos];
    }
  }

  lemma RecordsUnfold(utf8: Utf8, data: seq<byte>, index: seq<byte>, offset: nat, n: nat)
    requires n > 0
    ensures TakeEntry(utf8, index).Err? ==> Records(utf8, data, index, offset, n) == Err(TakeEntry(utf8, index).error)
    ensures TakeEntry(utf8, index).Ok? ==>
              var (e, rest) := TakeEntry(utf8, index).value;
              var payload := Slice(data, offset, offset + e.dataSize);
              Records(utf8, data, index, offset, n)
              == if |payload| != e.dataSize then Err(Truncated)
                 else After([Record(e, payload)], Records(utf8, data, rest, offset + e.dataSize, n - 1))
  {
    hide TakeEntry, Slice;
  }

  /** ReadRecords with its last two results paired. */
  ghost function Records(utf8: Utf8, data: seq<byte>, index: seq<byte>, offset: nat, n: nat)
    : Result<(seq<Record>, (seq<byte>, nat)), Error>
  {
    match ReadRecords(utf8, data, index, offset, n)
    case Err(e) => Err(e)
    case Ok((rs, rest, offset')) => Ok((rs, (rest, offset')))
  }

  lemma NoRecords(utf8: Utf8, data: seq<byte>, index: seq<byte>, offset: nat, rs: seq<Record>)
    ensures After(rs, Records(utf8, data, index, offset, 0)) == Ok((rs, (index, offset)))
  {
    assert rs + [] == rs;
  }

  /** The loop over the records. */
  method ReadAll(utf8: Utf8, data: seq<byte>, start: nat, dataOffset: nat, n: nat)
    returns (r: Result<(seq<Record>, nat), Error>)
    requires start <= |data|
    ensures match (r, ReadRecords(utf8, data, data[start..], dataOffset, n))
            case (Ok((rs, end)), Ok((rs', _, end'))) => rs == rs' && end == end'
            case (Err(e), Err(e')) => e == e'
            case _ => false
  {
    hide TakeEntry, Slice, ReadRecords, After;
    var pos: nat, offset: nat, records := start, dataOffset, [];
    ghost var whole := Records(utf8, data, data[start..], dataOffset, n);
    AfterAfter([], Record(Entry([], 0, [], 0, 0), []), whole);
    for k := 0 to n
      invariant pos <= |data|
      invariant whole == After(records, Records(utf8, data, data[pos..], offset, n - k))
    {
      RecordsUnfold(utf8, data, data[pos..], offset, n - k);
      var entry := ReadEntry(utf8, data, pos);
      if entry.Err? {
        AfterErr(records, Records(utf8, data, data[pos..], offset, n - k));
        return Err(entry.error);
      }
      var e := entry.value.0;
      var payload := Slice(data, offset, offset + e.dataSize);
      if |payload| != e.dataSize {
        AfterErr(records, Records(utf8, data, data[pos..], offset, n - k));
        return Err(Truncated);
      }
      pos := entry.value.1;
      AfterAfter(records, Record(e, payload), Records(utf8, data, data[pos..], offset + e.dataSize, n - k - 1));
      records := records + [Record(e, payload)];
      offset := offset + e.dataSize;
    }
    NoRecords(utf8, data, data[pos..], offset, records);
    r := Ok((records, offset));
  }

  /** `read_hfq_layout`: header, brace scan, count check, records, end-of-file check. */
  method ReadLayout(utf8: Utf8, data: seq<byte>) returns (r: Result<Layout, Error>)
    ensures r == Read(utf8, data)
    ensures r.Ok? ==> |data| >= 32 && LaidOut(data, r.value, U64At(data, 16), U64At(data, 24))
  {
    hide Number, Field, Slice, Scan, ReadRecords, LaidOut, U64At;
    if |data| < 32 || data[0..4] != MAGIC {
      return Err(NotHfq);
    }
    var h := HeaderOf(data);
    var region := Slice(data, h.metadataOffset, h.dataOffset);
    var jsonEnd := JsonObjectEnd(region);
    if jsonEnd.None? {
      return Err(NoObjectEnd);
    }
    var metadata := region[..jsonEnd.value];
    RegionFacts(data, h.metadataOffset, h.dataOffset, jsonEnd.value);
    var pos := h.metadataOffset + jsonEnd.value;
    NumberAtIsField(data, pos, 4);
    var n :- NumberAt(data, pos, 4);
    pos := pos + 4;
    if n != h.n {
      return Err(CountMismatch);
    }
    var all := ReadAll(utf8, data, pos, h.dataOffset, n);
    if all.Err? {
      return Err(all.error);
    }
    if all.value.1 != |data| {
      return Err(SizeMismatch);
    }
    r := Ok(Layout(h.version, h.arch, metadata, all.value.0));
    ReadIsLaidOut(utf8, data, r.value);
  }
}
