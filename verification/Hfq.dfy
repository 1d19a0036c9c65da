/** The HFQ container of scripts/astrea.py: `write_hfq_layout`, `read_hfq_layout` and `read_hfq_index`.

    A file is a 32-byte header, the metadata object, the tensor index (sizes, no offsets) and the payloads.  Tensor
    names are their UTF-8 bytes; `utf8` says which byte strings decode. */
module Hfq {
  import opened Wrappers
  import opened Bytes
  import opened JsonScan

  datatype Error = NotHfq | Malformed | NoObjectEnd | CountMismatch | Truncated | SizeMismatch | PayloadMismatch | OutOfRange

  datatype Entry = Entry(name: seq<byte>, quantType: nat, shape: seq<nat>, groupSize: nat, dataSize: nat)

  datatype Record = Record(entry: Entry, data: seq<byte>)

  datatype Layout = Layout(version: nat, arch: nat, metadata: seq<byte>, records: seq<Record>)

  const MAGIC: seq<byte> := [0x48, 0x46, 0x51, 0x4d]

  type Utf8 = seq<byte> -> bool

  // ---------- one index entry ----------

  function DimsBytes(shape: seq<nat>): (s: seq<byte>)
    ensures |s| == 4 * |shape|
  {
    if shape == [] then [] else LittleEndian(shape[0], 4) + DimsBytes(shape[1..])
  }

  function EntryBytes(e: Entry): seq<byte> {
    LittleEndian(|e.name|, 2) + (e.name + (LittleEndian(e.quantType, 1) + (LittleEndian(|e.shape|, 1)
      + (DimsBytes(e.shape) + (LittleEndian(e.groupSize, 4) + LittleEndian(e.dataSize, 8))))))
  }

  /** Every field fits the bytes it is packed into. */
  predicate EntryInRange(e: Entry) {
    && |e.name| < Pow256(2) && e.quantType < Pow256(1) && |e.shape| < Pow256(1)
    && (forall i | 0 <= i < |e.shape| :: e.shape[i] < Pow256(4))
    && e.groupSize < Pow256(4) && e.dataSize < Pow256(8)
  }

  /** Reads an n-byte number off the front. */
  function Field(rest: seq<byte>, n: nat): Result<(nat, seq<byte>), Error> {
    if |rest| < n then Err(Malformed) else Ok((Number(rest[..n]), rest[n..]))
  }

  function Dims(rest: seq<byte>, n: nat): Result<(seq<nat>, seq<byte>), Error> {
    if n == 0 then Ok(([], rest))
    else
      var (d, rest1) :- Field(rest, 4);
      var (ds, rest2) :- Dims(rest1, n - 1);
      Ok(([d] + ds, rest2))
  }

  function Name(utf8: Utf8, rest: seq<byte>, n: nat): Result<(seq<byte>, seq<byte>), Error> {
    if |rest| < n || !utf8(rest[..n]) then Err(Malformed) else Ok((rest[..n], rest[n..]))
  }

  /** Reads one index entry off the front. */
  function TakeEntry(utf8: Utf8, rest: seq<byte>): Result<(Entry, seq<byte>), Error> {
    var (len, rest1) :- Field(rest, 2);
    var (name, rest2) :- Name(utf8, rest1, len);
    var (quantType, rest3) :- Field(rest2, 1);
    var (nDims, rest4) :- Field(rest3, 1);
    var (shape, rest5) :- Dims(rest4, nDims);
    var (groupSize, rest6) :- Field(rest5, 4);
    var (dataSize, rest7) :- Field(rest6, 8);
    Ok((Entry(name, quantType, shape, groupSize, dataSize), rest7))
  }

  lemma FieldReads(v: nat, n: nat, rest: seq<byte>)
    requires v < Pow256(n)
    ensures Field(LittleEndian(v, n) + rest, n) == Ok((v, rest))
  {
    hide LittleEndian, Number, Pow256;
    var s := LittleEndian(v, n) + rest;
    assert s[..n] == LittleEndian(v, n) && s[n..] == rest;
    NumberOfLittleEndian(v, n);
  }

  lemma FieldWrites(rest: seq<byte>, n: nat)
    requires Field(rest, n).Ok?
    ensures var (v, rest') := Field(rest, n).value; v < Pow256(n) && rest == LittleEndian(v, n) + rest'
  {
    hide LittleEndian, Number, Pow256;
    LittleEndianOfNumber(rest[..n]);
  }

  lemma {:induction false} DimsRead(shape: seq<nat>, rest: seq<byte>)
    requires forall i | 0 <= i < |shape| :: shape[i] < Pow256(4)
    ensures Dims(DimsBytes(shape) + rest, |shape|) == Ok((shape, rest))
  {
    hide Field, LittleEndian, Pow256;
    if shape == [] {
      assert DimsBytes(shape) + rest == rest;
    } else {
      FieldReads(shape[0], 4, DimsBytes(shape[1..]) + rest);
      DimsRead(shape[1..], rest);
      assert DimsBytes(shape) + rest == LittleEndian(shape[0], 4) + (DimsBytes(shape[1..]) + rest);
      assert [shape[0]] + shape[1..] == shape;
    }
  }

  lemma {:induction false} DimsWrite(rest: seq<byte>, n: nat)
    requires Dims(rest, n).Ok?
    ensures var (shape, rest') := Dims(rest, n).value;
            |shape| == n && (forall i | 0 <= i < n :: shape[i] < Pow256(4)) && rest == DimsBytes(shape) + rest'
    decreases n
  {
    hide Field, LittleEndian, Pow256;
    if n == 0 {
    } else {
      FieldWrites(rest, 4);
      var (d, rest1) := Field(rest, 4).value;
      DimsWrite(rest1, n - 1);
      var (ds, rest2) := Dims(rest1, n - 1).value;
      assert ([d] + ds)[1..] == ds;
    }
  }

  /** Reading back a written entry. */
  lemma EntryReads(utf8: Utf8, e: Entry, rest: seq<byte>)
    requires EntryInRange(e) && utf8(e.name)
    ensures TakeEntry(utf8, EntryBytes(e) + rest) == Ok((e, rest))
  {
    hide Field, LittleEndian, Dims, DimsBytes, Pow256;
    var t6 := LittleEndian(e.dataSize, 8) + rest;
    var t5 := LittleEndian(e.groupSize, 4) + t6;
    var t4 := DimsBytes(e.shape) + t5;
    var t3 := LittleEndian(|e.shape|, 1) + t4;
    var t2 := LittleEndian(e.quantType, 1) + t3;
    var t1 := e.name + t2;
    assert EntryBytes(e) + rest == LittleEndian(|e.name|, 2) + t1;
    FieldReads(|e.name|, 2, t1);
    assert t1[..|e.name|] == e.name && t1[|e.name|..] == t2;
    FieldReads(e.quantType, 1, t3);
    FieldReads(|e.shape|, 1, t4);
    DimsRead(e.shape, t5);
    FieldReads(e.groupSize, 4, t6);
    FieldReads(e.dataSize, 8, rest);
  }

  /** What was read is what would be written. */
  lemma EntryWrites(utf8: Utf8, rest: seq<byte>)
    requires TakeEntry(utf8, rest).Ok?
    ensures var (e, rest') := TakeEntry(utf8, rest).value;
            EntryInRange(e) && utf8(e.name) && rest == EntryBytes(e) + rest'
  {
    hide Field, LittleEndian, Dims, DimsBytes, Pow256;
    var (len, rest1) := Field(rest, 2).value;
    var (name, rest2) := Name(utf8, rest1, len).value;
    var (quantType, rest3) := Field(rest2, 1).value;
    var (nDims, rest4) := Field(rest3, 1).value;
    var (shape, rest5) := Dims(rest4, nDims).value;
    var (groupSize, rest6) := Field(rest5, 4).value;
    var (dataSize, rest7) := Field(rest6, 8).value;
    FieldWrites(rest, 2);
    assert rest1 == name + rest2;
    FieldWrites(rest2, 1);
    FieldWrites(rest3, 1);
    DimsWrite(rest4, nDims);
    FieldWrites(rest5, 4);
    FieldWrites(rest6, 8);
    var e := Entry(name, quantType, shape, groupSize, dataSize);
    assert EntryBytes(e) + rest7
      == LittleEndian(len, 2) + (name + (LittleEndian(quantType, 1) + (LittleEndian(nDims, 1)
         + (DimsBytes(shape) + (LittleEndian(groupSize, 4) + (LittleEndian(dataSize, 8) + rest7))))));
  }

  // ---------- the index and the payloads ----------

  function IndexBytes(records: seq<Record>): seq<byte> {
    if records == [] then [] else EntryBytes(records[0].entry) + IndexBytes(records[1..])
  }

  function Payloads(records: seq<Record>): seq<byte> {
    if records == [] then [] else records[0].data + Payloads(records[1..])
  }

  predicate RecordInRange(r: Record) {
    EntryInRange(r.entry) && |r.data| == r.entry.dataSize
  }

  /** Reads `n` entries off the front of `index`, each with its payload at the running offset. */
  function ReadRecords(utf8: Utf8, data: seq<byte>, index: seq<byte>, offset: nat, n: nat)
    : Result<(seq<Record>, seq<byte>, nat), Error>
    decreases n
  {
    if n == 0 then Ok(([], index, offset))
    else
      var (e, rest) :- TakeEntry(utf8, index);
      var payload := Slice(data, offset, offset + e.dataSize);
      if |payload| != e.dataSize then Err(Truncated)
      else
        var (rs, rest', offset') :- ReadRecords(utf8, data, rest, offset + e.dataSize, n - 1);
        Ok(([Record(e, payload)] + rs, rest', offset'))
  }

  ghost predicate NamesDecode(utf8: Utf8, records: seq<Record>) {
    forall i | 0 <= i < |records| :: utf8(records[i].entry.name)
  }

  ghost predicate RecordsInRange(records: seq<Record>) {
    forall i | 0 <= i < |records| :: RecordInRange(records[i])
  }

  lemma SliceMiddle(a: seq<byte>, b: seq<byte>, c: seq<byte>)
    ensures Slice(a + b + c, |a|, |a| + |b|) == b
  {
  }

  /** Reading back written records. */
  lemma {:induction false} RecordsRead(utf8: Utf8, before: seq<byte>, records: seq<Record>, after: seq<byte>, rest: seq<byte>)
    requires RecordsInRange(records) && NamesDecode(utf8, records)
    ensures ReadRecords(utf8, before + Payloads(records) + after, IndexBytes(records) + rest, |before|, |records|)
         == Ok((records, rest, |before + Payloads(records)|))
    decreases |records|
  {
    hide ReadRecords, EntryBytes, RecordInRange, IndexBytes, Payloads;
    if records == [] {
      NoBytes(before, rest);
      ReadNone(utf8, before + Payloads(records) + after, rest, |before|);
    } else {
      var r, more := records[0], records[1..];
      assert RecordInRange(r) && utf8(r.entry.name);
      FirstBytes(before, records, after, rest);
      RecordsRead(utf8, before + r.data, more, after, rest);
      ReadOne(utf8, before, r, Payloads(more) + after, IndexBytes(more) + rest, |more|);
      assert [r] + more == records;
    }
  }

  lemma NoBytes(before: seq<byte>, rest: seq<byte>)
    ensures IndexBytes([]) + rest == rest && before + Payloads([]) == before
  {
  }

  /** The bytes of the first record and of the others. */
  lemma FirstBytes(before: seq<byte>, records: seq<Record>, after: seq<byte>, rest: seq<byte>)
    requires records != []
    ensures var r, more := records[0], records[1..];
            && IndexBytes(records) + rest == EntryBytes(r.entry) + (IndexBytes(more) + rest)
            && before + Payloads(records) == (before + r.data) + Payloads(more)
            && before + Payloads(records) + after == (before + r.data) + Payloads(more) + after
            && before + Payloads(records) + after == before + r.data + (Payloads(more) + after)
  {
    var r, more := records[0], records[1..];
    assert IndexBytes(records) == EntryBytes(r.entry) + IndexBytes(more) && Payloads(records) == r.data + Payloads(more);
    hide *;
    Associative(EntryBytes(r.entry), IndexBytes(more), rest);
    Associative(before, r.data, Payloads(more));
    Associative(before + r.data, Payloads(more), after);
  }

  lemma Associative(a: seq<byte>, b: seq<byte>, c: seq<byte>)
    ensures (a + b) + c == a + (b + c)
  {
  }

  lemma ReadNone(utf8: Utf8, data: seq<byte>, index: seq<byte>, offset: nat)
    ensures ReadRecords(utf8, data, index, offset, 0) == Ok(([], index, offset))
  {
  }

  /** Reading one written record off the front. */
  lemma ReadOne(utf8: Utf8, before: seq<byte>, r: Record, after: seq<byte>, index: seq<byte>, n: nat)
    requires RecordInRange(r) && utf8(r.entry.name)
    requires ReadRecords(utf8, before + r.data + after, index, |before| + |r.data|, n).Ok?
    ensures var (rs, rest, offset) := ReadRecords(utf8, before + r.data + after, index, |before| + |r.data|, n).value;
            ReadRecords(utf8, before + r.data + after, EntryBytes(r.entry) + index, |before|, n + 1) == Ok(([r] + rs, rest, offset))
  {
    hide TakeEntry, EntryBytes, EntryInRange, Slice;
    EntryReads(utf8, r.entry, index);
    SliceMiddle(before, r.data, after);
  }

  /** What was read is what would be written. */
  lemma {:induction false} RecordsWrite(utf8: Utf8, data: seq<byte>, index: seq<byte>, offset: nat, n: nat)
    requires ReadRecords(utf8, data, index, offset, n).Ok?
    ensures var (rs, rest, offset') := ReadRecords(utf8, data, index, offset, n).value;
            && |rs| == n && RecordsInRange(rs) && NamesDecode(utf8, rs)
            && index == IndexBytes(rs) + rest
            && offset' == offset + |Payloads(rs)|
            && (offset' <= |data| ==> data[offset..offset'] == Payloads(rs))
    decreases n
  {
    hide TakeEntry, EntryBytes, EntryInRange, RecordInRange, Slice;
    if n == 0 {
      assert index == [] + index;
    } else {
      EntryWrites(utf8, index);
      var (e, rest) := TakeEntry(utf8, index).value;
      var payload := Slice(data, offset, offset + e.dataSize);
      RecordsWrite(utf8, data, rest, offset + e.dataSize, n - 1);
      var (rs, rest', offset') := ReadRecords(utf8, data, rest, offset + e.dataSize, n - 1).value;
      var r := Record(e, payload);
      assert ([r] + rs)[1..] == rs;
      assert RecordInRange(r) by { RecordMade(e, payload); }
      assert index == EntryBytes(e) + IndexBytes(rs) + rest';
      if offset' <= |data| {
        SliceThen(data, offset, offset + e.dataSize, offset');
      }
    }
  }

  lemma SliceThen(data: seq<byte>, lo: nat, mid: nat, hi: nat)
    requires lo <= mid <= hi <= |data|
    ensures data[lo..hi] == Slice(data, lo, mid) + data[mid..hi]
  {
  }

  lemma RecordMade(e: Entry, payload: seq<byte>)
    requires EntryInRange(e) && |payload| == e.dataSize
    ensures RecordInRange(Record(e, payload))
  {
  }

  // ---------- whole files ----------

  function DataOffset(layout: Layout): nat {
    32 + |layout.metadata| + 4 + |IndexBytes(layout.records)|
  }

  function HeaderBytes(version: nat, arch: nat, n: nat, metadataOffset: nat, dataOffset: nat): (h: seq<byte>)
    ensures |h| == 32
  {
    MAGIC + LittleEndian(version, 4) + LittleEndian(arch, 4) + LittleEndian(n, 4)
    + LittleEndian(metadataOffset, 8) + LittleEndian(dataOffset, 8)
  }

  /** The bytes of a layout. */
  function Image(layout: Layout): seq<byte> {
    HeaderBytes(layout.version, layout.arch, |layout.records|, 32, DataOffset(layout))
    + layout.metadata + (LittleEndian(|layout.records|, 4) + IndexBytes(layout.records)) + Payloads(layout.records)
  }

  /** Everything `write_hfq_layout` packs fits its field, and every payload has its declared size. */
  ghost predicate Writable(layout: Layout) {
    && layout.version < Pow256(4) && layout.arch < Pow256(4) && |layout.records| < Pow256(4)
    && DataOffset(layout) < Pow256(8)
    && RecordsInRange(layout.records)
  }

  /** The header numbers at their fixed places. */
  datatype Header = Header(version: nat, arch: nat, n: nat, metadataOffset: nat, dataOffset: nat)

  function HeaderOf(data: seq<byte>): Header
    requires |data| >= 32
  {
    Header(Number(data[4..8]), Number(data[8..12]), Number(data[12..16]), Number(data[16..24]), Number(data[24..32]))
  }

  lemma HeaderReads(version: nat, arch: nat, n: nat, metadataOffset: nat, dataOffset: nat, rest: seq<byte>)
    requires version < Pow256(4) && arch < Pow256(4) && n < Pow256(4) && metadataOffset < Pow256(8) && dataOffset < Pow256(8)
    ensures var data := HeaderBytes(version, arch, n, metadataOffset, dataOffset) + rest;
            data[0..4] == MAGIC && HeaderOf(data) == Header(version, arch, n, metadataOffset, dataOffset)
  {
    hide LittleEndian, Number, Pow256;
    var data := HeaderBytes(version, arch, n, metadataOffset, dataOffset) + rest;
    assert data[0..4] == MAGIC;
    assert data[4..8] == LittleEndian(version, 4);
    assert data[8..12] == LittleEndian(arch, 4);
    assert data[12..16] == LittleEndian(n, 4);
    assert data[16..24] == LittleEndian(metadataOffset, 8);
    assert data[24..32] == LittleEndian(dataOffset, 8);
    NumberOfLittleEndian(version, 4);
    NumberOfLittleEndian(arch, 4);
    NumberOfLittleEndian(n, 4);
    NumberOfLittleEndian(metadataOffset, 8);
    NumberOfLittleEndian(dataOffset, 8);
  }

  lemma HeaderWrites(data: seq<byte>)
    requires |data| >= 32 && data[0..4] == MAGIC
    ensures var h := HeaderOf(data);
            && data[..32] == HeaderBytes(h.version, h.arch, h.n, h.metadataOffset, h.dataOffset)
            && h.version < Pow256(4) && h.arch < Pow256(4) && h.n < Pow256(4)
            && h.metadataOffset < Pow256(8) && h.dataOffset < Pow256(8)
  {
    hide LittleEndian, Number, Pow256;
    LittleEndianOfNumber(data[4..8]);
    LittleEndianOfNumber(data[8..12]);
    LittleEndianOfNumber(data[12..16]);
    LittleEndianOfNumber(data[16..24]);
    LittleEndianOfNumber(data[24..32]);
    assert data[0..4] == data[..4];
    PrefixMore(data, 4, 8);
    PrefixMore(data, 8, 12);
    PrefixMore(data, 12, 16);
    PrefixMore(data, 16, 24);
    PrefixMore(data, 24, 32);
  }

  lemma PrefixMore(data: seq<byte>, a: nat, b: nat)
    requires a <= b <= |data|
    ensures data[..b] == data[..a] + data[a..b]
  {
  }

  function ScanResult(r: Option<nat>): Result<nat, Error> {
    match r
    case None => Err(NoObjectEnd)
    case Some(n) => Ok(n)
  }

  /** The tail of `read_hfq_layout`, from the end of the metadata object on. */
  function ReadTail(utf8: Utf8, data: seq<byte>, h: Header, metadata: seq<byte>, tail: seq<byte>): Result<Layout, Error> {
    var (n, index) :- Field(tail, 4);
    if n != h.n then Err(CountMismatch)
    else
      var (records, _, end) :- ReadRecords(utf8, data, index, h.dataOffset, n);
      if end != |data| then Err(SizeMismatch) else Ok(Layout(h.version, h.arch, metadata, records))
  }

  /** `read_hfq_layout` as a function of the file's bytes. */
  function Read(utf8: Utf8, data: seq<byte>): Result<Layout, Error> {
    if |data| < 32 || data[0..4] != MAGIC then Err(NotHfq)
    else
      var h := HeaderOf(data);
      var region := Slice(data, h.metadataOffset, h.dataOffset);
      var end :- ScanResult(Scan(region, At(0)));
      ReadTail(utf8, data, h, region[..end], data[h.metadataOffset + end..])
  }

  /** The metadata is one self-delimiting object; every JSON object text is (see ScanIsExact). */
  predicate OneObject(metadata: seq<byte>) {
    Scan(metadata, At(0)) == Some(|metadata|)
  }

  lemma OneObjectThen(metadata: seq<byte>, rest: seq<byte>)
    requires OneObject(metadata)
    ensures Scan(metadata + rest, At(0)) == Some(|metadata|)
  {
    ScanPrefix(metadata, At(0), rest);
    assert metadata[..|metadata|] == metadata;
  }

  /** A file with bytes that belong to nothing between the index and the payloads. */
  function Padded(layout: Layout, pad: seq<byte>): seq<byte> {
    HeaderBytes(layout.version, layout.arch, |layout.records|, 32, DataOffset(layout) + |pad|)
    + layout.metadata + (LittleEndian(|layout.records|, 4) + IndexBytes(layout.records)) + pad + Payloads(layout.records)
  }

  /** The reader skips the padding. */
  lemma PaddedReads(utf8: Utf8, layout: Layout, pad: seq<byte>)
    requires Writable(layout) && NamesDecode(utf8, layout.records) && OneObject(layout.metadata)
    requires DataOffset(layout) + |pad| < Pow256(8)
    ensures Read(utf8, Padded(layout, pad)) == Ok(layout)
  {
    hide Pow256, HeaderBytes, HeaderOf, IndexBytes, Payloads, Field, Scan, ReadRecords, LittleEndian, RecordsInRange, NamesDecode;
    var n := |layout.records|;
    var offset := DataOffset(layout) + |pad|;
    var head := HeaderBytes(layout.version, layout.arch, n, 32, offset);
    var count := LittleEndian(n, 4);
    var index := IndexBytes(layout.records);
    var body := Payloads(layout.records);
    var data := Padded(layout, pad);
    assert data == head + (layout.metadata + (count + index) + pad + body);
    SmallOffset();
    HeaderReads(layout.version, layout.arch, n, 32, offset, layout.metadata + (count + index) + pad + body);
    var before := head + layout.metadata + (count + index) + pad;
    assert data == before + body + [];
    var afterMetadata := count + index + pad;
    assert Slice(data, 32, offset) == layout.metadata + afterMetadata;
    OneObjectThen(layout.metadata, afterMetadata);
    assert (layout.metadata + afterMetadata)[..|layout.metadata|] == layout.metadata;
    assert data[32 + |layout.metadata|..] == count + (index + (pad + body));
    FieldReads(n, 4, index + (pad + body));
    RecordsRead(utf8, before, layout.records, [], pad + body);
    assert before + body == data;
  }

  lemma NoPadding(layout: Layout)
    ensures Padded(layout, []) == Image(layout)
  {
    var front := HeaderBytes(layout.version, layout.arch, |layout.records|, 32, DataOffset(layout))
      + layout.metadata + (LittleEndian(|layout.records|, 4) + IndexBytes(layout.records));
    assert front + [] == front;
  }

  /** Round trip: what `write_hfq_layout` writes, `read_hfq_layout` reads back, with the end-of-file check satisfied. */
  lemma ReadsBack(utf8: Utf8, layout: Layout)
    requires Writable(layout) && NamesDecode(utf8, layout.records) && OneObject(layout.metadata)
    ensures Read(utf8, Image(layout)) == Ok(layout)
  {
    hide Read, Image, Padded, OneObject, NamesDecode, RecordsInRange, IndexBytes, Pow256;
    NoPadding(layout);
    PaddedReads(utf8, layout, []);
  }

  /** So reading and writing back is not always the identity: it drops any padding. */
  lemma PaddingIsDropped(utf8: Utf8, layout: Layout, pad: seq<byte>)
    requires Writable(layout) && NamesDecode(utf8, layout.records) && OneObject(layout.metadata)
    requires DataOffset(layout) + |pad| < Pow256(8) && pad != []
    ensures Read(utf8, Padded(layout, pad)) == Ok(layout) && Image(layout) != Padded(layout, pad)
  {
    hide Read, Pow256, IndexBytes, Payloads, LittleEndian;
    PaddedReads(utf8, layout, pad);
    assert |Padded(layout, pad)| == |Image(layout)| + |pad|;
  }

  lemma SmallOffset()
    ensures 32 < Pow256(8)
  {
    assert Pow256(1) == 256 && Pow256(2) == 65536;
    assert Pow256(3) >= Pow256(2) && Pow256(4) >= Pow256(3) && Pow256(5) >= Pow256(4);
    assert Pow256(6) >= Pow256(5) && Pow256(7) >= Pow256(6) && Pow256(8) >= Pow256(7);
  }

  /** A file with nothing between the header and the metadata or between the index and the payloads. */
  ghost predicate Canonical(utf8: Utf8, data: seq<byte>)
    requires Read(utf8, data).Ok?
  {
    |data| >= 32 &&
    var h, layout := HeaderOf(data), Read(utf8, data).value;
    h.metadataOffset == 32 && h.dataOffset == DataOffset(layout)
  }

  lemma ReadTailFacts(utf8: Utf8, data: seq<byte>, h: Header, metadata: seq<byte>, tail: seq<byte>)
    requires ReadTail(utf8, data, h, metadata, tail).Ok?
    ensures var layout := ReadTail(utf8, data, h, metadata, tail).value;
            && layout.version == h.version && layout.arch == h.arch && layout.metadata == metadata
            && |layout.records| == h.n && RecordsInRange(layout.records) && NamesDecode(utf8, layout.records)
            && h.dataOffset <= |data| && data[h.dataOffset..] == Payloads(layout.records)
            && LittleEndian(h.n, 4) + IndexBytes(layout.records) <= tail
  {
    hide Pow256, IndexBytes, Payloads, Field, ReadRecords, LittleEndian, RecordsInRange, NamesDecode;
    FieldWrites(tail, 4);
    var (n, index) := Field(tail, 4).value;
    RecordsWrite(utf8, data, index, h.dataOffset, n);
    var (records, rest, stop) := ReadRecords(utf8, data, index, h.dataOffset, n).value;
    assert tail == LittleEndian(n, 4) + IndexBytes(records) + rest;
    assert data[h.dataOffset..] == data[h.dataOffset..stop];
  }

  lemma RegionFacts(data: seq<byte>, lo: nat, hi: nat, end: nat)
    requires end <= |Slice(data, lo, hi)| && end >= 1
    ensures lo + end <= |data| && Slice(data, lo, hi)[..end] == data[lo..lo + end]
  {
  }

  lemma ReadFacts(utf8: Utf8, data: seq<byte>)
    requires Read(utf8, data).Ok?
    ensures |data| >= 32
    ensures var h, layout := HeaderOf(data), Read(utf8, data).value;
            && data[0..4] == MAGIC
            && layout.version == h.version && layout.arch == h.arch && |layout.records| == h.n
            && RecordsInRange(layout.records) && NamesDecode(utf8, layout.records)
            && h.dataOffset <= |data| && data[h.dataOffset..] == Payloads(layout.records)
            && h.metadataOffset + |layout.metadata| <= |data|
            && data[h.metadataOffset..h.metadataOffset + |layout.metadata|] == layout.metadata
            && LittleEndian(h.n, 4) + IndexBytes(layout.records) <= data[h.metadataOffset + |layout.metadata|..]
  {
    hide IndexBytes, Payloads, Scan, LittleEndian, RecordsInRange, NamesDecode, HeaderOf, ReadTail, Slice;
    var h := HeaderOf(data);
    var region := Slice(data, h.metadataOffset, h.dataOffset);
    var end := Scan(region, At(0)).value;
    RegionFacts(data, h.metadataOffset, h.dataOffset, end);
    ReadTailFacts(utf8, data, h, region[..end], data[h.metadataOffset + end..]);
  }

  lemma CanonicalRewrites(utf8: Utf8, data: seq<byte>)
    requires Read(utf8, data).Ok? && Canonical(utf8, data)
    ensures Image(Read(utf8, data).value) == data
  {
    hide Pow256, IndexBytes, Payloads, LittleEndian, RecordsInRange, NamesDecode, HeaderOf, Read, HeaderBytes;
    ReadFacts(utf8, data);
    var h, layout := HeaderOf(data), Read(utf8, data).value;
    HeaderWrites(data);
    Assemble(data, data[..32], layout.metadata, LittleEndian(h.n, 4) + IndexBytes(layout.records), Payloads(layout.records));
  }

  lemma Assemble(data: seq<byte>, head: seq<byte>, metadata: seq<byte>, index: seq<byte>, body: seq<byte>)
    requires |head| + |metadata| + |index| <= |data|
    requires data[..|head|] == head && data[|head|..|head| + |metadata|] == metadata
    requires index <= data[|head| + |metadata|..]
    requires data[|head| + |metadata| + |index|..] == body
    ensures data == head + metadata + index + body
  {
    var mid := |head| + |metadata|;
    assert data[mid..][..|index|] == data[mid..mid + |index|];
    assert data == data[..|head|] + data[|head|..mid] + data[mid..mid + |index|] + data[mid + |index|..];
  }

  lemma RewriteIsCanonical(utf8: Utf8, data: seq<byte>)
    requires Read(utf8, data).Ok? && Image(Read(utf8, data).value) == data
    ensures Canonical(utf8, data)
  {
    hide Pow256, IndexBytes, Payloads, LittleEndian, RecordsInRange, NamesDecode, Read, Number;
    ReadFacts(utf8, data);
    var h, layout := HeaderOf(data), Read(utf8, data).value;
    assert |Image(layout)| == DataOffset(layout) + |Payloads(layout.records)|;
    SmallOffset();
    NumberOfLittleEndian(32, 8);
    assert Image(layout)[16..24] == LittleEndian(32, 8);
  }

  /** The other direction: rewriting a file that was read reproduces it byte for byte exactly when it is canonical. */
  lemma RewritesIffCanonical(utf8: Utf8, data: seq<byte>)
    requires Read(utf8, data).Ok?
    ensures Image(Read(utf8, data).value) == data <==> Canonical(utf8, data)
  {
    hide *;
    if Image(Read(utf8, data).value) == data {
      RewriteIsCanonical(utf8, data);
    }
    if Canonical(utf8, data) {
      CanonicalRewrites(utf8, data);
    }
  }
}
