/** Where everything lies in an HFQ file, byte by byte, and that the reader and the writer of scripts/astrea.py put it
    there. */
module Places {
  import opened Wrappers
  import opened Bytes
  import opened JsonScan
  import opened Hfq

  // ---------- numbers, low byte first ----------

  function U16At(data: seq<byte>, p: nat): nat
    requires p + 2 <= |data|
  {
    data[p] + 0x100 * (data[p + 1] as nat)
  }

  function U32At(data: seq<byte>, p: nat): nat
    requires p + 4 <= |data|
  {
    data[p] + 0x100 * (data[p + 1] as nat) + 0x1_0000 * (data[p + 2] as nat) + 0x100_0000 * (data[p + 3] as nat)
  }

  function U64At(data: seq<byte>, p: nat): nat
    requires p + 8 <= |data|
  {
    U32At(data, p) + 0x1_0000_0000 * U32At(data, p + 4)
  }

  lemma NumberOfNone()
    ensures Number([]) == 0
  {
  }

  lemma NumberTail(s: seq<byte>)
    requires s != []
    ensures Number(s) == s[0] + 256 * Number(s[1..])
  {
  }

  lemma NumberOfTwo(s: seq<byte>)
    requires |s| == 2
    ensures Number(s) == s[0] + 0x100 * (s[1] as nat)
  {
    hide Number;
    NumberTail(s);
    NumberTail(s[1..]);
    NumberOfNone();
    assert s[1..][1..] == [];
  }

  /** Two more low bytes. */
  lemma NumberTwoMore(s: seq<byte>)
    requires |s| >= 2
    ensures Number(s) == s[0] + 0x100 * (s[1] as nat) + 0x1_0000 * Number(s[2..])
  {
    hide Number;
    NumberTail(s);
    NumberTail(s[1..]);
    assert s[1..][1..] == s[2..];
  }

  lemma NumberOfFour(s: seq<byte>)
    requires |s| == 4
    ensures Number(s) == s[0] + 0x100 * (s[1] as nat) + 0x1_0000 * (s[2] as nat) + 0x100_0000 * (s[3] as nat)
  {
    hide Number;
    NumberTwoMore(s);
    NumberOfTwo(s[2..]);
  }

  lemma NumberFourMore(s: seq<byte>)
    requires |s| >= 4
    ensures Number(s) == s[0] + 0x100 * (s[1] as nat) + 0x1_0000 * (s[2] as nat) + 0x100_0000 * (s[3] as nat) + 0x1_0000_0000 * Number(s[4..])
  {
    hide Number;
    NumberTwoMore(s);
    NumberTwoMore(s[2..]);
    assert s[2..][2..] == s[4..];
  }

  lemma NumbersAt(data: seq<byte>, p: nat)
    ensures p + 1 <= |data| ==> Number(data[p..p + 1]) == data[p]
    ensures p + 2 <= |data| ==> Number(data[p..p + 2]) == U16At(data, p)
    ensures p + 4 <= |data| ==> Number(data[p..p + 4]) == U32At(data, p)
    ensures p + 8 <= |data| ==> Number(data[p..p + 8]) == U64At(data, p)
  {
    hide Number;
    NumberOfNone();
    if p + 1 <= |data| {
      NumberTail(data[p..p + 1]);
      assert data[p..p + 1][1..] == [];
    }
    if p + 2 <= |data| {
      NumberOfTwo(data[p..p + 2]);
    }
    if p + 4 <= |data| {
      NumberOfFour(data[p..p + 4]);
    }
    if p + 8 <= |data| {
      var s := data[p..p + 8];
      NumberFourMore(s);
      NumberOfFour(s[4..]);
    }
  }

  // ---------- bytes at a place ----------

  ghost predicate Holds(data: seq<byte>, p: nat, s: seq<byte>) {
    p + |s| <= |data| && data[p..p + |s|] == s
  }

  lemma HoldsConcat(data: seq<byte>, p: nat, a: seq<byte>, b: seq<byte>)
    ensures Holds(data, p, a + b) <==> Holds(data, p, a) && Holds(data, p + |a|, b)
  {
    var s := a + b;
    if Holds(data, p, s) {
      assert a == s[..|a|] == data[p..p + |a|];
      assert b == s[|a|..] == data[p + |a|..p + |s|];
    }
    if Holds(data, p, a) && Holds(data, p + |a|, b) {
      assert data[p..p + |s|] == data[p..p + |a|] + data[p + |a|..p + |a| + |b|];
    }
  }

  lemma HoldsNumber(data: seq<byte>, p: nat, v: nat, n: nat)
    requires v < Pow256(n)
    ensures Holds(data, p, LittleEndian(v, n)) <==> p + n <= |data| && Number(data[p..p + n]) == v
  {
    hide Number, LittleEndian, Pow256;
    NumberOfLittleEndian(v, n);
    if p + n <= |data| {
      LittleEndianOfNumber(data[p..p + n]);
    }
  }

  // ---------- one index entry ----------

  function EntrySize(e: Entry): nat {
    16 + |e.name| + 4 * |e.shape|
  }

  /** The fields of an index entry: name length, name, type, number of dimensions, dimensions, group size, data size. */
  ghost predicate EntryAt(data: seq<byte>, p: nat, e: Entry) {
    var q := p + 2 + |e.name|;
    var r := q + 2 + 4 * |e.shape|;
    && r + 12 <= |data|
    && U16At(data, p) == |e.name|
    && data[p + 2..q] == e.name
    && data[q] == e.quantType
    && data[q + 1] == |e.shape|
    && (forall d | 0 <= d < |e.shape| :: U32At(data, q + 2 + 4 * d) == e.shape[d])
    && U32At(data, r) == e.groupSize
    && U64At(data, r + 4) == e.dataSize
  }

  ghost predicate DimsAt(data: seq<byte>, p: nat, shape: seq<nat>) {
    && p + 4 * |shape| <= |data|
    && forall d | 0 <= d < |shape| :: U32At(data, p + 4 * d) == shape[d]
  }

  lemma {:induction false} DimsAtIff(data: seq<byte>, p: nat, shape: seq<nat>)
    requires forall d | 0 <= d < |shape| :: shape[d] < Pow256(4)
    ensures Holds(data, p, DimsBytes(shape)) <==> DimsAt(data, p, shape)
    decreases |shape|
  {
    hide Pow256, LittleEndian;
    if shape == [] {
    } else {
      DimsAtIff(data, p + 4, shape[1..]);
      HoldsConcat(data, p, LittleEndian(shape[0], 4), DimsBytes(shape[1..]));
      HoldsNumber(data, p, shape[0], 4);
      NumbersAt(data, p);
      hide Holds, U32At, Number;
      DimsAtMore(data, p, shape);
    }
  }

  lemma DimsAtMore(data: seq<byte>, p: nat, shape: seq<nat>)
    requires shape != []
    ensures DimsAt(data, p, shape) <==> p + 4 <= |data| && U32At(data, p) == shape[0] && DimsAt(data, p + 4, shape[1..])
  {
    hide U32At;
    if p + 4 <= |data| && U32At(data, p) == shape[0] && DimsAt(data, p + 4, shape[1..]) {
      forall d | 0 <= d < |shape| ensures U32At(data, p + 4 * d) == shape[d] {
        if d > 0 {
          assert U32At(data, p + 4 + 4 * (d - 1)) == shape[1..][d - 1];
        }
      }
    }
    if DimsAt(data, p, shape) {
      forall d | 0 <= d < |shape| - 1 ensures U32At(data, p + 4 + 4 * d) == shape[1..][d] {
        assert U32At(data, p + 4 * (d + 1)) == shape[d + 1];
      }
    }
  }

  /** Everything behind the name. */
  ghost predicate FieldsAt(data: seq<byte>, q: nat, e: Entry) {
    var r := q + 2 + 4 * |e.shape|;
    && r + 12 <= |data|
    && data[q] == e.quantType
    && data[q + 1] == |e.shape|
    && DimsAt(data, q + 2, e.shape)
    && U32At(data, r) == e.groupSize
    && U64At(data, r + 4) == e.dataSize
  }

  function SizesBytes(e: Entry): seq<byte> {
    LittleEndian(e.groupSize, 4) + LittleEndian(e.dataSize, 8)
  }

  function FieldsBytes(e: Entry): seq<byte> {
    LittleEndian(e.quantType, 1) + (LittleEndian(|e.shape|, 1) + (DimsBytes(e.shape) + SizesBytes(e)))
  }

  lemma SizesAtIff(data: seq<byte>, r: nat, e: Entry)
    requires EntryInRange(e)
    ensures Holds(data, r, SizesBytes(e)) <==> r + 12 <= |data| && U32At(data, r) == e.groupSize && U64At(data, r + 4) == e.dataSize
    ensures |SizesBytes(e)| == 12
  {
    hide Holds, LittleEndian, Pow256, U32At, U64At, Number;
    HoldsConcat(data, r, LittleEndian(e.groupSize, 4), LittleEndian(e.dataSize, 8));
    HoldsNumber(data, r, e.groupSize, 4);
    HoldsNumber(data, r + 4, e.dataSize, 8);
    NumbersAt(data, r);
    NumbersAt(data, r + 4);
  }

  lemma FieldsAtIff(data: seq<byte>, q: nat, e: Entry)
    requires EntryInRange(e)
    ensures Holds(data, q, FieldsBytes(e)) <==> FieldsAt(data, q, e)
    ensures |FieldsBytes(e)| == 14 + 4 * |e.shape|
  {
    hide Holds, LittleEndian, Pow256, DimsBytes, DimsAt, U32At, U64At, Number, SizesBytes;
    var r := q + 2 + 4 * |e.shape|;
    SizesAtIff(data, r, e);
    HoldsConcat(data, q, LittleEndian(e.quantType, 1), LittleEndian(|e.shape|, 1) + (DimsBytes(e.shape) + SizesBytes(e)));
    HoldsConcat(data, q + 1, LittleEndian(|e.shape|, 1), DimsBytes(e.shape) + SizesBytes(e));
    HoldsConcat(data, q + 2, DimsBytes(e.shape), SizesBytes(e));
    HoldsNumber(data, q, e.quantType, 1);
    HoldsNumber(data, q + 1, |e.shape|, 1);
    DimsAtIff(data, q + 2, e.shape);
    NumbersAt(data, q);
    NumbersAt(data, q + 1);
  }

  /** An entry lies at a place exactly when its bytes do. */
  lemma EntryAtIff(data: seq<byte>, p: nat, e: Entry)
    requires EntryInRange(e)
    ensures Holds(data, p, EntryBytes(e)) <==> EntryAt(data, p, e)
    ensures |EntryBytes(e)| == EntrySize(e)
  {
    hide Holds, LittleEndian, Pow256, DimsBytes, U16At, U32At, U64At, Number;
    var q := p + 2 + |e.name|;
    FieldsAtIff(data, q, e);
    assert EntryBytes(e) == LittleEndian(|e.name|, 2) + (e.name + FieldsBytes(e));
    hide EntryBytes, FieldsBytes;
    HoldsConcat(data, p, LittleEndian(|e.name|, 2), e.name + FieldsBytes(e));
    HoldsConcat(data, p + 2, e.name, FieldsBytes(e));
    HoldsNumber(data, p, |e.name|, 2);
    NumbersAt(data, p);
    HoldsName(data, p + 2, e.name);
  }

  lemma HoldsName(data: seq<byte>, p: nat, s: seq<byte>)
    ensures Holds(data, p, s) <==> p + |s| <= |data| && data[p..p + |s|] == s
  {
  }

  // ---------- index and payloads ----------

  /** The entries follow one another from `p` on. */
  ghost predicate IndexAt(data: seq<byte>, p: nat, records: seq<Record>)
    decreases |records|
  {
    if records == [] then p <= |data|
    else EntryAt(data, p, records[0].entry) && IndexAt(data, p + EntrySize(records[0].entry), records[1..])
  }

  /** The payloads follow one another from `p` to the end of the file, each of its declared size. */
  ghost predicate PayloadsAt(data: seq<byte>, p: nat, records: seq<Record>)
    decreases |records|
  {
    if records == [] then p == |data|
    else
      var size := records[0].entry.dataSize;
      |records[0].data| == size && p + size <= |data| && data[p..p + size] == records[0].data && PayloadsAt(data, p + size, records[1..])
  }

  lemma {:induction false} IndexAtIff(data: seq<byte>, p: nat, records: seq<Record>)
    requires RecordsInRange(records)
    ensures Holds(data, p, IndexBytes(records)) <==> IndexAt(data, p, records)
    decreases |records|
  {
    hide EntryBytes, EntryAt, EntryInRange, EntrySize;
    if records == [] {
    } else {
      assert RecordInRange(records[0]);
      EntryAtIff(data, p, records[0].entry);
      IndexAtIff(data, p + EntrySize(records[0].entry), records[1..]);
      HoldsConcat(data, p, EntryBytes(records[0].entry), IndexBytes(records[1..]));
      hide Holds;
    }
  }

  lemma {:induction false} PayloadsAtIff(data: seq<byte>, p: nat, records: seq<Record>)
    requires forall i | 0 <= i < |records| :: |records[i].data| == records[i].entry.dataSize
    ensures p <= |data| && data[p..] == Payloads(records) <==> PayloadsAt(data, p, records)
    decreases |records|
  {
    if records == [] {
    } else {
      var r, size := records[0], records[0].entry.dataSize;
      PayloadsAtIff(data, p + size, records[1..]);
      hide Payloads;
      PayloadsFirst(records);
      if p + size <= |data| {
        assert data[p..] == data[p..p + size] + data[p + size..];
      }
      if p <= |data| && data[p..] == Payloads(records) {
        assert data[p..p + size] == data[p..][..size] == r.data;
        assert data[p + size..] == data[p..][size..] == Payloads(records[1..]);
      }
    }
  }

  lemma PayloadsFirst(records: seq<Record>)
    requires records != []
    ensures Payloads(records) == records[0].data + Payloads(records[1..])
  {
  }

  // ---------- the file ----------

  /** A file that holds `layout`: "HFQM", then version, arch, number of tensors and the two offsets, the metadata at its
      offset with the number of tensors and the index behind it, the payloads from the data offset to the end. */
  ghost predicate LaidOut(data: seq<byte>, layout: Layout, metadataOffset: nat, dataOffset: nat) {
    && |data| >= 32
    && data[0] == 0x48 && data[1] == 0x46 && data[2] == 0x51 && data[3] == 0x4d
    && U32At(data, 4) == layout.version
    && U32At(data, 8) == layout.arch
    && U32At(data, 12) == |layout.records|
    && U64At(data, 16) == metadataOffset
    && U64At(data, 24) == dataOffset
    && var p := metadataOffset + |layout.metadata|;
       && p + 4 <= |data|
       && data[metadataOffset..p] == layout.metadata
       && U32At(data, p) == |layout.records|
       && IndexAt(data, p + 4, layout.records)
       && PayloadsAt(data, dataOffset, layout.records)
  }

  lemma MagicAt(data: seq<byte>)
    requires |data| >= 4
    ensures data[0..4] == MAGIC <==> data[0] == 0x48 && data[1] == 0x46 && data[2] == 0x51 && data[3] == 0x4d
  {
    var s := data[0..4];
    assert s[0] == data[0] && s[1] == data[1] && s[2] == data[2] && s[3] == data[3];
    assert |MAGIC| == 4;
  }

  lemma SmallFields()
    ensures 32 < Pow256(8)
  {
    SmallOffset();
  }

  /** The writer puts everything in its place. */
  lemma ImageIsLaidOut(layout: Layout)
    requires Writable(layout)
    ensures LaidOut(Image(layout), layout, 32, DataOffset(layout))
    ensures DataOffset(layout) == 36 + |layout.metadata| + |IndexBytes(layout.records)|
  {
    hide HeaderBytes, IndexBytes, Payloads, LittleEndian, Pow256, Number, RecordsInRange, U32At, U64At, IndexAt, PayloadsAt, Holds, HeaderOf;
    var n, data := |layout.records|, Image(layout);
    var head := HeaderBytes(layout.version, layout.arch, n, 32, DataOffset(layout));
    var count, index, body := LittleEndian(n, 4), IndexBytes(layout.records), Payloads(layout.records);
    var front := head + layout.metadata + (count + index);
    SmallFields();
    assert data == head + (layout.metadata + (count + index) + body);
    HeaderReads(layout.version, layout.arch, n, 32, DataOffset(layout), layout.metadata + (count + index) + body);
    HeaderAt(data);
    assert data == front + body && |front| == DataOffset(layout);
    assert data[DataOffset(layout)..] == body;
    PayloadSizes(layout.records);
    PayloadsAtIff(data, DataOffset(layout), layout.records);
    HoldsAll(data);
    assert data == head + (layout.metadata + (count + (index + body)));
    HoldsConcat(data, 0, head, layout.metadata + (count + (index + body)));
    HoldsConcat(data, 32, layout.metadata, count + (index + body));
    HoldsConcat(data, 32 + |layout.metadata|, count, index + body);
    HoldsConcat(data, 36 + |layout.metadata|, index, body);
    HoldsName(data, 32, layout.metadata);
    HoldsNumber(data, 32 + |layout.metadata|, n, 4);
    NumbersAt(data, 32 + |layout.metadata|);
    IndexAtIff(data, 36 + |layout.metadata|, layout.records);
  }

  lemma HoldsAll(data: seq<byte>)
    ensures Holds(data, 0, data)
  {
    assert data[0..|data|] == data;
  }

  lemma PayloadSizes(records: seq<Record>)
    requires RecordsInRange(records)
    ensures forall i | 0 <= i < |records| :: |records[i].data| == records[i].entry.dataSize
  {
    forall i | 0 <= i < |records| ensures |records[i].data| == records[i].entry.dataSize {
      assert RecordInRange(records[i]);
    }
  }

  /** The header fields at their places. */
  lemma HeaderAt(data: seq<byte>)
    requires |data| >= 32
    ensures HeaderOf(data) == Header(U32At(data, 4), U32At(data, 8), U32At(data, 12), U64At(data, 16), U64At(data, 24))
    ensures data[0..4] == MAGIC <==> data[0] == 0x48 && data[1] == 0x46 && data[2] == 0x51 && data[3] == 0x4d
  {
    hide Number, U32At, U64At;
    NumbersAt(data, 4);
    NumbersAt(data, 8);
    NumbersAt(data, 12);
    NumbersAt(data, 16);
    NumbersAt(data, 24);
    MagicAt(data);
  }

  /** What the reader asks of a file beside the places: fields in range (which numbers of these widths always are), names
      that decode, and one object as metadata, before the data offset. */
  ghost predicate Acceptable(utf8: Utf8, layout: Layout, metadataOffset: nat, dataOffset: nat) {
    && RecordsInRange(layout.records) && NamesDecode(utf8, layout.records) && OneObject(layout.metadata)
    && metadataOffset + |layout.metadata| <= dataOffset
  }

  /** A file that reads as a layout holds it. */
  lemma ReadIsLaidOut(utf8: Utf8, data: seq<byte>, layout: Layout)
    requires Read(utf8, data) == Ok(layout)
    ensures |data| >= 32
    ensures LaidOut(data, layout, U64At(data, 16), U64At(data, 24))
    ensures Acceptable(utf8, layout, U64At(data, 16), U64At(data, 24))
  {
    hide Read, HeaderOf, IndexBytes, Payloads, LittleEndian, Pow256, Number, RecordsInRange, NamesDecode, U32At, U64At, IndexAt, PayloadsAt,
         Holds, OneObject;
    ReadFacts(utf8, data);
    HeaderAt(data);
    HeaderWrites(data);
    MetadataInside(utf8, data, layout);
    var h := HeaderOf(data);
    var p := h.metadataOffset + |layout.metadata|;
    PayloadSizes(layout.records);
    PayloadsAtIff(data, h.dataOffset, layout.records);
    HoldsStart(data, p, LittleEndian(h.n, 4) + IndexBytes(layout.records));
    HoldsConcat(data, p, LittleEndian(h.n, 4), IndexBytes(layout.records));
    HoldsNumber(data, p, h.n, 4);
    NumbersAt(data, p);
    IndexAtIff(data, p + 4, layout.records);
  }

  lemma HoldsStart(data: seq<byte>, p: nat, s: seq<byte>)
    requires p <= |data| && s <= data[p..]
    ensures Holds(data, p, s)
  {
    assert data[p..p + |s|] == data[p..][..|s|];
  }

  lemma MetadataInside(utf8: Utf8, data: seq<byte>, layout: Layout)
    requires Read(utf8, data) == Ok(layout)
    ensures |data| >= 32 && OneObject(layout.metadata)
    ensures HeaderOf(data).metadataOffset + |layout.metadata| <= HeaderOf(data).dataOffset
  {
    hide Scan, ReadTail, HeaderOf, Slice;
    var h := HeaderOf(data);
    var region := Slice(data, h.metadataOffset, h.dataOffset);
    var end := Scan(region, At(0)).value;
    SliceLength(data, h.metadataOffset, h.dataOffset, end);
    RegionFacts(data, h.metadataOffset, h.dataOffset, end);
    ReadTailFacts(utf8, data, h, region[..end], data[h.metadataOffset + end..]);
    ScanPrefix(region, At(0), []);
    assert region[..end] + [] == region[..end];
  }

  lemma SliceLength(data: seq<byte>, lo: nat, hi: nat, end: nat)
    requires 1 <= end <= |Slice(data, lo, hi)|
    ensures lo + end <= hi
  {
  }

  /** A file that holds an acceptable layout reads as it. */
  lemma LaidOutReads(utf8: Utf8, data: seq<byte>, layout: Layout)
    requires |data| >= 32 && LaidOut(data, layout, U64At(data, 16), U64At(data, 24))
    requires Acceptable(utf8, layout, U64At(data, 16), U64At(data, 24))
    ensures Read(utf8, data) == Ok(layout)
  {
    hide HeaderOf, IndexBytes, Payloads, LittleEndian, Pow256, Number, RecordsInRange, NamesDecode, U32At, U64At, IndexAt, PayloadsAt,
         Holds, OneObject, Scan, ReadTail, Slice;
    HeaderAt(data);
    HeaderWrites(data);
    var h := HeaderOf(data);
    var p := h.metadataOffset + |layout.metadata|;
    PayloadSizes(layout.records);
    PayloadsAtIff(data, h.dataOffset, layout.records);
    var rest := data[p..h.dataOffset];
    RegionSplits(data, h.metadataOffset, h.dataOffset, layout.metadata);
    OneObjectThen(layout.metadata, rest);
    HoldsNumber(data, p, h.n, 4);
    NumbersAt(data, p);
    IndexAtIff(data, p + 4, layout.records);
    HoldsConcat(data, p, LittleEndian(h.n, 4), IndexBytes(layout.records));
    TailReads(utf8, data, h, layout, p);
  }

  lemma RegionSplits(data: seq<byte>, lo: nat, hi: nat, metadata: seq<byte>)
    requires lo + |metadata| <= hi <= |data| && data[lo..lo + |metadata|] == metadata
    ensures Slice(data, lo, hi) == metadata + data[lo + |metadata|..hi]
    ensures Slice(data, lo, hi)[..|metadata|] == metadata
  {
    assert data[lo..hi] == data[lo..lo + |metadata|] + data[lo + |metadata|..hi];
  }

  lemma TailReads(utf8: Utf8, data: seq<byte>, h: Header, layout: Layout, p: nat)
    requires h.version == layout.version && h.arch == layout.arch && h.n == |layout.records| < Pow256(4)
    requires RecordsInRange(layout.records) && NamesDecode(utf8, layout.records)
    requires h.dataOffset <= |data| && data[h.dataOffset..] == Payloads(layout.records)
    requires p <= |data| && Holds(data, p, LittleEndian(h.n, 4) + IndexBytes(layout.records))
    ensures ReadTail(utf8, data, h, layout.metadata, data[p..]) == Ok(layout)
  {
    hide ReadRecords, IndexBytes, Payloads, LittleEndian, Pow256, RecordsInRange, NamesDecode, Field;
    var count, index := LittleEndian(h.n, 4), IndexBytes(layout.records);
    var stop := p + |count| + |index|;
    assert data[p..] == data[p..stop] + data[stop..];
    Associative(count, index, data[stop..]);
    FieldReads(h.n, 4, index + data[stop..]);
    var before, body := data[..h.dataOffset], Payloads(layout.records);
    assert data == before + body + [];
    RecordsRead(utf8, before, layout.records, [], data[stop..]);
    assert |before + body| == |data|;
  }

  /** Exactly the files that hold a layout acceptably read as it. */
  lemma ReadsIffLaidOut(utf8: Utf8, data: seq<byte>, layout: Layout)
    requires |data| >= 32
    ensures Read(utf8, data) == Ok(layout) <==>
              LaidOut(data, layout, U64At(data, 16), U64At(data, 24)) && Acceptable(utf8, layout, U64At(data, 16), U64At(data, 24))
  {
    hide LaidOut, Acceptable, Read, U64At;
    if Read(utf8, data) == Ok(layout) {
      ReadIsLaidOut(utf8, data, layout);
    }
    if LaidOut(data, layout, U64At(data, 16), U64At(data, 24)) && Acceptable(utf8, layout, U64At(data, 16), U64At(data, 24)) {
      LaidOutReads(utf8, data, layout);
    }
  }
}
