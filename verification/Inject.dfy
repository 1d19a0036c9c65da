/** `inject` of scripts/hfq_inject_chat_template.py: a chat template is put into the metadata of an HFQ file and the data
    offset is moved; index and payloads are copied through. */
module Inject {
  import opened Wrappers
  import opened Bytes
  import opened JsonScan
  import opened Hfq
  import P = Patch

  /** What happens to the metadata text: parsing fails, the template is already there, or new text. */
  datatype Edit = Unparsable | AlreadyThere | NewText(text: seq<byte>)

  datatype Outcome = Failed(error: Error) | Skipped | Written(file: seq<byte>)

  /** The metadata region: a negative read length is an error, except -1, which reads to the end of the file. */
  function Region(src: seq<byte>, h: Header): Result<seq<byte>, Error> {
    if h.dataOffset >= h.metadataOffset then Ok(Slice(src, h.metadataOffset, h.dataOffset))
    else if h.dataOffset + 1 == h.metadataOffset then Ok(Slice(src, h.metadataOffset, |src|))
    else Err(Malformed)
  }

  /** Everything before the metadata, with the data offset replaced. */
  function Prefix(src: seq<byte>, metadataOffset: nat, dataOffset: nat): (p: seq<byte>)
    requires 32 <= metadataOffset <= |src|
    ensures |p| == metadataOffset
  {
    src[..24] + LittleEndian(dataOffset, 8) + src[32..metadataOffset]
  }

  /** `inject` as a function of the file's bytes and the edit made to its metadata text. */
  function InjectInto(edit: seq<byte> -> Edit, src: seq<byte>): Outcome {
    if |src| < 4 || src[..4] != MAGIC then Failed(NotHfq)
    else if |src| < 32 then Failed(Malformed)
    else
      var h := HeaderOf(src);
      match Region(src, h)
      case Err(e) => Failed(e)
      case Ok(region) =>
        match Scan(region, At(0))
        case None => Failed(NoObjectEnd)
        case Some(end) =>
          match edit(region[..end])
          case Unparsable => Failed(Malformed)
          case AlreadyThere => Skipped
          case NewText(text) => Rewrite(src, h, region[end..], text)
  }

  /** The written file: patched prefix, new text, index and padding, payloads. */
  function Rewrite(src: seq<byte>, h: Header, indexAndPad: seq<byte>, text: seq<byte>): Outcome {
    var dataOffset := h.metadataOffset + |text| + |indexAndPad|;
    if h.metadataOffset < 32 || h.metadataOffset > |src| || dataOffset >= Pow256(8) then Failed(OutOfRange)
    else Written(Prefix(src, h.metadataOffset, dataOffset) + text + indexAndPad + Slice(src, h.dataOffset, |src|))
  }

  /** The script's body, writing the output piece by piece. */
  method Inject(edit: seq<byte> -> Edit, src: seq<byte>) returns (r: Outcome)
    ensures r == InjectInto(edit, src)
  {
    hide Number, LittleEndian, Scan, Slice, Pow256;
    if |src| < 4 || src[..4] != MAGIC {
      return Failed(NotHfq);
    }
    if |src| < 32 {
      return Failed(Malformed);
    }
    var h := HeaderOf(src);
    var region := Region(src, h);
    if region.Err? {
      return Failed(region.error);
    }
    var end := FindJsonEnd(region.value);
    if end.None? {
      return Failed(NoObjectEnd);
    }
    var indexAndPad := region.value[end.value..];
    match edit(region.value[..end.value]) {
      case Unparsable => return Failed(Malformed);
      case AlreadyThere => return Skipped;
      case NewText(text) =>
        var dataOffset := h.metadataOffset + |text| + |indexAndPad|;
        if h.metadataOffset < 32 || h.metadataOffset > |src| || dataOffset >= Pow256(8) {
          return Failed(OutOfRange);
        }
        var out := Prefix(src, h.metadataOffset, dataOffset);
        out := out + text;
        out := out + indexAndPad;
        out := out + Slice(src, h.dataOffset, |src|);
        return Written(out);
    }
  }

  lemma PrefixHeader(src: seq<byte>, metadataOffset: nat, dataOffset: nat, rest: seq<byte>)
    requires 32 <= metadataOffset <= |src| && dataOffset < Pow256(8)
    ensures var dst := Prefix(src, metadataOffset, dataOffset) + rest;
            dst[0..4] == src[0..4] && HeaderOf(dst) == HeaderOf(src).(dataOffset := dataOffset)
  {
    hide Number, LittleEndian, Pow256;
    var dst := Prefix(src, metadataOffset, dataOffset) + rest;
    assert dst[..24] == src[..24];
    assert dst[0..4] == dst[..24][0..4] && src[0..4] == src[..24][0..4];
    assert dst[4..8] == dst[..24][4..8] && src[4..8] == src[..24][4..8];
    assert dst[8..12] == dst[..24][8..12] && src[8..12] == src[..24][8..12];
    assert dst[12..16] == dst[..24][12..16] && src[12..16] == src[..24][12..16];
    assert dst[16..24] == dst[..24][16..24] && src[16..24] == src[..24][16..24];
    assert dst[24..32] == LittleEndian(dataOffset, 8);
    NumberOfLittleEndian(dataOffset, 8);
  }

  lemma SliceShift(src: seq<byte>, dst: seq<byte>, off: nat, off': nat, n: nat)
    requires off <= |src| && off' <= |dst| && src[off..] == dst[off'..]
    ensures Slice(src, off, off + n) == Slice(dst, off', off' + n)
    ensures off + n <= |src| ==> off' + n <= |dst| && src[off + n..] == dst[off' + n..]
  {
    var s, t := src[off..], dst[off'..];
    assert |s| == |src| - off == |dst| - off';
    if off + n <= |src| {
      assert src[off..off + n] == s[..n] && dst[off'..off' + n] == t[..n];
      assert src[off + n..] == s[n..] && dst[off' + n..] == t[n..];
    } else {
      assert src[off..|src|] == s && dst[off'..|dst|] == t;
    }
  }

  /** Records depend on the payload area only through its contents, not its offset. */
  lemma {:induction false} RecordsShift(utf8: Utf8, src: seq<byte>, dst: seq<byte>, index: seq<byte>, off: nat, off': nat, n: nat)
    requires off <= |src| && off' <= |dst| && src[off..] == dst[off'..]
    requires ReadRecords(utf8, src, index, off, n).Ok?
    ensures var (rs, rest, end) := ReadRecords(utf8, src, index, off, n).value;
            end >= off && ReadRecords(utf8, dst, index, off', n) == Ok((rs, rest, off' + (end - off)))
    decreases n
  {
    hide TakeEntry, Slice;
    if n == 0 {
    } else {
      var (e, rest) := TakeEntry(utf8, index).value;
      SliceShift(src, dst, off, off', e.dataSize);
      SliceFits(src, off, e.dataSize);
      RecordsShift(utf8, src, dst, rest, off + e.dataSize, off' + e.dataSize, n - 1);
    }
  }

  lemma SliceFits(src: seq<byte>, off: nat, n: nat)
    requires off <= |src| && |Slice(src, off, off + n)| == n
    ensures off + n <= |src|
  {
  }

  /** The tail of a reader depends only on the bytes after the metadata and the payload contents. */
  lemma ReadTailShift(utf8: Utf8, src: seq<byte>, dst: seq<byte>, h: Header, dataOffset: nat,
                      metadata: seq<byte>, text: seq<byte>, tail: seq<byte>)
    requires h.dataOffset <= |src| && dataOffset <= |dst| && src[h.dataOffset..] == dst[dataOffset..]
    requires ReadTail(utf8, src, h, metadata, tail).Ok?
    ensures ReadTail(utf8, dst, h.(dataOffset := dataOffset), text, tail)
         == Ok(ReadTail(utf8, src, h, metadata, tail).value.(metadata := text))
  {
    hide Field, ReadRecords;
    var (n, index) := Field(tail, 4).value;
    RecordsShift(utf8, src, dst, index, h.dataOffset, dataOffset, n);
  }

  /** `dst` carries the tensors of `src` (which reads as `layout`) with `text` as metadata and payloads moved to `dataOffset`. */
  ghost predicate Carries(utf8: Utf8, src: seq<byte>, layout: Layout, dst: seq<byte>, text: seq<byte>, dataOffset: nat) {
    && |src| >= 32 && |dst| >= 32
    && Read(utf8, dst) == Ok(layout.(metadata := text))
    && HeaderOf(dst) == HeaderOf(src).(dataOffset := dataOffset)
    && HeaderOf(src).dataOffset <= |src| && dataOffset <= |dst|
    && dst[dataOffset..] == src[HeaderOf(src).dataOffset..]
    && Spliced(src, dst, HeaderOf(src).metadataOffset, |layout.metadata|, text)
  }

  /** Byte by byte: the `length` bytes at `at` are replaced by `text`; before them only the data offset at 24 differs, after
      them nothing. */
  ghost predicate Spliced(src: seq<byte>, dst: seq<byte>, at: nat, length: nat, text: seq<byte>) {
    && 32 <= at && at + length <= |src| && |dst| + length == |src| + |text|
    && dst[..24] == src[..24] && dst[32..at] == src[32..at]
    && dst[at..at + |text|] == text
    && dst[at + |text|..] == src[at + length..]
  }

  lemma PrefixBytes(src: seq<byte>, metadataOffset: nat, dataOffset: nat, rest: seq<byte>)
    requires 32 <= metadataOffset <= |src|
    ensures var dst := Prefix(src, metadataOffset, dataOffset) + rest;
            dst[..24] == src[..24] && dst[32..metadataOffset] == src[32..metadataOffset] && dst[metadataOffset..] == rest
  {
    hide LittleEndian;
    var head := src[..24] + LittleEndian(dataOffset, 8);
    var dst := head + (src[32..metadataOffset] + rest);
    assert dst == Prefix(src, metadataOffset, dataOffset) + rest;
    assert dst[32..] == src[32..metadataOffset] + rest;
    assert dst[32..metadataOffset] == dst[32..][..metadataOffset - 32];
    assert dst[metadataOffset..] == dst[32..][metadataOffset - 32..];
  }

  /** Template injection preserves the tensors.  A file is written exactly when the metadata follows the header and the new
      offset fits its field; it parses to the same version, arch and records, in order, with the new metadata, and every
      payload has moved by exactly the change in metadata length. */
  lemma InjectionPreservesTensors(utf8: Utf8, edit: seq<byte> -> Edit, src: seq<byte>, layout: Layout, text: seq<byte>)
    requires |src| >= 32 && Read(utf8, src) == Ok(layout)
    requires edit(layout.metadata) == NewText(text) && OneObject(text)
    ensures |layout.metadata| <= HeaderOf(src).dataOffset
    ensures var dataOffset := HeaderOf(src).dataOffset - |layout.metadata| + |text|;
            if HeaderOf(src).metadataOffset < 32 || dataOffset >= Pow256(8) then InjectInto(edit, src) == Failed(OutOfRange)
            else InjectInto(edit, src).Written? && Carries(utf8, src, layout, InjectInto(edit, src).file, text, dataOffset)
  {
    hide *;
    ReadFacts(utf8, src);
    var end := SplitsRegion(utf8, src, layout);
    var h := HeaderOf(src);
    InjectTakes(edit, src, end, text);
    if h.metadataOffset >= 32 && h.dataOffset - end + |text| < Pow256(8) {
      RewrittenReads(utf8, src, layout, end, text);
    }
  }

  /** How the reader splits the metadata region of a readable file. */
  lemma SplitsRegion(utf8: Utf8, src: seq<byte>, layout: Layout) returns (end: nat)
    requires |src| >= 32 && Read(utf8, src) == Ok(layout)
    ensures var h := HeaderOf(src);
            && end == |layout.metadata| && h.metadataOffset + end <= h.dataOffset <= |src|
            && Slice(src, h.metadataOffset, h.dataOffset) == src[h.metadataOffset..h.dataOffset]
            && Scan(src[h.metadataOffset..h.dataOffset], At(0)) == Some(end)
            && layout.metadata == src[h.metadataOffset..h.dataOffset][..end]
            && ReadTail(utf8, src, h, layout.metadata, src[h.metadataOffset + end..]) == Ok(layout)
            && src[0..4] == MAGIC
  {
    hide Scan, ReadTail, HeaderOf, Slice;
    ReadFacts(utf8, src);
    var h := HeaderOf(src);
    var region := Slice(src, h.metadataOffset, h.dataOffset);
    end := Scan(region, At(0)).value;
    SliceBounds(src, h.metadataOffset, h.dataOffset, end);
    ReadTailMetadata(utf8, src, h, region[..end], src[h.metadataOffset + end..]);
  }

  lemma SliceBounds(data: seq<byte>, lo: nat, hi: nat, end: nat)
    requires 1 <= end <= |Slice(data, lo, hi)| && hi <= |data|
    ensures lo + end <= hi && Slice(data, lo, hi) == data[lo..hi]
  {
  }

  lemma InjectTakes(edit: seq<byte> -> Edit, src: seq<byte>, end: nat, text: seq<byte>)
    requires |src| >= 32 && src[0..4] == MAGIC
    requires var h := HeaderOf(src);
             && h.metadataOffset + end <= h.dataOffset <= |src|
             && Slice(src, h.metadataOffset, h.dataOffset) == src[h.metadataOffset..h.dataOffset]
             && Scan(src[h.metadataOffset..h.dataOffset], At(0)) == Some(end)
             && edit(src[h.metadataOffset..h.dataOffset][..end]) == NewText(text)
    ensures var h := HeaderOf(src);
            InjectInto(edit, src) == Rewrite(src, h, src[h.metadataOffset..h.dataOffset][end..], text)
    ensures var h := HeaderOf(src);
            h.metadataOffset < 32 || h.dataOffset - end + |text| >= Pow256(8) ==> InjectInto(edit, src) == Failed(OutOfRange)
  {
    hide Scan, HeaderOf, Slice, Pow256;
    assert src[..4] == src[0..4];
  }

  lemma RewrittenReads(utf8: Utf8, src: seq<byte>, layout: Layout, end: nat, text: seq<byte>)
    requires |src| >= 32 && OneObject(text)
    requires var h := HeaderOf(src);
             && h.metadataOffset >= 32 && h.metadataOffset + end <= h.dataOffset <= |src| && src[0..4] == MAGIC
             && h.dataOffset - end + |text| < Pow256(8)
             && layout.metadata == src[h.metadataOffset..h.dataOffset][..end]
             && ReadTail(utf8, src, h, layout.metadata, src[h.metadataOffset + end..]) == Ok(layout)
    ensures var h := HeaderOf(src);
            var r := Rewrite(src, h, src[h.metadataOffset..h.dataOffset][end..], text);
            r.Written? && Carries(utf8, src, layout, r.file, text, h.dataOffset - end + |text|)
  {
    hide Pow256, Scan, ReadTail, HeaderOf, Prefix, Spliced;
    var h := HeaderOf(src);
    var mo, do := h.metadataOffset, h.dataOffset;
    var rest := src[mo..do][end..];
    var dataOffset := mo + |text| + |rest|;
    assert Slice(src, do, |src|) == src[do..];
    var dst := Prefix(src, mo, dataOffset) + text + rest + src[do..];
    assert dst == Prefix(src, mo, dataOffset) + (text + rest + src[do..]);
    PrefixHeader(src, mo, dataOffset, text + rest + src[do..]);
    RewrittenSplices(src, dst, mo, do, end, dataOffset, text);
    Reassemble(src, dst, Prefix(src, mo, dataOffset), text, end, mo, do);
    OneObjectThen(text, rest);
    ReadTailShift(utf8, src, dst, h, dataOffset, layout.metadata, text, src[mo + end..]);
  }

  lemma RewrittenSplices(src: seq<byte>, dst: seq<byte>, mo: nat, do: nat, end: nat, dataOffset: nat, text: seq<byte>)
    requires 32 <= mo && mo + end <= do <= |src|
    requires dst == Prefix(src, mo, dataOffset) + text + src[mo..do][end..] + src[do..]
    ensures Spliced(src, dst, mo, end, text)
  {
    hide Prefix, Slice;
    var rest := src[mo..do][end..];
    var tail := rest + src[do..];
    assert dst == Prefix(src, mo, dataOffset) + (text + tail);
    PrefixBytes(src, mo, dataOffset, text + tail);
    TextAt(dst, mo, text, tail);
    Reassemble(src, dst, Prefix(src, mo, dataOffset), text, end, mo, do);
  }

  lemma TextAt(dst: seq<byte>, at: nat, text: seq<byte>, more: seq<byte>)
    requires at <= |dst| && dst[at..] == text + more
    ensures at + |text| <= |dst| && dst[at..at + |text|] == text
  {
    assert dst[at..at + |text|] == dst[at..][..|text|];
  }

  lemma ReadTailMetadata(utf8: Utf8, data: seq<byte>, h: Header, metadata: seq<byte>, tail: seq<byte>)
    requires ReadTail(utf8, data, h, metadata, tail).Ok?
    ensures ReadTail(utf8, data, h, metadata, tail).value.metadata == metadata
  {
    hide Field, ReadRecords;
  }

  lemma Reassemble(src: seq<byte>, dst: seq<byte>, prefix: seq<byte>, text: seq<byte>, end: nat, mo: nat, do: nat)
    requires |prefix| == mo && mo + end <= do <= |src|
    requires dst == prefix + text + src[mo..do][end..] + src[do..]
    ensures var dataOffset := mo + |text| + (do - mo - end);
            && dataOffset <= |dst|
            && dst[dataOffset..] == src[do..]
            && Slice(dst, mo, dataOffset) == text + src[mo..do][end..]
            && (text + src[mo..do][end..])[..|text|] == text
            && dst[mo + |text|..] == src[mo + end..]
  {
    var rest := src[mo..do][end..];
    assert rest == src[mo + end..do];
    assert dst[mo + |text|..] == rest + src[do..];
    assert src[mo + end..] == src[mo + end..do] + src[do..];
  }

  /** The same index read from another data offset gives the same entries, every offset moved by the same amount. */
  lemma {:induction false} OffsetsShift(utf8: Utf8, index: seq<byte>, off: nat, off': nat, n: nat)
    requires P.Locate(utf8, index, off, n).Ok?
    ensures P.Locate(utf8, index, off', n).Ok?
    ensures var (ts, rest) := P.Locate(utf8, index, off, n).value;
            var (ts', rest') := P.Locate(utf8, index, off', n).value;
            && rest == rest' && |ts| == |ts'|
            && forall i | 0 <= i < |ts| :: ts'[i].entry == ts[i].entry && ts'[i].offset - off' == ts[i].offset - off
    decreases n
  {
    hide TakeEntry;
    if n == 0 {
    } else {
      var (e, rest) := TakeEntry(utf8, index).value;
      OffsetsShift(utf8, rest, off + e.dataSize, off' + e.dataSize, n - 1);
    }
  }
}
