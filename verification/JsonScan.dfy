/** The brace scanner that finds the end of the JSON object embedded in an HFQ file (`json_object_end` of
    scripts/astrea.py and `find_json_end` of scripts/hfq_inject_chat_template.py). */
module JsonScan {
  import opened Wrappers
  import opened Bytes

  const QUOTE: byte := 0x22
  const BACKSLASH: byte := 0x5c
  const OPEN: byte := 0x7b
  const CLOSE: byte := 0x7d

  /** The loop's variables. */
  datatype Scanner = Scanner(depth: int, inString: bool, escape: bool)

  /** Outside strings at a given depth. */
  function At(depth: int): Scanner {
    Scanner(depth, false, false)
  }

  function Step(s: Scanner, b: byte): Scanner {
    if s.escape then s.(escape := false)
    else if b == BACKSLASH && s.inString then s.(escape := true)
    else if b == QUOTE then s.(inString := !s.inString)
    else if s.inString then s
    else if b == OPEN then s.(depth := s.depth + 1)
    else if b == CLOSE then s.(depth := s.depth - 1)
    else s
  }

  /** The step closes the outermost brace. */
  predicate Closes(s: Scanner, b: byte) {
    !s.escape && !s.inString && b == CLOSE && s.depth == 1
  }

  /** One past the byte that closes the outermost brace, if any. */
  function Scan(data: seq<byte>, s: Scanner): (r: Option<nat>)
    ensures r.Some? ==> 1 <= r.value <= |data|
  {
    if data == [] then None
    else if Closes(s, data[0]) then Some(1)
    else Shift(1, Scan(data[1..], Step(s, data[0])))
  }

  function Shift(n: nat, r: Option<nat>): Option<nat> {
    match r
    case None => None
    case Some(k) => Some(n + k)
  }

  lemma ScanUnfold(data: seq<byte>, i: nat, s: Scanner)
    requires i < |data|
    ensures Scan(data[i..], s)
         == if Closes(s, data[i]) then Some(1) else Shift(1, Scan(data[i + 1..], Step(s, data[i])))
  {
    assert data[i..][1..] == data[i + 1..];
  }

  lemma ScanEnds(data: seq<byte>, s: Scanner)
    ensures data[0..] == data && Shift(0, Scan(data, s)) == Scan(data, s)
    ensures forall t :: Scan(data[|data|..], t) == None
  {
  }

  /** `json_object_end`. */
  method JsonObjectEnd(data: seq<byte>) returns (end: Option<nat>)
    ensures end == Scan(data, At(0))
  {
    hide Scan;
    var depth, inString, escape := 0, false, false;
    var i := 0;
    ScanEnds(data, At(0));
    while i < |data|
      invariant i <= |data|
      invariant Scan(data, At(0)) == Shift(i, Scan(data[i..], Scanner(depth, inString, escape)))
    {
      var b := data[i];
      ScanUnfold(data, i, Scanner(depth, inString, escape));
      i := i + 1;
      if escape {
        escape := false;
      } else if b == BACKSLASH && inString {
        escape := true;
      } else if b == QUOTE {
        inString := !inString;
      } else if inString {
      } else if b == OPEN {
        depth := depth + 1;
      } else if b == CLOSE {
        depth := depth - 1;
        if depth == 0 {
          return Some(i);
        }
      }
    }
    end := None;
  }

  /** `find_json_end`: the same scan with the tests nested differently. */
  method FindJsonEnd(buf: seq<byte>) returns (end: Option<nat>)
    ensures end == Scan(buf, At(0))
  {
    hide Scan;
    var depth, inStr, esc := 0, false, false;
    ScanEnds(buf, At(0));
    for i := 0 to |buf|
      invariant Scan(buf, At(0)) == Shift(i, Scan(buf[i..], Scanner(depth, inStr, esc)))
    {
      var b := buf[i];
      ScanUnfold(buf, i, Scanner(depth, inStr, esc));
      if esc {
        esc := false;
        continue;
      }
      if b == BACKSLASH && inStr {
        esc := true;
        continue;
      }
      if b == QUOTE {
        inStr := !inStr;
        continue;
      }
      if !inStr {
        if b == OPEN {
          depth := depth + 1;
        } else if b == CLOSE {
          depth := depth - 1;
          if depth == 0 {
            return Some(i + 1);
          }
        }
      }
    }
    end := None;
  }

  /** What the scanner finds is self-delimiting: whatever follows the end does not matter. */
  lemma {:induction false} ScanPrefix(data: seq<byte>, s: Scanner, rest: seq<byte>)
    requires Scan(data, s).Some?
    ensures var n := Scan(data, s).value; Scan(data[..n] + rest, s) == Some(n)
  {
    var n := Scan(data, s).value;
    var t := data[..n] + rest;
    if !Closes(s, data[0]) {
      ScanPrefix(data[1..], Step(s, data[0]), rest);
      assert t[1..] == data[1..][..n - 1] + rest;
    }
  }

  // ---------- JSON text ----------

  /** A piece of a string body: an ordinary byte, or a backslash and the byte after it. */
  datatype Part = Plain(b: byte) | Escaped(b: byte)

  /** JSON values as text: literals and numbers, strings, arrays, objects, with white space where RFC 8259 allows it. */
  datatype Json =
    | Literal(text: seq<byte>)
    | String(parts: seq<Part>)
    | Array(gap: seq<byte>, items: seq<Item>)
    | Object(gap: seq<byte>, members: seq<Member>)

  datatype Item = Item(before: seq<byte>, value: Json, after: seq<byte>)

  datatype Member = Member(before: seq<byte>, key: seq<Part>, afterKey: seq<byte>, beforeValue: seq<byte>, value: Json, after: seq<byte>)

  ghost predicate Spaces(s: seq<byte>) {
    forall i | 0 <= i < |s| :: s[i] in {0x20, 0x09, 0x0a, 0x0d}
  }

  /** A byte of a literal name or a number: letters, digits, plus, minus, dot. */
  predicate LiteralByte(b: byte) {
    0x61 <= b <= 0x7a || b == 0x45 || 0x30 <= b <= 0x39 || b == 0x2b || b == 0x2d || b == 0x2e
  }

  /** Plain bytes are neither quote, backslash nor control (bytes of multi-byte characters included); the byte after a
      backslash is one of the eight escapes or u, whose four hex digits are plain. */
  ghost predicate StringParts(parts: seq<Part>) {
    forall i | 0 <= i < |parts| ::
      match parts[i]
      case Plain(b) => b >= 0x20 && b != QUOTE && b != BACKSLASH
      case Escaped(b) => b in {0x22, 0x5c, 0x2f, 0x62, 0x66, 0x6e, 0x72, 0x74, 0x75}
  }

  ghost predicate WellFormed(v: Json) {
    match v
    case Literal(text) => forall i | 0 <= i < |text| :: LiteralByte(text[i])
    case String(parts) => StringParts(parts)
    case Array(gap, items) => Spaces(gap) && forall i | 0 <= i < |items| :: WellFormedItem(items[i])
    case Object(gap, members) => Spaces(gap) && forall i | 0 <= i < |members| :: WellFormedMember(members[i])
  }

  ghost predicate WellFormedItem(it: Item) {
    Spaces(it.before) && WellFormed(it.value) && Spaces(it.after)
  }

  ghost predicate WellFormedMember(m: Member) {
    && Spaces(m.before) && StringParts(m.key) && Spaces(m.afterKey)
    && Spaces(m.beforeValue) && WellFormed(m.value) && Spaces(m.after)
  }

  function PartsText(parts: seq<Part>): seq<byte> {
    if parts == [] then []
    else PartsText(parts[..|parts| - 1]) +
         match parts[|parts| - 1] case Plain(b) => [b] case Escaped(b) => [BACKSLASH, b]
  }

  function Quoted(parts: seq<Part>): seq<byte> {
    [QUOTE] + PartsText(parts) + [QUOTE]
  }

  function Text(v: Json): seq<byte>
    decreases v
  {
    match v
    case Literal(text) => text
    case String(parts) => Quoted(parts)
    case Array(gap, items) => [0x5b] + gap + ItemsText(items) + [0x5d]
    case Object(gap, members) => [OPEN] + gap + MembersText(members) + [CLOSE]
  }

  /** Comma-separated items. */
  function ItemsText(items: seq<Item>): seq<byte>
    decreases items
  {
    if items == [] then []
    else
      var n := |items| - 1;
      ItemsText(items[..n]) + Separator(n)
      + items[n].before + Text(items[n].value) + items[n].after
  }

  function MembersText(members: seq<Member>): seq<byte>
    decreases members
  {
    if members == [] then []
    else
      var n := |members| - 1;
      var m := members[n];
      MembersText(members[..n]) + Separator(n)
      + m.before + Quoted(m.key) + m.afterKey + [0x3a] + m.beforeValue + Text(m.value) + m.after
  }

  /** Scanning `text` takes the scanner from `s` to `t` without closing the object. */
  ghost predicate Passes(text: seq<byte>, s: Scanner, t: Scanner) {
    forall rest :: Scan(text + rest, s) == Shift(|text|, Scan(rest, t))
  }

  lemma PassesEmpty(s: Scanner)
    ensures Passes([], s, s)
  {
    forall rest: seq<byte> ensures Scan([] + rest, s) == Shift(0, Scan(rest, s)) {
      assert [] + rest == rest;
    }
  }

  lemma PassesByte(b: byte, s: Scanner)
    requires !Closes(s, b)
    ensures Passes([b], s, Step(s, b))
  {
    forall rest: seq<byte> ensures Scan([b] + rest, s) == Shift(1, Scan(rest, Step(s, b))) {
      assert ([b] + rest)[1..] == rest;
    }
  }

  lemma PassesConcat(a: seq<byte>, b: seq<byte>, s: Scanner, t: Scanner, u: Scanner)
    requires Passes(a, s, t) && Passes(b, t, u)
    ensures Passes(a + b, s, u)
  {
    hide Scan;
    forall rest: seq<byte> ensures Scan(a + b + rest, s) == Shift(|a + b|, Scan(rest, u)) {
      assert a + b + rest == a + (b + rest);
      assert Scan(a + (b + rest), s) == Shift(|a|, Scan(b + rest, t));
    }
  }

  /** Bytes with no meaning to the scanner outside strings. */
  ghost predicate Neutral(s: seq<byte>) {
    forall i | 0 <= i < |s| :: s[i] != QUOTE && s[i] != OPEN && s[i] != CLOSE
  }

  lemma {:induction false} PassesNeutral(a: seq<byte>, depth: int)
    requires Neutral(a)
    ensures Passes(a, At(depth), At(depth))
  {
    hide Passes;
    if a == [] {
      PassesEmpty(At(depth));
    } else {
      var n := |a| - 1;
      PassesNeutral(a[..n], depth);
      PassesByte(a[n], At(depth));
      PassesConcat(a[..n], [a[n]], At(depth), At(depth), At(depth));
      assert a == a[..n] + [a[n]];
    }
  }

  lemma {:induction false} PassesParts(parts: seq<Part>, depth: int)
    requires StringParts(parts)
    ensures Passes(PartsText(parts), Scanner(depth, true, false), Scanner(depth, true, false))
  {
    hide Passes;
    var s := Scanner(depth, true, false);
    if parts == [] {
      PassesEmpty(s);
    } else {
      var n := |parts| - 1;
      PassesParts(parts[..n], depth);
      match parts[n] {
        case Plain(b) =>
          PassesByte(b, s);
          PassesConcat(PartsText(parts[..n]), [b], s, s, s);
        case Escaped(b) =>
          PassesByte(BACKSLASH, s);
          PassesByte(b, Scanner(depth, true, true));
          PassesConcat([BACKSLASH], [b], s, Scanner(depth, true, true), s);
          assert [BACKSLASH] + [b] == [BACKSLASH, b];
          PassesConcat(PartsText(parts[..n]), [BACKSLASH, b], s, s, s);
      }
    }
  }

  lemma PassesQuoted(parts: seq<Part>, depth: int)
    requires StringParts(parts)
    ensures Passes(Quoted(parts), At(depth), At(depth))
  {
    hide Passes, PartsText, StringParts;
    var inside := Scanner(depth, true, false);
    PassesByte(QUOTE, At(depth));
    PassesByte(QUOTE, inside);
    PassesParts(parts, depth);
    PassesConcat([QUOTE], PartsText(parts), At(depth), inside, inside);
    PassesConcat([QUOTE] + PartsText(parts), [QUOTE], At(depth), inside, At(depth));
  }

  lemma SpacesNeutral(s: seq<byte>)
    requires Spaces(s)
    ensures Neutral(s)
  {
  }

  /** A complete value leaves the scanner where it was. */
  lemma {:induction false} PassesValue(v: Json, depth: int)
    requires WellFormed(v) && depth >= 1
    ensures Passes(Text(v), At(depth), At(depth))
    decreases v, 1
  {
    hide Passes, Spaces, Neutral, StringParts;
    match v
    case Literal(text) =>
      assert Neutral(text) by { LiteralNeutral(text); }
      PassesNeutral(text, depth);
    case String(parts) => PassesQuoted(parts, depth);
    case Array(gap, items) =>
      SpacesNeutral(gap);
      PassesNeutral(gap, depth);
      PassesItems(items, depth);
      PassesByte(0x5b, At(depth));
      PassesByte(0x5d, At(depth));
      Wrap([0x5b], gap, ItemsText(items), [0x5d], At(depth), At(depth), At(depth));
    case Object(gap, members) =>
      PassesInside(gap, members, depth);
      PassesByte(CLOSE, At(depth + 1));
      PassesConcat([OPEN] + gap + MembersText(members), [CLOSE], At(depth), At(depth + 1), At(depth));
  }

  lemma LiteralNeutral(text: seq<byte>)
    requires forall i | 0 <= i < |text| :: LiteralByte(text[i])
    ensures Neutral(text)
  {
  }

  lemma Wrap(open: seq<byte>, gap: seq<byte>, body: seq<byte>, close: seq<byte>, s: Scanner, t: Scanner, u: Scanner)
    requires Passes(open, s, t) && Passes(gap, t, t) && Passes(body, t, t) && Passes(close, t, u)
    ensures Passes(open + gap + body + close, s, u)
  {
    hide Passes;
    PassesConcat(open, gap, s, t, t);
    PassesConcat(open + gap, body, s, t, t);
    PassesConcat(open + gap + body, close, s, t, u);
  }

  /** The opening brace and everything up to the closing one raise the depth by one. */
  lemma {:induction false} PassesInside(gap: seq<byte>, members: seq<Member>, depth: int)
    requires WellFormed(Object(gap, members)) && depth >= 0
    ensures Passes([OPEN] + gap + MembersText(members), At(depth), At(depth + 1))
    decreases members, 1
  {
    hide Passes, Spaces, Neutral, StringParts;
    SpacesNeutral(gap);
    PassesNeutral(gap, depth + 1);
    PassesMembers(members, depth + 1);
    PassesByte(OPEN, At(depth));
    PassesConcat([OPEN], gap, At(depth), At(depth + 1), At(depth + 1));
    PassesConcat([OPEN] + gap, MembersText(members), At(depth), At(depth + 1), At(depth + 1));
  }

  /** Two texts that leave the scanner alone, one after the other. */
  lemma Both(a: seq<byte>, b: seq<byte>, s: Scanner)
    requires Passes(a, s, s) && Passes(b, s, s)
    ensures Passes(a + b, s, s)
  {
    PassesConcat(a, b, s, s, s);
  }

  lemma PassesSpaces(a: seq<byte>, depth: int)
    requires Spaces(a)
    ensures Passes(a, At(depth), At(depth))
  {
    hide Passes;
    PassesNeutral(a, depth);
  }

  lemma PassesSeparator(n: nat, depth: int)
    ensures Passes(Separator(n), At(depth), At(depth))
    ensures Passes([0x3a], At(depth), At(depth))
  {
    hide Passes;
    PassesEmpty(At(depth));
    PassesByte(0x2c, At(depth));
    PassesByte(0x3a, At(depth));
  }

  /** Five texts in a row. */
  lemma Five(a: seq<byte>, b: seq<byte>, c: seq<byte>, d: seq<byte>, e: seq<byte>, s: Scanner)
    requires Passes(a, s, s) && Passes(b, s, s) && Passes(c, s, s) && Passes(d, s, s) && Passes(e, s, s)
    ensures Passes(a + b + c + d + e, s, s)
  {
    hide Passes;
    Both(a, b, s);
    Both(a + b, c, s);
    Both(a + b + c, d, s);
    Both(a + b + c + d, e, s);
  }

  function Separator(n: nat): seq<byte> {
    if n == 0 then [] else [0x2c]
  }

  lemma {:induction false} PassesItems(items: seq<Item>, depth: int)
    requires (forall i | 0 <= i < |items| :: WellFormedItem(items[i])) && depth >= 1
    ensures Passes(ItemsText(items), At(depth), At(depth))
    decreases items, 0
  {
    hide Passes, Spaces, WellFormed, Text;
    if items == [] {
      PassesEmpty(At(depth));
    } else {
      var n := |items| - 1;
      var it := items[n];
      PassesItems(items[..n], depth);
      PassesSeparator(n, depth);
      assert WellFormedItem(it);
      PassesSpaces(it.before, depth);
      PassesValue(it.value, depth);
      PassesSpaces(it.after, depth);
      Five(ItemsText(items[..n]), Separator(n), it.before, Text(it.value), it.after, At(depth));
    }
  }

  lemma {:induction false} PassesMembers(members: seq<Member>, depth: int)
    requires (forall i | 0 <= i < |members| :: WellFormedMember(members[i])) && depth >= 1
    ensures Passes(MembersText(members), At(depth), At(depth))
    decreases members, 0
  {
    hide Passes, Spaces, StringParts, Quoted, WellFormed, Text;
    if members == [] {
      PassesEmpty(At(depth));
    } else {
      var n := |members| - 1;
      var m := members[n];
      PassesMembers(members[..n], depth);
      PassesSeparator(n, depth);
      assert WellFormedMember(m);
      PassesSpaces(m.before, depth);
      PassesQuoted(m.key, depth);
      PassesSpaces(m.afterKey, depth);
      PassesSpaces(m.beforeValue, depth);
      PassesValue(m.value, depth);
      PassesSpaces(m.after, depth);
      var head := MembersText(members[..n]) + Separator(n) + m.before + Quoted(m.key) + m.afterKey;
      Five(MembersText(members[..n]), Separator(n), m.before, Quoted(m.key), m.afterKey, At(depth));
      Five(head, [0x3a], m.beforeValue, Text(m.value), m.after, At(depth));
    }
  }

  /** The scanner is exact: on the text of a JSON object followed by anything it returns the object's length. */
  lemma ScanIsExact(v: Json, rest: seq<byte>)
    requires WellFormed(v) && v.Object?
    ensures Scan(Text(v) + rest, At(0)) == Some(|Text(v)|)
  {
    var body := [OPEN] + v.gap + MembersText(v.members);
    PassesInside(v.gap, v.members, 0);
    hide MembersText, WellFormed;
    assert Text(v) + rest == body + ([CLOSE] + rest);
    assert Scan(body + ([CLOSE] + rest), At(0)) == Shift(|body|, Scan([CLOSE] + rest, At(1)));
    assert Closes(At(1), ([CLOSE] + rest)[0]);
  }
}
