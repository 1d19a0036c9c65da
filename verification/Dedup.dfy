/** Corpus deduplication: `_populated` and `dedup` of scripts/harvest_ledgers.py.

    A row is its content (the fields whose names do not start with an underscore) and its provenance.  The key and the
    content hash are functions of the content. */
module Dedup {
  import opened Sorting
  import opened Strings

  datatype Value =
    | Null | Text(text: string) | Number(number: real) | Flag(flag: bool)
    | Items(items: seq<Value>) | Fields(fields: map<string, Value>)

  type Content = map<string, Value>

  datatype Prov = Prov(box: string, path: string, mtime: real)

  datatype Row = Row(content: Content, prov: Prov)

  /** A kept row: its canonical provenance, the boxes it was seen on, and how often it was seen again. */
  datatype Entry = Entry(content: Content, prov: Prov, boxes: set<string>, alsoSeen: nat)

  /** A row of the output; losers of a key are marked. */
  datatype Listed = Listed(entry: Entry, collision: bool)

  datatype Scheme = Scheme(key: Content -> string, hash: Content -> string)

  type Table = map<string, map<string, Entry>>

  // ---------- the table ----------

  /** (box, path) of `p` is at most that of `q`. */
  predicate ProvLe(p: Prov, q: Prov) {
    if p.box == q.box then StringLe(p.path, q.path) else StringLe(p.box, q.box)
  }

  /** A row that is there already: the strictly smaller provenance wins. */
  function Merge(e: Entry, r: Row): Entry {
    Entry(e.content, if ProvLe(e.prov, r.prov) then e.prov else r.prov, e.boxes + {r.prov.box}, e.alsoSeen + 1)
  }

  function Bucket(t: Table, k: string): map<string, Entry> {
    if k in t then t[k] else map[]
  }

  function Add(s: Scheme, t: Table, r: Row): Table {
    var k, h := s.key(r.content), s.hash(r.content);
    var m := Bucket(t, k);
    t[k := m[h := if h in m then Merge(m[h], r) else Entry(r.content, r.prov, {r.prov.box}, 0)]]
  }

  function TableOf(s: Scheme, rows: seq<Row>): Table {
    if rows == [] then map[] else Add(s, TableOf(s, rows[..|rows| - 1]), rows[|rows| - 1])
  }

  // ---------- what the table says ----------

  /** The table has an entry for this content, under its key and hash. */
  ghost predicate Has(s: Scheme, t: Table, c: Content) {
    s.hash(c) in Bucket(t, s.key(c)) && t[s.key(c)][s.hash(c)].content == c
  }

  ghost function At(s: Scheme, t: Table, c: Content): Entry
    requires Has(s, t, c)
  {
    t[s.key(c)][s.hash(c)]
  }

  ghost predicate Seen(rows: seq<Row>, c: Content) {
    exists p :: Row(c, p) in rows
  }

  /** The hash tells apart the contents that these rows file under one key. */
  ghost predicate Distinguishes(s: Scheme, rows: seq<Row>) {
    forall c, d | Seen(rows, c) && Seen(rows, d) && s.key(c) == s.key(d) && s.hash(c) == s.hash(d) :: c == d
  }

  ghost predicate SeenOn(rows: seq<Row>, c: Content, box: string) {
    exists p :: Row(c, p) in rows && p.box == box
  }

  ghost function CountOf(rows: seq<Row>, c: Content): nat {
    Total((r: Row) => if r.content == c then 1 else 0, rows)
  }

  /** No row of this content has a smaller provenance. */
  ghost predicate Least(rows: seq<Row>, c: Content, p: Prov) {
    forall q :: Row(c, q) in rows ==> ProvLe(p, q)
  }

  /** The entry a content ends up with, whatever the order of the rows. */
  ghost predicate Summarises(rows: seq<Row>, c: Content, e: Entry) {
    && e.content == c
    && Row(c, e.prov) in rows && Least(rows, c, e.prov)
    && (forall b :: b in e.boxes <==> SeenOn(rows, c, b))
    && e.alsoSeen + 1 == CountOf(rows, c)
  }

  ghost predicate Filed(s: Scheme, t: Table, k: string, h: string)
    requires k in t && h in t[k]
  {
    s.key(t[k][h].content) == k && s.hash(t[k][h].content) == h
  }

  /** Every entry lies under the key and the hash of its content, and no bucket is empty. */
  ghost predicate AllFiled(s: Scheme, t: Table) {
    && (forall k, h | k in t && h in t[k] :: Filed(s, t, k, h))
    && (forall k | k in t :: t[k] != map[])
  }

  /** The table holds one entry for every content seen, under its own key and hash, and nothing else. */
  ghost predicate Describes(s: Scheme, t: Table, rows: seq<Row>) {
    && (forall c :: Has(s, t, c) <==> Seen(rows, c))
    && (forall c :: Has(s, t, c) ==> Summarises(rows, c, At(s, t, c)))
    && AllFiled(s, t)
  }

  lemma ProvLeTotal(p: Prov, q: Prov)
    ensures ProvLe(p, q) || ProvLe(q, p)
  {
    StringLeTotal(p.box, q.box);
    StringLeTotal(p.path, q.path);
  }

  lemma ProvLeTransitive(p: Prov, q: Prov, r: Prov)
    requires ProvLe(p, q) && ProvLe(q, r)
    ensures ProvLe(p, r)
  {
    StringOrder();
  }

  lemma ProvLeAntisymmetric(p: Prov, q: Prov)
    requires ProvLe(p, q) && ProvLe(q, p)
    ensures p.box == q.box && p.path == q.path
  {
    StringOrder();
  }

  /** The place of a row is free, or taken by its own content. */
  ghost predicate NoClash(s: Scheme, t: Table, r: Row) {
    s.hash(r.content) in Bucket(t, s.key(r.content)) ==> t[s.key(r.content)][s.hash(r.content)].content == r.content
  }

  lemma AddAt(s: Scheme, t: Table, r: Row, c: Content)
    requires NoClash(s, t, r)
    ensures Has(s, Add(s, t, r), c) <==> Has(s, t, c) || c == r.content
    ensures c != r.content && Has(s, t, c) ==> At(s, Add(s, t, r), c) == At(s, t, c)
    ensures c == r.content ==>
              At(s, Add(s, t, r), c) ==
                if Has(s, t, c) then Merge(At(s, t, c), r) else Entry(r.content, r.prov, {r.prov.box}, 0)
  {
  }

  lemma DescribedNoClash(s: Scheme, t: Table, rows: seq<Row>, r: Row)
    requires Describes(s, t, rows) && Distinguishes(s, rows + [r])
    ensures NoClash(s, t, r)
  {
    hide Summarises, Seen;
    var k, h := s.key(r.content), s.hash(r.content);
    if h in Bucket(t, k) {
      var d := t[k][h].content;
      assert Filed(s, t, k, h);
      assert Has(s, t, d);
      SeenMore(rows, r, d);
      SeenMore(rows, r, r.content);
    }
  }

  lemma DistinguishesBefore(s: Scheme, rows: seq<Row>, r: Row)
    requires Distinguishes(s, rows + [r])
    ensures Distinguishes(s, rows)
  {
    hide Seen;
    forall c, d | Seen(rows, c) && Seen(rows, d) && s.key(c) == s.key(d) && s.hash(c) == s.hash(d) ensures c == d {
      SeenMore(rows, r, c);
      SeenMore(rows, r, d);
    }
  }

  lemma InAppend(rows: seq<Row>, r: Row, x: Row)
    ensures x in rows + [r] <==> x in rows || x == r
  {
  }

  lemma SeenMore(rows: seq<Row>, r: Row, c: Content)
    ensures Seen(rows + [r], c) <==> Seen(rows, c) || c == r.content
  {
    if p :| Row(c, p) in rows {
      assert Row(c, p) in rows + [r];
    }
    assert Row(r.content, r.prov) in rows + [r];
  }

  lemma SeenOnMore(rows: seq<Row>, r: Row, c: Content, b: string)
    ensures SeenOn(rows + [r], c, b) <==> SeenOn(rows, c, b) || (c == r.content && b == r.prov.box)
  {
    if p :| Row(c, p) in rows && p.box == b {
      assert Row(c, p) in rows + [r];
    }
    assert Row(r.content, r.prov) in rows + [r];
  }

  lemma CountMore(rows: seq<Row>, r: Row, c: Content)
    ensures CountOf(rows + [r], c) == CountOf(rows, c) + (if r.content == c then 1 else 0)
  {
    TotalMore((r: Row) => if r.content == c then 1 else 0, rows, r);
  }

  lemma CountZero(rows: seq<Row>, c: Content)
    ensures CountOf(rows, c) == 0 <==> !Seen(rows, c)
  {
    hide Total;
    TotalZero((r: Row) => if r.content == c then 1 else 0, rows);
    if p :| Row(c, p) in rows {
      var i :| 0 <= i < |rows| && rows[i] == Row(c, p);
    }
    forall i | 0 <= i < |rows| && rows[i].content == c ensures Seen(rows, c) {
      assert Row(c, rows[i].prov) in rows;
    }
  }

  /** A row of another content changes nothing for this one. */
  lemma SummaryOther(rows: seq<Row>, r: Row, c: Content, e: Entry)
    requires Summarises(rows, c, e) && c != r.content
    ensures Summarises(rows + [r], c, e)
  {
    forall b ensures SeenOn(rows + [r], c, b) <==> SeenOn(rows, c, b) {
      SeenOnMore(rows, r, c, b);
    }
    CountMore(rows, r, c);
  }

  lemma SummaryMerged(rows: seq<Row>, r: Row, e: Entry)
    requires Summarises(rows, r.content, e)
    ensures Summarises(rows + [r], r.content, Merge(e, r))
  {
    hide ProvLe, CountOf, SeenOn;
    var c, e' := r.content, Merge(e, r);
    forall b ensures SeenOn(rows + [r], c, b) <==> SeenOn(rows, c, b) || b == r.prov.box {
      SeenOnMore(rows, r, c, b);
    }
    CountMore(rows, r, c);
    ProvLeTotal(e.prov, r.prov);
    forall q | Row(c, q) in rows + [r] ensures ProvLe(e'.prov, q) {
      InAppend(rows, r, Row(c, q));
      if Row(c, q) in rows {
        assert ProvLe(e.prov, q);
        if e'.prov != e.prov {
          ProvLeTransitive(e'.prov, e.prov, q);
        }
      } else {
        ProvLeTotal(q, q);
      }
    }
  }

  lemma SummaryFirst(rows: seq<Row>, r: Row)
    requires !Seen(rows, r.content)
    ensures Summarises(rows + [r], r.content, Entry(r.content, r.prov, {r.prov.box}, 0))
  {
    hide ProvLe;
    var c := r.content;
    CountMore(rows, r, c);
    CountZero(rows, c);
    forall b ensures SeenOn(rows + [r], c, b) <==> b == r.prov.box {
      SeenOnMore(rows, r, c, b);
    }
    forall q | Row(c, q) in rows + [r] ensures ProvLe(r.prov, q) {
      InAppend(rows, r, Row(c, q));
      ProvLeTotal(q, q);
    }
  }

  lemma AddFiles(s: Scheme, t: Table, r: Row)
    requires AllFiled(s, t)
    ensures AllFiled(s, Add(s, t, r))
  {
    var t' := Add(s, t, r);
    forall k, h | k in t' && h in t'[k] ensures Filed(s, t', k, h) {
      if k in t && h in t[k] {
        assert Filed(s, t, k, h);
      }
    }
  }

  /** One row keeps the description. */
  lemma AddDescribes(s: Scheme, t: Table, rows: seq<Row>, r: Row)
    requires Describes(s, t, rows) && Distinguishes(s, rows + [r])
    ensures Describes(s, Add(s, t, r), rows + [r])
  {
    hide Add, Has, Seen, Summarises, AllFiled, At, Merge, Distinguishes, NoClash;
    var t' := Add(s, t, r);
    DescribedNoClash(s, t, rows, r);
    AddFiles(s, t, r);
    forall c ensures Has(s, t', c) <==> Seen(rows + [r], c) {
      AddAt(s, t, r, c);
      SeenMore(rows, r, c);
    }
    forall c | Has(s, t', c) ensures Summarises(rows + [r], c, At(s, t', c)) {
      AddAt(s, t, r, c);
      if c != r.content {
        SummaryOther(rows, r, c, At(s, t, c));
      } else if Has(s, t, c) {
        SummaryMerged(rows, r, At(s, t, c));
      } else {
        SummaryFirst(rows, r);
      }
    }
  }

  /** The table after any number of rows. */
  lemma {:induction false} TableDescribes(s: Scheme, rows: seq<Row>)
    requires Distinguishes(s, rows)
    ensures Describes(s, TableOf(s, rows), rows)
  {
    hide Add, Describes, Distinguishes;
    if rows == [] {
      NothingFiled(s);
    } else {
      var n := |rows| - 1;
      assert rows == rows[..n] + [rows[n]];
      DistinguishesBefore(s, rows[..n], rows[n]);
      TableDescribes(s, rows[..n]);
      AddDescribes(s, TableOf(s, rows[..n]), rows[..n], rows[n]);
    }
  }

  lemma NothingFiled(s: Scheme)
    ensures Describes(s, map[], [])
  {
    hide Summarises;
    forall c ensures !Has(s, map[], c) && !Seen([], c) {
    }
  }

  lemma {:induction false} TableFiles(s: Scheme, rows: seq<Row>)
    ensures AllFiled(s, TableOf(s, rows))
  {
    if rows == [] {
      assert TableOf(s, rows) == map[];
    } else {
      TableFiles(s, rows[..|rows| - 1]);
      AddFiles(s, TableOf(s, rows[..|rows| - 1]), rows[|rows| - 1]);
    }
  }

  // ---------- the order of the rows ----------

  ghost predicate Rearranged(a: seq<Row>, b: seq<Row>) {
    multiset(a) == multiset(b)
  }

  /** Rows of one content that tie for the smallest (box, path) carry one modification time. */
  ghost predicate TiesAgree(rows: seq<Row>) {
    forall c, p, q | Row(c, p) in rows && Row(c, q) in rows && Least(rows, c, p) && Least(rows, c, q) :: p.mtime == q.mtime
  }

  lemma CountRearranged(a: seq<Row>, b: seq<Row>, c: Content)
    requires Rearranged(a, b)
    ensures CountOf(a, c) == CountOf(b, c)
  {
    TotalRearranged((r: Row) => if r.content == c then 1 else 0, a, b);
  }

  lemma RearrangedFacts(a: seq<Row>, b: seq<Row>, c: Content)
    requires Rearranged(a, b)
    ensures Seen(a, c) <==> Seen(b, c)
    ensures forall p :: Least(a, c, p) <==> Least(b, c, p)
    ensures forall x :: SeenOn(a, c, x) <==> SeenOn(b, c, x)
  {
    SameMembers(a, b);
  }

  /** Where ties agree, the rows determine the entry. */
  lemma SummaryUnique(a: seq<Row>, b: seq<Row>, c: Content, e: Entry, f: Entry)
    requires Rearranged(a, b) && TiesAgree(a) && Summarises(a, c, e) && Summarises(b, c, f)
    ensures e == f
  {
    hide CountOf, SeenOn;
    SameMembers(a, b);
    RearrangedFacts(a, b, c);
    CountRearranged(a, b, c);
    assert Row(c, f.prov) in a;
    assert ProvLe(e.prov, f.prov) && ProvLe(f.prov, e.prov);
    ProvLeAntisymmetric(e.prov, f.prov);
    assert e.boxes == f.boxes;
  }

  lemma SameEntry(s: Scheme, t: Table, u: Table, a: seq<Row>, b: seq<Row>, k: string, h: string)
    requires Describes(s, t, a) && Describes(s, u, b) && Rearranged(a, b) && TiesAgree(a)
    requires k in t && h in t[k]
    ensures k in u && h in u[k] && u[k][h] == t[k][h]
  {
    hide Summarises, Seen, TiesAgree, Rearranged;
    var c := t[k][h].content;
    assert Filed(s, t, k, h);
    assert Has(s, t, c);
    RearrangedFacts(a, b, c);
    assert Has(s, u, c);
    SummaryUnique(a, b, c, At(s, t, c), At(s, u, c));
  }

  lemma TiesRearranged(a: seq<Row>, b: seq<Row>)
    requires Rearranged(a, b) && TiesAgree(a)
    ensures TiesAgree(b)
  {
    SameMembers(a, b);
    forall c, p, q | Row(c, p) in b && Row(c, q) in b && Least(b, c, p) && Least(b, c, q) ensures p.mtime == q.mtime {
      RearrangedFacts(a, b, c);
      assert Row(c, p) in a && Row(c, q) in a;
    }
  }

  /** Where ties agree, the table does not depend on the order of the rows. */
  lemma TableOrderIndependent(s: Scheme, a: seq<Row>, b: seq<Row>)
    requires Distinguishes(s, a) && Rearranged(a, b) && TiesAgree(a)
    ensures TableOf(s, a) == TableOf(s, b)
  {
    hide Describes, TableOf, TiesAgree, Rearranged, Distinguishes;
    var t, u := TableOf(s, a), TableOf(s, b);
    DistinguishesRearranged(s, a, b);
    TableDescribes(s, a);
    TableDescribes(s, b);
    TiesRearranged(a, b);
    RearrangedBack(a, b);
    forall k | k in t ensures k in u && t[k] == u[k] {
      SameBucket(s, t, u, a, b, k);
    }
    forall k | k in u ensures k in t {
      SameBucket(s, u, t, b, a, k);
    }
    assert t.Keys == u.Keys;
  }

  lemma DistinguishesRearranged(s: Scheme, a: seq<Row>, b: seq<Row>)
    requires Rearranged(a, b) && Distinguishes(s, a)
    ensures Distinguishes(s, b)
  {
    hide Seen;
    forall c, d | Seen(b, c) && Seen(b, d) && s.key(c) == s.key(d) && s.hash(c) == s.hash(d) ensures c == d {
      RearrangedFacts(a, b, c);
      RearrangedFacts(a, b, d);
    }
  }

  lemma RearrangedBack(a: seq<Row>, b: seq<Row>)
    requires Rearranged(a, b)
    ensures Rearranged(b, a)
  {
  }

  lemma NotEmpty(s: Scheme, t: Table, rows: seq<Row>, k: string) returns (h: string)
    requires Describes(s, t, rows) && k in t
    ensures h in t[k]
  {
    assert t[k] != map[];
    h :| h in t[k];
  }

  lemma SameBucket(s: Scheme, t: Table, u: Table, a: seq<Row>, b: seq<Row>, k: string)
    requires Describes(s, t, a) && Describes(s, u, b) && Rearranged(a, b) && TiesAgree(a) && TiesAgree(b) && k in t
    ensures k in u && t[k] == u[k]
  {
    hide Describes, TiesAgree;
    var h0 := NotEmpty(s, t, a, k);
    SameEntry(s, t, u, a, b, k, h0);
    forall h | h in t[k] ensures h in u[k] && t[k][h] == u[k][h] {
      SameEntry(s, t, u, a, b, k, h);
    }
    forall h | h in u[k] ensures h in t[k] {
      SameEntry(s, u, t, b, a, k, h);
    }
    assert t[k].Keys == u[k].Keys;
  }

  // ---------- the output ----------

  predicate Blank(v: Value) {
    v == Null || v == Text("") || v == Items([]) || v == Fields(map[])
  }

  /** `_populated`: how many fields carry something. */
  function Populated(c: Content): nat {
    |set k | k in c && !Blank(c[k])|
  }

  /** The precedence of two hashes of a bucket: richer first, then newer, then by hash. */
  predicate Precedes(m: map<string, Entry>, g: string, h: string) {
    var (x, y) := (Richness(m, g), Richness(m, h));
    x.0 > y.0 || (x.0 == y.0 && (x.1 > y.1 || (x.1 == y.1 && StringLe(g, h))))
  }

  function Richness(m: map<string, Entry>, h: string): (nat, real) {
    if h in m then (Populated(m[h].content), m[h].prov.mtime) else (0, 0.0)
  }

  function Precedence(m: map<string, Entry>): (string, string) -> bool {
    (g, h) => Precedes(m, g, h)
  }

  lemma PrecedenceIsTotal(m: map<string, Entry>)
    ensures TotalOrder(Precedence(m))
  {
    hide Richness;
    var le := Precedence(m);
    forall g, h ensures le(g, h) || le(h, g) {
      StringLeTotal(g, h);
    }
    forall g, h | le(g, h) && le(h, g) ensures g == h {
      StringLeAntisymmetric(g, h);
    }
    forall g, h, k | le(g, h) && le(h, k) ensures le(g, k) {
      if StringLe(g, h) && StringLe(h, k) {
        StringLeTransitive(g, h, k);
      }
    }
  }

  /** The members of a set in some order. */
  ghost function Listing(s: set<string>): (l: seq<string>)
    ensures multiset(l) == multiset(s) && |l| == |s|
  {
    if s == {} then [] else
      var x :| x in s;
      var l := [x] + Listing(s - {x});
      assert multiset(s) == multiset{x} + multiset(s - {x});
      l
  }

  method ListMembers(s: set<string>) returns (l: seq<string>)
    ensures multiset(l) == multiset(s)
  {
    l := [];
    var rest := s;
    while rest != {}
      invariant rest <= s && multiset(l) + multiset(rest) == multiset(s)
    {
      var x :| x in rest;
      assert multiset(rest) == multiset{x} + multiset(rest - {x});
      l := l + [x];
      rest := rest - {x};
    }
  }

  /** A set in sorted order. */
  ghost function InOrder(le: (string, string) -> bool, s: set<string>): (l: seq<string>)
    ensures multiset(l) == multiset(s) && |l| == |s|
    ensures forall x :: x in l <==> x in s
  {
    var l := Sort(le, Listing(s));
    assert forall x :: x in l <==> x in multiset(l);
    l
  }

  method SortMembers(le: (string, string) -> bool, s: set<string>) returns (l: seq<string>)
    requires TotalOrder(le)
    ensures l == InOrder(le, s)
  {
    hide TotalOrder, Sort, Listing;
    l := ListMembers(s);
    SortOrderIndependent(le, l, Listing(s));
    l := Sort(le, l);
  }

  /** The rows of one key: the first as it is, the others marked. */
  ghost function Group(m: map<string, Entry>): (g: seq<Listed>)
    ensures |g| == |m|
  {
    var hs := InOrder(Precedence(m), m.Keys);
    seq(|hs|, i requires 0 <= i < |hs| => assert hs[i] in m.Keys; Listed(m[hs[i]], i > 0))
  }

  ghost function OutputFor(t: Table, keys: seq<string>): seq<Listed>
    requires forall i | 0 <= i < |keys| :: keys[i] in t
  {
    if keys == [] then [] else OutputFor(t, keys[..|keys| - 1]) + Group(t[keys[|keys| - 1]])
  }

  ghost function KeysOf(t: Table): (keys: seq<string>)
    ensures forall i | 0 <= i < |keys| :: keys[i] in t
  {
    var keys := InOrder(StringLe, t.Keys);
    assert forall i | 0 <= i < |keys| :: keys[i] in t.Keys;
    keys
  }

  ghost function Output(t: Table): seq<Listed> {
    OutputFor(t, KeysOf(t))
  }

  /** Rows that were there already. */
  function IdenticalOf(s: Scheme, rows: seq<Row>): nat {
    if rows == [] then 0
    else
      var n := |rows| - 1;
      var c := rows[n].content;
      IdenticalOf(s, rows[..n]) + (if s.hash(c) in Bucket(TableOf(s, rows[..n]), s.key(c)) then 1 else 0)
  }

  datatype Report = Report(out: seq<Listed>, identical: nat, collisions: int)

  ghost function Deduped(s: Scheme, rows: seq<Row>): Report {
    var t := TableOf(s, rows);
    Report(Output(t), IdenticalOf(s, rows), |Output(t)| - |t|)
  }

  /** The table-filling loop of `dedup`. */
  method Fill(s: Scheme, rows: seq<Row>) returns (byKey: Table, identical: nat)
    ensures byKey == TableOf(s, rows) && identical == IdenticalOf(s, rows)
  {
    byKey, identical := map[], 0;
    for i := 0 to |rows|
      invariant byKey == TableOf(s, rows[..i]) && identical == IdenticalOf(s, rows[..i])
    {
      var r := rows[i];
      assert rows[..i + 1][..i] == rows[..i];
      var k, h := s.key(r.content), s.hash(r.content);
      var bucket := if k in byKey then byKey[k] else map[];
      if h in bucket {
        identical := identical + 1;
        var e := bucket[h];
        e := e.(alsoSeen := e.alsoSeen + 1, boxes := e.boxes + {r.prov.box});
        if !ProvLe(e.prov, r.prov) {
          e := e.(prov := r.prov);
        }
        byKey := byKey[k := bucket[h := e]];
      } else {
        byKey := byKey[k := bucket[h := Entry(r.content, r.prov, {r.prov.box}, 0)]];
      }
    }
    assert rows[..|rows|] == rows;
  }

  /** Lists one bucket. */
  method ListBucket(m: map<string, Entry>, out: seq<Listed>, collisions: int) returns (out': seq<Listed>, collisions': int)
    requires m != map[]
    ensures out' == out + Group(m) && collisions' == collisions + |m| - 1
  {
    hide TotalOrder, Precedence, InOrder;
    PrecedenceIsTotal(m);
    var hs := SortMembers(Precedence(m), m.Keys);
    NonEmptyKeys(m);
    assert forall i | 0 <= i < |hs| :: hs[i] in m.Keys;
    out', collisions' := out + [Listed(m[hs[0]], false)], collisions;
    for i := 1 to |hs|
      invariant out' == out + Group(m)[..i] && collisions' == collisions + i - 1
    {
      assert Group(m)[..i + 1] == Group(m)[..i] + [Group(m)[i]];
      collisions' := collisions' + 1;
      out' := out' + [Listed(m[hs[i]], true)];
    }
    assert Group(m)[..|hs|] == Group(m);
  }

  lemma NonEmptyKeys(m: map<string, Entry>)
    requires m != map[]
    ensures |m.Keys| >= 1 && |m| == |m.Keys|
  {
    var h :| h in m;
    assert h in m.Keys;
  }

  /** `dedup`: the listed rows stand in order of key, richness, time and hash, and every row but the first of its key is
      marked. */
  method Dedup(s: Scheme, rows: seq<Row>) returns (r: Report)
    ensures r == Deduped(s, rows)
    ensures Arranged(s, r.out) && Marked(s, r.out)
  {
    OutputIsArranged(s, rows);
    hide Arranged, Marked, TableOf, IdenticalOf, Group, TotalOrder, StringLe, OutputFor, InOrder;
    var byKey, identical := Fill(s, rows);
    BucketsAreFull(s, rows);
    StringOrder();
    var keys := SortMembers(StringLe, byKey.Keys);
    assert keys == KeysOf(byKey);
    var out: seq<Listed>, collisions: int := [], 0;
    NothingListed(byKey, keys);
    for i := 0 to |keys|
      invariant out == OutputFor(byKey, keys[..i]) && collisions == |out| - i
    {
      OutputForMore(byKey, keys, i);
      out, collisions := ListBucket(byKey[keys[i]], out, collisions);
    }
    assert keys[..|keys|] == keys;
    r := Report(out, identical, collisions);
  }

  lemma BucketsAreFull(s: Scheme, rows: seq<Row>)
    ensures forall k | k in TableOf(s, rows) :: TableOf(s, rows)[k] != map[]
  {
    TableFiles(s, rows);
  }

  lemma OutputForMore(t: Table, keys: seq<string>, i: nat)
    requires (forall j | 0 <= j < |keys| :: keys[j] in t) && i < |keys|
    ensures OutputFor(t, keys[..i + 1]) == OutputFor(t, keys[..i]) + Group(t[keys[i]])
  {
    hide Group;
    assert keys[..i + 1][..i] == keys[..i];
  }

  lemma NothingListed(t: Table, keys: seq<string>)
    ensures OutputFor(t, keys[..0]) == [] && keys[..|keys|] == keys
  {
  }

  // ---------- conservation ----------

  ghost function Pairs(t: Table): set<(string, string)> {
    set k, h | k in t && h in t[k] :: (k, h)
  }

  lemma AddPairs(s: Scheme, t: Table, r: Row)
    ensures var p := (s.key(r.content), s.hash(r.content));
            && Pairs(Add(s, t, r)) == Pairs(t) + {p}
            && (p in Pairs(t) <==> p.1 in Bucket(t, p.0))
  {
    hide Merge;
    var p, t' := (s.key(r.content), s.hash(r.content)), Add(s, t, r);
    forall x: (string, string) ensures x in Pairs(t') <==> x in Pairs(t) + {p} {
    }
  }

  lemma {:induction false} PairsAndIdentical(s: Scheme, rows: seq<Row>)
    ensures |Pairs(TableOf(s, rows))| + IdenticalOf(s, rows) == |rows|
  {
    if rows == [] {
      assert Pairs(map[]) == {};
    } else {
      hide Pairs, Add;
      var n := |rows| - 1;
      PairsAndIdentical(s, rows[..n]);
      AddPairs(s, TableOf(s, rows[..n]), rows[n]);
    }
  }

  ghost function PairsUnder(k: string, hs: set<string>): set<(string, string)> {
    set h | h in hs :: (k, h)
  }

  lemma {:induction false} PairsUnderSize(k: string, hs: set<string>)
    ensures |PairsUnder(k, hs)| == |hs|
  {
    if hs == {} {
      assert PairsUnder(k, hs) == {};
    } else {
      var h :| h in hs;
      PairsUnderSize(k, hs - {h});
      assert PairsUnder(k, hs) == PairsUnder(k, hs - {h}) + {(k, h)};
    }
  }

  ghost function PairsFor(t: Table, keys: set<string>): set<(string, string)> {
    set k, h | k in t && h in t[k] && k in keys :: (k, h)
  }

  lemma PairsForMore(t: Table, keys: set<string>, k: string)
    requires k in t && k !in keys
    ensures |PairsFor(t, keys + {k})| == |PairsFor(t, keys)| + |t[k]|
  {
    assert PairsFor(t, keys + {k}) == PairsFor(t, keys) + PairsUnder(k, t[k].Keys);
    assert PairsFor(t, keys) !! PairsUnder(k, t[k].Keys);
    PairsUnderSize(k, t[k].Keys);
    assert |t[k].Keys| == |t[k]|;
  }

  lemma OutputSizeMore(t: Table, keys: seq<string>)
    requires keys != [] && forall i | 0 <= i < |keys| :: keys[i] in t
    ensures |OutputFor(t, keys)| == |OutputFor(t, keys[..|keys| - 1])| + |t[keys[|keys| - 1]]|
  {
    hide Group;
  }

  ghost function Members(keys: seq<string>): set<string> {
    set k | k in keys
  }

  lemma MembersMore(keys: seq<string>)
    requires keys != []
    ensures Members(keys) == Members(keys[..|keys| - 1]) + {keys[|keys| - 1]}
    ensures NoRepeats(keys) ==> keys[|keys| - 1] !in Members(keys[..|keys| - 1]) && NoRepeats(keys[..|keys| - 1])
  {
  }

  lemma {:induction false} OutputSize(t: Table, keys: seq<string>)
    requires (forall i | 0 <= i < |keys| :: keys[i] in t) && NoRepeats(keys)
    ensures |OutputFor(t, keys)| == |PairsFor(t, Members(keys))|
  {
    if keys == [] {
      assert PairsFor(t, Members(keys)) == {};
    } else {
      hide PairsFor, OutputFor, Members, NoRepeats;
      var n := |keys| - 1;
      MembersMore(keys);
      OutputSize(t, keys[..n]);
      OutputSizeMore(t, keys);
      PairsForMore(t, Members(keys[..n]), keys[n]);
    }
  }

  lemma SetOnce(s: set<string>, x: string)
    ensures multiset(s)[x] <= 1
  {
  }

  lemma SetListing(s: set<string>, l: seq<string>)
    requires multiset(l) == multiset(s)
    ensures NoRepeats(l) && Members(l) == s
  {
    assert forall x :: x in l <==> x in multiset(l);
    forall i, j | 0 <= i < j < |l| ensures l[i] != l[j] {
      SetOnce(s, l[i]);
      if l[i] == l[j] {
        TwiceInMultiset(l, i, j);
        assert false;
      }
    }
  }

  /** The distinct keys of the rows. */
  ghost function DistinctKeys(s: Scheme, rows: seq<Row>): set<string> {
    set i | 0 <= i < |rows| :: s.key(rows[i].content)
  }

  /** The table has one bucket for every distinct key of the rows. */
  lemma {:induction false} TableKeys(s: Scheme, rows: seq<Row>)
    ensures TableOf(s, rows).Keys == DistinctKeys(s, rows)
  {
    if rows == [] {
      assert DistinctKeys(s, rows) == {};
    } else {
      var n := |rows| - 1;
      TableKeys(s, rows[..n]);
      DistinctKeysMore(s, rows);
      hide DistinctKeys, Merge;
      assert TableOf(s, rows).Keys == TableOf(s, rows[..n]).Keys + {s.key(rows[n].content)};
    }
  }

  lemma DistinctKeysMore(s: Scheme, rows: seq<Row>)
    requires rows != []
    ensures DistinctKeys(s, rows) == DistinctKeys(s, rows[..|rows| - 1]) + {s.key(rows[|rows| - 1].content)}
  {
    var n := |rows| - 1;
    forall k ensures k in DistinctKeys(s, rows) <==> k in DistinctKeys(s, rows[..n]) + {s.key(rows[n].content)} {
      if i :| 0 <= i < n && s.key(rows[..n][i].content) == k {
        assert s.key(rows[i].content) == k;
      }
      if i :| 0 <= i < |rows| && s.key(rows[i].content) == k {
        assert i < n ==> s.key(rows[..n][i].content) == k;
      }
    }
  }

  /** Every input row is listed or counted as identical; collisions are the listed rows beyond one for each distinct
      key. */
  lemma Conservation(s: Scheme, rows: seq<Row>)
    ensures var r := Deduped(s, rows);
            && |r.out| + r.identical == |rows|
            && r.collisions == |r.out| - |DistinctKeys(s, rows)|
            && r.collisions >= 0
  {
    hide TableOf, IdenticalOf, InOrder, DistinctKeys, OutputFor;
    var t := TableOf(s, rows);
    TableKeys(s, rows);
    assert |t| == |t.Keys|;
    PairsAndIdentical(s, rows);
    SetListing(t.Keys, KeysOf(t));
    OutputSize(t, KeysOf(t));
    assert PairsFor(t, t.Keys) == Pairs(t);
    BucketsAreFull(s, rows);
    AtLeastKeys(t, KeysOf(t));
  }

  lemma {:induction false} AtLeastKeys(t: Table, keys: seq<string>)
    requires forall i | 0 <= i < |keys| :: keys[i] in t && t[keys[i]] != map[]
    ensures |OutputFor(t, keys)| >= |keys|
  {
    hide OutputFor;
    if keys == [] {
      assert |keys| == 0;
    } else {
      var n := |keys| - 1;
      AtLeastKeys(t, keys[..n]);
      OutputSizeMore(t, keys);
      NonEmptyKeys(t[keys[n]]);
    }
  }

  // ---------- precedence ----------

  /** The rows of one key: every entry of the bucket once, the first unmarked and of the highest precedence, the others
      marked as collisions. */
  lemma GroupFacts(m: map<string, Entry>)
    ensures var hs := InOrder(Precedence(m), m.Keys);
            && NoRepeats(hs) && Members(hs) == m.Keys && |Group(m)| == |hs|
            && (forall i | 0 <= i < |hs| :: Group(m)[i] == Listed(m[hs[i]], i > 0))
            && (forall i, j | 0 <= i < j < |hs| :: Precedes(m, hs[i], hs[j]))
  {
    hide Precedes, TotalOrder, Sort, Members;
    var hs := InOrder(Precedence(m), m.Keys);
    SetListing(m.Keys, hs);
    PrecedenceIsTotal(m);
    TotalIsPreorder(Precedence(m));
    SortSorts(Precedence(m), Listing(m.Keys));
    forall i, j | 0 <= i < j < |hs| ensures Precedes(m, hs[i], hs[j]) {
      assert Precedence(m)(hs[i], hs[j]);
    }
  }

  lemma TotalIsPreorder(le: (string, string) -> bool)
    requires TotalOrder(le)
    ensures TotalPreorder(le)
  {
  }

  // ---------- the output as a whole ----------

  /** The order of the output: by key; in a key the row with more filled fields first, then the newer, then by hash. */
  ghost predicate RowBefore(s: Scheme, x: Entry, y: Entry) {
    var (kx, ky) := (s.key(x.content), s.key(y.content));
    var (px, py) := (Populated(x.content), Populated(y.content));
    if kx != ky then StringLe(kx, ky)
    else
      || px > py
      || (px == py && x.prov.mtime > y.prov.mtime)
      || (px == py && x.prov.mtime == y.prov.mtime && StringLe(s.hash(x.content), s.hash(y.content)))
  }

  ghost predicate Arranged(s: Scheme, out: seq<Listed>) {
    forall i, j | 0 <= i < j < |out| :: RowBefore(s, out[i].entry, out[j].entry)
  }

  ghost predicate SameKey(s: Scheme, x: Listed, y: Listed) {
    s.key(x.entry.content) == s.key(y.entry.content)
  }

  /** Every row but the first of its key is marked. */
  ghost predicate Marked(s: Scheme, out: seq<Listed>) {
    forall i: nat | i < |out| :: MarkedAt(s, out, i)
  }

  ghost predicate MarkedAt(s: Scheme, out: seq<Listed>, i: nat)
    requires i < |out|
  {
    out[i].collision <==> i > 0 && SameKey(s, out[i - 1], out[i])
  }

  /** All rows of `out` have a key of the list. */
  ghost predicate KeysAmong(s: Scheme, out: seq<Listed>, keys: seq<string>) {
    forall i | 0 <= i < |out| :: s.key(out[i].entry.content) in keys
  }

  lemma GroupIsArranged(s: Scheme, t: Table, k: string)
    requires AllFiled(s, t) && k in t
    ensures Arranged(s, Group(t[k])) && Marked(s, Group(t[k]))
    ensures forall i | 0 <= i < |Group(t[k])| :: s.key(Group(t[k])[i].entry.content) == k
  {
    hide Group, InOrder, Populated, StringLe;
    var m := t[k];
    GroupFacts(m);
    var hs := InOrder(Precedence(m), m.Keys);
    forall i | 0 <= i < |hs| ensures hs[i] in m && s.key(m[hs[i]].content) == k && s.hash(m[hs[i]].content) == hs[i] {
      assert hs[i] in Members(hs);
      assert Filed(s, t, k, hs[i]);
    }
    forall i, j | 0 <= i < j < |hs| ensures RowBefore(s, Group(m)[i].entry, Group(m)[j].entry) {
      assert Precedes(m, hs[i], hs[j]);
    }
    forall i: nat | i < |hs| ensures MarkedAt(s, Group(m), i) {
    }
  }

  lemma ArrangedTogether(s: Scheme, a: seq<Listed>, b: seq<Listed>)
    requires Arranged(s, a) && Arranged(s, b)
    requires forall i, j | 0 <= i < |a| && 0 <= j < |b| :: RowBefore(s, a[i].entry, b[j].entry)
    ensures Arranged(s, a + b)
  {
    hide RowBefore;
    var out := a + b;
    forall i, j | 0 <= i < j < |out| ensures RowBefore(s, out[i].entry, out[j].entry) {
      if j < |a| {
        assert out[i] == a[i] && out[j] == a[j];
      } else if i < |a| {
        assert out[i] == a[i] && out[j] == b[j - |a|];
      } else {
        assert out[i] == b[i - |a|] && out[j] == b[j - |a|];
      }
    }
  }

  lemma MarkedTogether(s: Scheme, a: seq<Listed>, b: seq<Listed>)
    requires Marked(s, a) && Marked(s, b)
    requires a != [] && b != [] ==> !SameKey(s, a[|a| - 1], b[0])
    ensures Marked(s, a + b)
  {
    var out := a + b;
    forall i: nat | i < |out| ensures MarkedAt(s, out, i) {
      if i < |a| {
        assert MarkedAt(s, a, i);
      } else {
        assert MarkedAt(s, b, i - |a|);
      }
    }
  }

  lemma {:induction false} GroupsAreArranged(s: Scheme, t: Table, keys: seq<string>)
    requires AllFiled(s, t) && (forall i | 0 <= i < |keys| :: keys[i] in t) && NoRepeats(keys) && Sorted(StringLe, keys)
    ensures var out := OutputFor(t, keys); Arranged(s, out) && Marked(s, out) && KeysAmong(s, out, keys)
  {
    hide Group, AllFiled, Arranged, Marked, StringLe;
    if keys == [] {
      NothingArranged(s);
    } else {
      var n := |keys| - 1;
      var k := keys[n];
      var before, group := OutputFor(t, keys[..n]), Group(t[k]);
      GroupsAreArranged(s, t, keys[..n]);
      GroupIsArranged(s, t, k);
      forall i | 0 <= i < |before| ensures var key := s.key(before[i].entry.content); key != k && key in keys && StringLe(key, k) {
        var key := s.key(before[i].entry.content);
        var j :| 0 <= j < n && keys[..n][j] == key;
        assert keys[j] == key;
      }
      ArrangedTogether(s, before, group);
      MarkedTogether(s, before, group);
    }
  }

  lemma NothingArranged(s: Scheme)
    ensures Arranged(s, []) && Marked(s, [])
  {
  }

  /** The keys of a table are listed once each, in order. */
  lemma KeysAreSorted(t: Table)
    ensures NoRepeats(KeysOf(t)) && Members(KeysOf(t)) == t.Keys && Sorted(StringLe, KeysOf(t))
  {
    hide StringLe, TotalOrder, Sort, Members, NoRepeats;
    SetListing(t.Keys, KeysOf(t));
    StringOrder();
    TotalIsPreorder(StringLe);
    SortSorts(StringLe, Listing(t.Keys));
  }

  /** The whole output is arranged and marked. */
  lemma OutputIsArranged(s: Scheme, rows: seq<Row>)
    ensures Arranged(s, Deduped(s, rows).out) && Marked(s, Deduped(s, rows).out)
  {
    hide TableOf, OutputFor, KeysOf, AllFiled, NoRepeats, Sorted, Arranged, Marked;
    var t := TableOf(s, rows);
    TableFiles(s, rows);
    KeysAreSorted(t);
    GroupsAreArranged(s, t, KeysOf(t));
  }

  // ---------- what counts as filled ----------

  /** No fields count nothing; a null, an empty text, an empty list and an empty dictionary count nothing; any other field
      counts one, whether it is new or fills an empty one. */
  lemma PopulatedLaws(c: Content, k: string, v: Value)
    ensures Populated(map[]) == 0
    ensures k !in c && (v == Null || v == Text("") || v == Items([]) || v == Fields(map[])) ==> Populated(c[k := v]) == Populated(c)
    ensures k !in c && v != Null && v != Text("") && v != Items([]) && v != Fields(map[]) ==> Populated(c[k := v]) == Populated(c) + 1
    ensures k in c && (c[k] == Null || c[k] == Text("") || c[k] == Items([]) || c[k] == Fields(map[])) ==>
              (v != Null && v != Text("") && v != Items([]) && v != Fields(map[]) ==> Populated(c[k := v]) == Populated(c) + 1)
  {
    hide Populated;
    NothingFilled();
    if k !in c || Blank(c[k]) {
      FieldFilled(c, k, v);
    }
  }

  lemma NothingFilled()
    ensures Populated(map[]) == 0
  {
    var none: Content := map[];
    assert (set j | j in none && !Blank(none[j])) == {};
  }

  lemma FieldFilled(c: Content, k: string, v: Value)
    requires k !in c || Blank(c[k])
    ensures Populated(c[k := v]) == Populated(c) + if Blank(v) then 0 else 1
  {
    hide Blank;
    var d := c[k := v];
    var before := set j | j in c && !Blank(c[j]);
    var after := set j | j in d && !Blank(d[j]);
    assert k !in before;
    assert after == if Blank(v) then before else before + {k};
  }

  /** `fuller` has a field filled that `c` leaves empty or lacks, and agrees with it elsewhere. */
  ghost predicate Fills(c: Content, fuller: Content) {
    exists k, v :: FillsField(c, fuller, k, v)
  }

  ghost predicate FillsField(c: Content, fuller: Content, k: string, v: Value) {
    && fuller == c[k := v]
    && v != Null && v != Text("") && v != Items([]) && v != Fields(map[])
    && (k in c ==> c[k] == Null || c[k] == Text("") || c[k] == Items([]) || c[k] == Fields(map[]))
  }

  lemma FillsMore(c: Content, fuller: Content)
    requires Fills(c, fuller)
    ensures Populated(fuller) == Populated(c) + 1
  {
    hide Populated;
    var k, v :| FillsField(c, fuller, k, v);
    PopulatedLaws(c, k, v);
  }

  /** Of two listed rows of a key where one fills a field the other leaves empty, the emptier comes later and is marked. */
  lemma EmptierIsMarked(s: Scheme, rows: seq<Row>, i: nat, j: nat)
    requires var out := Deduped(s, rows).out;
             && i < |out| && j < |out| && SameKey(s, out[i], out[j])
             && Fills(out[i].entry.content, out[j].entry.content)
    ensures j < i && Deduped(s, rows).out[i].collision
  {
    hide Deduped, Populated, Fills, StringLe;
    var out := Deduped(s, rows).out;
    OutputIsArranged(s, rows);
    FillsMore(out[i].entry.content, out[j].entry.content);
    assert i < j ==> RowBefore(s, out[i].entry, out[j].entry);
    assert j < i;
    if i - 1 > j {
      assert RowBefore(s, out[j].entry, out[i - 1].entry);
    }
    assert RowBefore(s, out[i - 1].entry, out[i].entry);
    assert MarkedAt(s, out, i);
    KeysBetween(s.key(out[j].entry.content), s.key(out[i - 1].entry.content));
  }

  lemma KeysBetween(a: string, b: string)
    ensures StringLe(a, b) && StringLe(b, a) ==> a == b
  {
    if StringLe(a, b) && StringLe(b, a) {
      StringLeAntisymmetric(a, b);
    }
  }

  /** Every content seen is listed, where the hash tells the contents apart. */
  lemma SeenIsListed(s: Scheme, rows: seq<Row>, c: Content) returns (i: nat)
    requires Distinguishes(s, rows) && Seen(rows, c)
    ensures i < |Deduped(s, rows).out| && Deduped(s, rows).out[i].entry.content == c
    ensures Summarises(rows, c, Deduped(s, rows).out[i].entry)
  {
    hide TableOf, Output, IdenticalOf, Distinguishes, Seen, Summarises, AllFiled;
    var t := TableOf(s, rows);
    TableDescribes(s, rows);
    assert Has(s, t, c);
    var collision := EntryListed(t, s.key(c), s.hash(c));
    var x := Listed(At(s, t, c), collision);
    i :| 0 <= i < |Output(t)| && Output(t)[i] == x;
    SummaryContent(rows, c, x.entry);
  }

  lemma SummaryContent(rows: seq<Row>, c: Content, e: Entry)
    requires Summarises(rows, c, e)
    ensures e.content == c
  {
  }

  /** The kept provenance: the smallest box the content was seen on, and the smallest path on that box. */
  lemma KeptProvenance(rows: seq<Row>, c: Content, e: Entry, r: Row)
    requires Summarises(rows, c, e) && r in rows && r.content == c
    ensures Row(c, e.prov) in rows
    ensures StringLe(e.prov.box, r.prov.box)
    ensures r.prov.box == e.prov.box ==> StringLe(e.prov.path, r.prov.path)
  {
    hide CountOf, SeenOn, StringLe;
    assert Row(c, r.prov) in rows;
    assert ProvLe(e.prov, r.prov);
    StringLeTotal(e.prov.box, e.prov.box);
  }

  /** Each key's rows stand together, keys in order. */
  lemma {:induction false} GroupsInOrder(t: Table, keys: seq<string>, i: nat)
    requires (forall j | 0 <= j < |keys| :: keys[j] in t) && i < |keys|
    ensures OutputFor(t, keys[..i]) + Group(t[keys[i]]) <= OutputFor(t, keys)
  {
    hide Group;
    var n := |keys| - 1;
    if i == n {
      assert keys[..i] == keys[..n];
    } else {
      assert keys[..n][..i] == keys[..i];
      GroupsInOrder(t, keys[..n], i);
    }
  }

  /** Richer, or as rich and at least as new. */
  ghost predicate AtLeastAsGood(x: Entry, y: Entry) {
    || Populated(x.content) > Populated(y.content)
    || (Populated(x.content) == Populated(y.content) && x.prov.mtime >= y.prov.mtime)
  }

  lemma BestFirst(m: map<string, Entry>)
    requires m != map[]
    ensures |Group(m)| > 0 && !Group(m)[0].collision
    ensures forall j | 0 < j < |Group(m)| :: Group(m)[j].collision
    ensures forall h | h in m :: AtLeastAsGood(Group(m)[0].entry, m[h])
  {
    hide Group, InOrder, Populated, StringLe;
    NonEmptyKeys(m);
    GroupFacts(m);
    var hs := InOrder(Precedence(m), m.Keys);
    forall h | h in m ensures AtLeastAsGood(Group(m)[0].entry, m[h]) {
      assert h in Members(hs);
      var j :| 0 <= j < |hs| && hs[j] == h;
      assert hs[0] in Members(hs);
      if j > 0 {
        assert Precedes(m, hs[0], hs[j]);
      }
    }
  }

  /** In the output the rows of the `i`-th key start with its best row, unmarked; the others follow, marked. */
  lemma FirstOfKeyIsBest(s: Scheme, rows: seq<Row>, i: nat)
    requires i < |KeysOf(TableOf(s, rows))|
    ensures var t := TableOf(s, rows);
            var keys := KeysOf(t);
            var m := t[keys[i]];
            var at := |OutputFor(t, keys[..i])|;
            var out := Deduped(s, rows).out;
            && |m| > 0 && at + |m| <= |out|
            && !out[at].collision
            && (forall j | at < j < at + |m| :: out[j].collision)
            && (forall h | h in m :: AtLeastAsGood(out[at].entry, m[h]))
  {
    hide TableOf, Group, OutputFor, AtLeastAsGood, KeysOf, IdenticalOf;
    var t := TableOf(s, rows);
    var keys := KeysOf(t);
    var m := t[keys[i]];
    BucketsAreFull(s, rows);
    BestFirst(m);
    GroupsInOrder(t, keys, i);
    var before, out := OutputFor(t, keys[..i]), Output(t);
    forall j | |before| <= j < |before| + |m| ensures out[j] == Group(m)[j - |before|] {
      assert (before + Group(m))[j] == Group(m)[j - |before|];
    }
    assert out[|before|] == Group(m)[0];
  }

  /** The listed rows are exactly the entries of the table. */
  lemma {:induction false} OutputEntries(t: Table, keys: seq<string>, x: Listed)
    requires (forall j | 0 <= j < |keys| :: keys[j] in t) && x in OutputFor(t, keys)
    ensures exists k, h :: k in t && h in t[k] && t[k][h] == x.entry
  {
    hide Group;
    var n := |keys| - 1;
    var k := keys[n];
    if x in OutputFor(t, keys[..n]) {
      OutputEntries(t, keys[..n], x);
    } else {
      GroupFacts(t[k]);
      var hs := InOrder(Precedence(t[k]), t[k].Keys);
      var i :| 0 <= i < |hs| && Group(t[k])[i] == x;
      assert hs[i] in t[k] && t[k][hs[i]] == x.entry;
    }
  }

  lemma EntryListed(t: Table, k: string, h: string) returns (collision: bool)
    requires k in t && h in t[k]
    ensures Listed(t[k][h], collision) in Output(t)
  {
    hide Group, InOrder, OutputFor;
    var keys := KeysOf(t);
    assert k in keys;
    var i :| 0 <= i < |keys| && keys[i] == k;
    GroupsInOrder(t, keys, i);
    GroupFacts(t[k]);
    var hs := InOrder(Precedence(t[k]), t[k].Keys);
    assert h in Members(hs);
    var j :| 0 <= j < |hs| && hs[j] == h;
    collision := j > 0;
    InGroup(OutputFor(t, keys[..i]), Group(t[k]), Output(t), j);
  }

  lemma InGroup(before: seq<Listed>, group: seq<Listed>, all: seq<Listed>, j: nat)
    requires before + group <= all && j < |group|
    ensures group[j] in all
  {
    assert all[|before| + j] == (before + group)[|before| + j] == group[j];
  }

  // ---------- when the order of the rows matters ----------

  /** Provenance that identifies the file: one modification time for each (box, path). */
  ghost predicate OneMtime(rows: seq<Row>) {
    forall r, q | r in rows && q in rows && r.prov.box == q.prov.box && r.prov.path == q.prov.path :: r.prov.mtime == q.prov.mtime
  }

  lemma OneMtimeTiesAgree(rows: seq<Row>)
    requires OneMtime(rows)
    ensures TiesAgree(rows)
  {
    forall c, p, q | Row(c, p) in rows && Row(c, q) in rows && Least(rows, c, p) && Least(rows, c, q) ensures p.mtime == q.mtime {
      ProvLeAntisymmetric(p, q);
      assert Row(c, p).prov.box == Row(c, q).prov.box;
    }
  }

  /** A first row that nothing beats keeps its provenance. */
  lemma {:induction false} FirstStays(s: Scheme, rows: seq<Row>)
    requires Distinguishes(s, rows) && rows != [] && Least(rows, rows[0].content, rows[0].prov)
    ensures var c := rows[0].content; Has(s, TableOf(s, rows), c) && At(s, TableOf(s, rows), c).prov == rows[0].prov
  {
    hide ProvLe, Add, Distinguishes, NoClash, Describes;
    var n := |rows| - 1;
    var c := rows[0].content;
    assert rows == rows[..n] + [rows[n]];
    DistinguishesBefore(s, rows[..n], rows[n]);
    TableDescribes(s, rows[..n]);
    DescribedNoClash(s, TableOf(s, rows[..n]), rows[..n], rows[n]);
    AddAt(s, TableOf(s, rows[..n]), rows[n], c);
    if n == 0 {
      assert rows[..0] == [];
      assert !Has(s, map[], c);
    } else {
      forall q | Row(c, q) in rows[..n] ensures Row(c, q) in rows {
      }
      FirstStays(s, rows[..n]);
      if rows[n].content == c {
        assert Row(c, rows[n].prov) in rows;
      }
    }
  }

  lemma MoveToFront(rows: seq<Row>, r: Row) returns (moved: seq<Row>)
    requires r in rows
    ensures moved != [] && moved[0] == r && Rearranged(rows, moved)
  {
    var i :| 0 <= i < |rows| && rows[i] == r;
    moved := [r] + (rows[..i] + rows[i + 1..]);
    assert rows == rows[..i] + [r] + rows[i + 1..];
  }

  /** A content has one listed row, the table's. */
  lemma ListedOnce(s: Scheme, rows: seq<Row>, c: Content, x: Listed)
    requires x in Output(TableOf(s, rows)) && x.entry.content == c
    ensures s.hash(c) in Bucket(TableOf(s, rows), s.key(c)) && x.entry == TableOf(s, rows)[s.key(c)][s.hash(c)]
  {
    hide TableOf, OutputFor;
    var t := TableOf(s, rows);
    TableFiles(s, rows);
    OutputEntries(t, KeysOf(t), x);
    var k, h :| k in t && h in t[k] && t[k][h] == x.entry;
    assert Filed(s, t, k, h);
  }

  /** The content filed first at a place stays there, whatever comes later. */
  lemma {:induction false} FirstContentStays(s: Scheme, rows: seq<Row>)
    requires rows != []
    ensures var c := rows[0].content; Has(s, TableOf(s, rows), c)
  {
    var n := |rows| - 1;
    if n == 0 {
      assert rows[..0] == [];
    } else {
      FirstContentStays(s, rows[..n]);
    }
  }

  /** What stands in one output but not in the other tells them apart. */
  lemma DifferentEntries(s: Scheme, a: seq<Row>, b: seq<Row>, c: Content)
    requires Has(s, TableOf(s, a), c)
    requires Has(s, TableOf(s, b), c) ==> At(s, TableOf(s, a), c) != At(s, TableOf(s, b), c)
    ensures Deduped(s, a) != Deduped(s, b)
  {
    hide TableOf, Output, IdenticalOf;
    var t := TableOf(s, a);
    var collision := EntryListed(t, s.key(c), s.hash(c));
    var x := Listed(At(s, t, c), collision);
    if x in Output(TableOf(s, b)) {
      ListedOnce(s, b, c, x);
    }
  }

  /** Two orders that start with different rows of one content, each unbeaten, give different output. */
  lemma DifferentOutput(s: Scheme, a: seq<Row>, b: seq<Row>)
    requires Distinguishes(s, a) && Distinguishes(s, b)
    requires a != [] && b != [] && a[0].content == b[0].content && a[0].prov != b[0].prov
    requires Least(a, a[0].content, a[0].prov) && Least(b, b[0].content, b[0].prov)
    ensures Deduped(s, a) != Deduped(s, b)
  {
    hide TableOf, Deduped, Distinguishes, Least, Has;
    FirstStays(s, a);
    FirstStays(s, b);
    DifferentEntries(s, a, b, a[0].content);
  }

  /** Two orders that start with contents the hash confuses give different output: the first one stays. */
  lemma ConfusedOutput(s: Scheme, a: seq<Row>, b: seq<Row>)
    requires a != [] && b != [] && a[0].content != b[0].content
    requires s.key(a[0].content) == s.key(b[0].content) && s.hash(a[0].content) == s.hash(b[0].content)
    ensures Deduped(s, a) != Deduped(s, b)
  {
    hide TableOf, Deduped;
    FirstContentStays(s, a);
    FirstContentStays(s, b);
    DifferentEntries(s, a, b, a[0].content);
  }

  ghost predicate OrderIrrelevant(s: Scheme, rows: seq<Row>) {
    forall a, b :: Rearranged(rows, a) && Rearranged(rows, b) ==> Deduped(s, a) == Deduped(s, b)
  }

  lemma SameReport(s: Scheme, rows: seq<Row>, a: seq<Row>)
    requires Distinguishes(s, rows) && Rearranged(rows, a) && TiesAgree(rows)
    ensures Deduped(s, rows) == Deduped(s, a)
  {
    hide TableOf, Output, IdenticalOf, TiesAgree, Distinguishes, DistinctKeys;
    TableOrderIndependent(s, rows, a);
    Conservation(s, rows);
    Conservation(s, a);
    assert |rows| == |multiset(rows)| == |multiset(a)| == |a|;
  }

  lemma TiesMatter(s: Scheme, rows: seq<Row>)
    requires Distinguishes(s, rows) && !TiesAgree(rows)
    ensures !OrderIrrelevant(s, rows)
  {
    hide Deduped, Distinguishes, Least;
    var c, p, q :| Row(c, p) in rows && Row(c, q) in rows && Least(rows, c, p) && Least(rows, c, q) && p.mtime != q.mtime;
    var a := MoveToFront(rows, Row(c, p));
    var b := MoveToFront(rows, Row(c, q));
    RearrangedFacts(rows, a, c);
    RearrangedFacts(rows, b, c);
    DistinguishesRearranged(s, rows, a);
    DistinguishesRearranged(s, rows, b);
    DifferentOutput(s, a, b);
  }

  lemma ConfusionMatters(s: Scheme, rows: seq<Row>)
    requires !Distinguishes(s, rows)
    ensures !OrderIrrelevant(s, rows)
  {
    hide Deduped;
    var c, d :| Seen(rows, c) && Seen(rows, d) && s.key(c) == s.key(d) && s.hash(c) == s.hash(d) && c != d;
    var p :| Row(c, p) in rows;
    var q :| Row(d, q) in rows;
    var a := MoveToFront(rows, Row(c, p));
    var b := MoveToFront(rows, Row(d, q));
    ConfusedOutput(s, a, b);
  }

  /** The order of the input rows is irrelevant exactly when the hash tells their contents apart and ties agree; where it
      does, one modification time for every file is enough. */
  lemma OrderIrrelevantIff(s: Scheme, rows: seq<Row>)
    ensures OrderIrrelevant(s, rows) <==> Distinguishes(s, rows) && TiesAgree(rows)
    ensures Distinguishes(s, rows) && OneMtime(rows) ==> OrderIrrelevant(s, rows)
  {
    hide Deduped, Distinguishes, TiesAgree, OneMtime;
    if OneMtime(rows) {
      OneMtimeTiesAgree(rows);
    }
    if !Distinguishes(s, rows) {
      ConfusionMatters(s, rows);
    } else if !TiesAgree(rows) {
      TiesMatter(s, rows);
    } else {
      forall a, b | Rearranged(rows, a) && Rearranged(rows, b) ensures Deduped(s, a) == Deduped(s, b) {
        SameReport(s, rows, a);
        SameReport(s, rows, b);
      }
    }
  }

  // ---------- both conditions can hold and fail ----------

  /** The first row with this content, or the number of rows. */
  function FirstAt(rows: seq<Row>, c: Content): (i: nat)
    ensures i <= |rows|
    ensures i < |rows| ==> rows[i].content == c
    ensures i == |rows| ==> forall j | 0 <= j < |rows| :: rows[j].content != c
  {
    if rows == [] then 0
    else
      var n := |rows| - 1;
      var i := FirstAt(rows[..n], c);
      if i < n || rows[n].content == c then i else |rows|
  }

  /** For any rows and any keys some hash tells the contents apart: here the number of the first row that has it. */
  lemma SomeHashDistinguishes(key: Content -> string, rows: seq<Row>) returns (s: Scheme)
    ensures s.key == key && Distinguishes(s, rows)
  {
    var hash := (c: Content) => seq(FirstAt(rows, c), i => 'x');
    s := Scheme(key, hash);
    forall c, d | Seen(rows, c) && Seen(rows, d) && s.hash(c) == s.hash(d) ensures c == d {
      var p :| Row(c, p) in rows;
      var q :| Row(d, q) in rows;
      assert |s.hash(c)| == FirstAt(rows, c) && |s.hash(d)| == FirstAt(rows, d);
    }
  }

  /** One row harvested twice, from one file with two modification times: the hash tells everything apart, and still the
      order decides which time is kept. */
  lemma TwoMtimesOneFile(s: Scheme)
    ensures var rows := [Row(map[], Prov("box", "path", 1.0)), Row(map[], Prov("box", "path", 2.0))];
            Distinguishes(s, rows) && !TiesAgree(rows) && !OrderIrrelevant(s, rows)
  {
    var p, q := Prov("box", "path", 1.0), Prov("box", "path", 2.0);
    var rows := [Row(map[], p), Row(map[], q)];
    StringLeTotal("path", "path");
    assert rows[0] == Row(map[], p) && rows[1] == Row(map[], q);
    assert Least(rows, map[], p) && Least(rows, map[], q);
    assert !TiesAgree(rows);
    TiesMatter(s, rows);
  }
}
