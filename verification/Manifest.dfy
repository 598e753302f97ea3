/** The checked-SQL manifest and the canonical bytes its hash covers.

    Strings are escaped as section 7 of RFC 8259 allows and as both sides write them: quotes,
    backslashes and control characters only.
 */
module Manifest {
  import opened Utf8
  import opened Texts
  import opened Wrappers

  /** What the hash covers of a query. */
  datatype Decl = Decl(sql: Text, pool: Text, readonly: bool, idempotent: bool)

  /** A declared query: what the hash covers, and the `dto` it does not. */
  datatype Query = Query(id: Text, decl: Decl, dto: Option<Text>)

  // ---------------------------------------------------------------------------------------------
  // Canonical bytes

  const DQUOTE: Byte := 0x22
  const BACKSLASH: Byte := 0x5C
  const COMMA: Byte := 0x2C
  const CLOSE: Byte := 0x7D

  /** One byte of a JSON string. */
  function EscapeByte(b: Byte): (r: Text)
    ensures r != []
  {
    if b == DQUOTE || b == BACKSLASH then [BACKSLASH, b]
    else if b == 0x08 then [BACKSLASH, 0x62]
    else if b == 0x09 then [BACKSLASH, 0x74]
    else if b == 0x0A then [BACKSLASH, 0x6E]
    else if b == 0x0C then [BACKSLASH, 0x66]
    else if b == 0x0D then [BACKSLASH, 0x72]
    else if b < 0x20 then [BACKSLASH, 0x75, 0x30, 0x30, HexByte(b / 16), HexByte(b % 16)]
    else [b]
  }

  function EscapeAll(s: Text): Text {
    if s == [] then [] else EscapeByte(s[0]) + EscapeAll(s[1..])
  }

  /** `json_encode` of a string. */
  function JsonString(s: Text): Text {
    [DQUOTE] + (EscapeAll(s) + [DQUOTE])
  }

  function JsonBool(b: bool): Text {
    if b then Lit("true") else Lit("false")
  }

  /** The flags of a part and its closing brace, before `x`. */
  function AfterPool(d: Decl, x: Text): Text {
    Lit(",\"readonly\":")
    + (JsonBool(d.readonly) + (Lit(",\"idempotent\":") + (JsonBool(d.idempotent) + ([CLOSE] + x))))
  }

  /** Everything of a part after its id, before `x`. */
  function AfterId(d: Decl, x: Text): Text {
    Lit(":{\"sql\":") + (JsonString(d.sql) + (Lit(",\"pool\":") + (JsonString(d.pool) + AfterPool(d, x))))
  }

  function Part(id: Text, d: Decl): (r: Text) {
    JsonString(id) + AfterId(d, [])
  }

  /** `implode(',', parts)`. */
  function Implode(parts: seq<Text>): Text {
    if parts == [] then []
    else if |parts| == 1 then parts[0]
    else parts[0] + ([COMMA] + Implode(parts[1..]))
  }

  function PartsOf(queries: seq<Query>): (r: seq<Text>)
    ensures |r| == |queries|
    ensures forall i :: 0 <= i < |queries| ==> r[i] == Part(queries[i].id, queries[i].decl)
  {
    seq(|queries|, i requires 0 <= i < |queries| => Part(queries[i].id, queries[i].decl))
  }

  function Framed(body: Text): Text {
    Lit("{\"v\":1,\"q\":{") + (body + [CLOSE, CLOSE])
  }

  /** The exact bytes the hash covers. */
  function Canonical(queries: seq<Query>): Text {
    Framed(Implode(PartsOf(queries)))
  }

  // ---------------------------------------------------------------------------------------------
  // The canonical bytes determine the declarations

  /** Two escaped bytes that agree at the front are the same byte. */
  lemma EscapeIsPrefixFree(a: Byte, b: Byte, x: Text, y: Text)
    requires EscapeByte(a) + x == EscapeByte(b) + y
    ensures a == b && x == y
  {
    var s, t := EscapeByte(a) + x, EscapeByte(b) + y;
    assert s[0] == EscapeByte(a)[0] && t[0] == EscapeByte(b)[0];
    if EscapeByte(a)[0] == BACKSLASH {
      assert s[1] == EscapeByte(a)[1] && t[1] == EscapeByte(b)[1];
      if |EscapeByte(a)| == 6 && |EscapeByte(b)| == 6 {
        assert s[4] == EscapeByte(a)[4] && t[4] == EscapeByte(b)[4];
        assert s[5] == EscapeByte(a)[5] && t[5] == EscapeByte(b)[5];
      }
    }
    assert a == b;
    CancelPrefix(EscapeByte(a), x, y);
  }

  lemma EscapeNeverEnds(b: Byte, x: Text, y: Text)
    ensures EscapeByte(b) + x != [DQUOTE] + y
  {
    assert (EscapeByte(b) + x)[0] == EscapeByte(b)[0];
  }

  lemma EscapeHead(s: Text, end: Text)
    requires s != []
    ensures EscapeAll(s) + end == EscapeByte(s[0]) + (EscapeAll(s[1..]) + end)
  {
    var head, rest := EscapeByte(s[0]), EscapeAll(s[1..]);
    assert head + rest + end == head + (rest + end);
  }

  /** An escaped string and its closing quote are uniquely decodable, whatever follows. */
  lemma {:induction false} BodyIsUnique(s: Text, t: Text, x: Text, y: Text)
    requires EscapeAll(s) + ([DQUOTE] + x) == EscapeAll(t) + ([DQUOTE] + y)
    ensures s == t && x == y
    decreases |s| + |t|
  {
    var c, d := [DQUOTE] + x, [DQUOTE] + y;
    if s == [] && t == [] {
      assert EscapeAll(s) + c == c && EscapeAll(t) + d == d;
      CancelPrefix([DQUOTE], x, y);
    } else if s == [] {
      assert EscapeAll(s) + c == c;
      EscapeHead(t, d);
      EscapeNeverEnds(t[0], EscapeAll(t[1..]) + d, x);
    } else if t == [] {
      assert EscapeAll(t) + d == d;
      EscapeHead(s, c);
      EscapeNeverEnds(s[0], EscapeAll(s[1..]) + c, y);
    } else {
      EscapeHead(s, c);
      EscapeHead(t, d);
      EscapeIsPrefixFree(s[0], t[0], EscapeAll(s[1..]) + c, EscapeAll(t[1..]) + d);
      BodyIsUnique(s[1..], t[1..], x, y);
      assert s == [s[0]] + s[1..] && t == [t[0]] + t[1..];
    }
  }

  lemma Enclose(a: Text, b: Text, c: Text, x: Text)
    ensures a + (b + c) + x == a + (b + (c + x))
  {
  }

  lemma StringIsUnique(s: Text, t: Text, x: Text, y: Text)
    requires JsonString(s) + x == JsonString(t) + y
    ensures s == t && x == y
  {
    var e, f, q := EscapeAll(s), EscapeAll(t), [DQUOTE];
    Enclose(q, e, q, x);
    Enclose(q, f, q, y);
    CancelPrefix(q, e + (q + x), f + (q + y));
    BodyIsUnique(s, t, x, y);
  }

  /** A field's value after the same name. */
  lemma FieldIsUnique(name: Text, s: Text, t: Text, x: Text, y: Text)
    requires name + (JsonString(s) + x) == name + (JsonString(t) + y)
    ensures s == t && x == y
  {
    CancelPrefix(name, JsonString(s) + x, JsonString(t) + y);
    StringIsUnique(s, t, x, y);
  }

  lemma BoolIsUnique(b: bool, c: bool, x: Text, y: Text)
    requires JsonBool(b) + x == JsonBool(c) + y
    ensures b == c && x == y
  {
    assert (JsonBool(b) + x)[0] == JsonBool(b)[0] && (JsonBool(c) + y)[0] == JsonBool(c)[0];
    CancelPrefix(JsonBool(b), x, y);
  }

  lemma Regroup(a: Text, b: Text, c: Text, d: Text, e: Text, x: Text)
    ensures a + (b + (c + (d + e))) + x == a + (b + (c + (d + (e + x))))
  {
  }

  lemma PartIs(id: Text, d: Decl, x: Text)
    ensures Part(id, d) + x == JsonString(id) + AfterId(d, x)
  {
    AfterPoolIs(d, x);
    Regroup(Lit(":{\"sql\":"), JsonString(d.sql), Lit(",\"pool\":"), JsonString(d.pool), AfterPool(d, []), x);
    Associate(JsonString(id), AfterId(d, []), x);
  }

  lemma AfterPoolIs(d: Decl, x: Text)
    ensures AfterPool(d, []) + x == AfterPool(d, x)
  {
    assert [CLOSE] + [] == [CLOSE];
    Regroup(Lit(",\"readonly\":"), JsonBool(d.readonly), Lit(",\"idempotent\":"), JsonBool(d.idempotent), [CLOSE], x);
  }

  lemma FlagsAreUnique(d: Decl, e: Decl, x: Text, y: Text)
    requires AfterPool(d, x) == AfterPool(e, y)
    ensures d.readonly == e.readonly && d.idempotent == e.idempotent && x == y
  {
    var x1, y1 := JsonBool(d.idempotent) + ([CLOSE] + x), JsonBool(e.idempotent) + ([CLOSE] + y);
    var x2, y2 := Lit(",\"idempotent\":") + x1, Lit(",\"idempotent\":") + y1;
    CancelPrefix(Lit(",\"readonly\":"), JsonBool(d.readonly) + x2, JsonBool(e.readonly) + y2);
    BoolIsUnique(d.readonly, e.readonly, x2, y2);
    CancelPrefix(Lit(",\"idempotent\":"), x1, y1);
    BoolIsUnique(d.idempotent, e.idempotent, [CLOSE] + x, [CLOSE] + y);
    CancelPrefix([CLOSE], x, y);
  }

  lemma DeclIsUnique(d: Decl, e: Decl, x: Text, y: Text)
    requires AfterId(d, x) == AfterId(e, y)
    ensures d == e && x == y
  {
    var pool := Lit(",\"pool\":");
    FieldIsUnique(Lit(":{\"sql\":"), d.sql, e.sql,
                  pool + (JsonString(d.pool) + AfterPool(d, x)), pool + (JsonString(e.pool) + AfterPool(e, y)));
    FieldIsUnique(pool, d.pool, e.pool, AfterPool(d, x), AfterPool(e, y));
    FlagsAreUnique(d, e, x, y);
  }

  lemma PartIsUnique(id: Text, d: Decl, id': Text, d': Decl, x: Text, y: Text)
    requires Part(id, d) + x == Part(id', d') + y
    ensures id == id' && d == d' && x == y
  {
    PartIs(id, d, x);
    PartIs(id', d', y);
    StringIsUnique(id, id', AfterId(d, x), AfterId(d', y));
    DeclIsUnique(d, d', x, y);
  }

  /** What follows the first part of a list: the rest of the list, or its end. */
  function Tail(parts: seq<Text>, end: Text): Text
    requires parts != []
  {
    if |parts| == 1 then end else [COMMA] + (Implode(parts[1..]) + end)
  }

  lemma ImplodeHead(parts: seq<Text>, end: Text)
    requires parts != []
    ensures Implode(parts) + end == parts[0] + Tail(parts, end)
  {
    if |parts| > 1 {
      var p, rest := parts[0], Implode(parts[1..]);
      assert p + ([COMMA] + rest) + end == p + ([COMMA] + (rest + end));
    }
  }

  /** A list's text says where the list ends. */
  lemma TailIsUnique(ps: seq<Text>, qs: seq<Text>, end: Text)
    requires ps != [] && qs != [] && end != [] && end[0] != COMMA && Tail(ps, end) == Tail(qs, end)
    ensures |ps| == 1 <==> |qs| == 1
    ensures |ps| > 1 ==> Implode(ps[1..]) + end == Implode(qs[1..]) + end
  {
    assert |ps| > 1 ==> Tail(ps, end)[0] == COMMA;
    assert |qs| > 1 ==> Tail(qs, end)[0] == COMMA;
    if |ps| > 1 {
      CancelPrefix([COMMA], Implode(ps[1..]) + end, Implode(qs[1..]) + end);
    }
  }

  /** The same declaration under the same id. */
  predicate Alike(p: Query, q: Query) {
    p.id == q.id && p.decl == q.decl
  }

  predicate AllAlike(a: seq<Query>, b: seq<Query>) {
    |a| == |b| && forall i :: 0 <= i < |a| ==> Alike(a[i], b[i])
  }

  /** Neither part can be the start of a text that starts with the other. */
  predicate Separate(p: Text, q: Text, x: Text, y: Text) {
    p + x == q + y ==> p == q && x == y
  }

  ghost predicate PrefixFree(ps: seq<Text>, qs: seq<Text>) {
    forall i, j, x, y :: 0 <= i < |ps| && 0 <= j < |qs| ==> Separate(ps[i], qs[j], x, y)
  }

  lemma {:induction false} ImplodeIsUnique(ps: seq<Text>, qs: seq<Text>, end: Text)
    requires ps != [] && qs != [] && end != [] && end[0] != COMMA && PrefixFree(ps, qs)
    requires Implode(ps) + end == Implode(qs) + end
    ensures ps == qs
    decreases |ps|
  {
    ImplodeHead(ps, end);
    ImplodeHead(qs, end);
    assert Separate(ps[0], qs[0], Tail(ps, end), Tail(qs, end));
    TailIsUnique(ps, qs, end);
    assert ps == [ps[0]] + ps[1..] && qs == [qs[0]] + qs[1..];
    if |ps| > 1 {
      ImplodeIsUnique(ps[1..], qs[1..], end);
    }
  }

  lemma PartsArePrefixFree(a: seq<Query>, b: seq<Query>)
    ensures PrefixFree(PartsOf(a), PartsOf(b))
  {
    var ps, qs := PartsOf(a), PartsOf(b);
    forall i, j, x, y | 0 <= i < |ps| && 0 <= j < |qs|
      ensures Separate(ps[i], qs[j], x, y)
    {
      if ps[i] + x == qs[j] + y {
        PartIsUnique(a[i].id, a[i].decl, b[j].id, b[j].decl, x, y);
      }
    }
  }

  lemma SamePartsIff(a: seq<Query>, b: seq<Query>)
    ensures PartsOf(a) == PartsOf(b) <==> AllAlike(a, b)
  {
    var ps, qs := PartsOf(a), PartsOf(b);
    if ps == qs {
      forall i | 0 <= i < |a|
        ensures Alike(a[i], b[i])
      {
        assert ps[i] + [] == qs[i] + [];
        PartIsUnique(a[i].id, a[i].decl, b[i].id, b[i].decl, [], []);
      }
    }
  }

  lemma FramedIsUnique(x: Text, y: Text)
    requires Framed(x) == Framed(y)
    ensures x + [CLOSE, CLOSE] == y + [CLOSE, CLOSE]
  {
    CancelPrefix(Lit("{\"v\":1,\"q\":{"), x + [CLOSE, CLOSE], y + [CLOSE, CLOSE]);
  }

  lemma FramedPartsAreUnique(ps: seq<Text>, qs: seq<Text>)
    requires ps != [] && qs != [] && PrefixFree(ps, qs) && Framed(Implode(ps)) == Framed(Implode(qs))
    ensures ps == qs
  {
    FramedIsUnique(Implode(ps), Implode(qs));
    ImplodeIsUnique(ps, qs, [CLOSE, CLOSE]);
  }

  /** For lists of queries: the same canonical bytes exactly when the same declarations in order. */
  lemma CanonicalIff(a: seq<Query>, b: seq<Query>)
    requires a != [] && b != []
    ensures Canonical(a) == Canonical(b) <==> AllAlike(a, b)
  {
    SamePartsIff(a, b);
    PartsArePrefixFree(a, b);
    if Canonical(a) == Canonical(b) {
      FramedPartsAreUnique(PartsOf(a), PartsOf(b));
    }
  }
}
