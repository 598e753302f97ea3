/** The canonical bytes are JSON, and say what the manifest declares.

    The reader follows RFC 8259: the escapes of section 7, objects, the three literal names it needs and
    numbers without fraction, all without insignificant whitespace, of which the canonical bytes have none.
 */
module ManifestJson {
  import opened Utf8
  import opened Texts
  import opened Wrappers
  import opened Manifest

  // ---------------------------------------------------------------------------------------------
  // The reader

  datatype Value = TextValue(text: Text) | BoolValue(flag: bool) | Number(n: nat) | Object(members: seq<Member>)

  datatype Member = Member(name: Text, value: Value)

  datatype Got<+T> = Got(value: T, rest: Text)

  /** The digit's value; both cases are digits. */
  function HexOf(b: Byte): Option<int> {
    if 0x30 <= b <= 0x39 then Some(b - 0x30)
    else if 0x41 <= b <= 0x46 then Some(b - 0x41 + 10)
    else if 0x61 <= b <= 0x66 then Some(b - 0x61 + 10)
    else None
  }

  function Hex4(s: Text): Option<int>
    requires |s| >= 4
  {
    var a, b, c, d := HexOf(s[0]), HexOf(s[1]), HexOf(s[2]), HexOf(s[3]);
    if a.Some? && b.Some? && c.Some? && d.Some?
    then Some(((a.value * 16 + b.value) * 16 + c.value) * 16 + d.value) else None
  }

  /** What stands behind a backslash: a named character, or `u` and four digits of an ASCII character. */
  function ReadEscape(s: Text): (r: Option<Got<Byte>>)
    ensures r.Some? ==> |r.value.rest| < |s|
  {
    if s == [] then None
    else if s[0] == 0x22 || s[0] == 0x5C || s[0] == 0x2F then Some(Got(s[0], s[1..]))
    else if s[0] == 0x62 then Some(Got(0x08, s[1..]))
    else if s[0] == 0x66 then Some(Got(0x0C, s[1..]))
    else if s[0] == 0x6E then Some(Got(0x0A, s[1..]))
    else if s[0] == 0x72 then Some(Got(0x0D, s[1..]))
    else if s[0] == 0x74 then Some(Got(0x09, s[1..]))
    else if s[0] == 0x75 && |s| >= 5 && Hex4(s[1..]).Some? then
      var n := Hex4(s[1..]).value;
      if 0 <= n < 0x80 then Some(Got(n, s[5..])) else None
    else None
  }

  /** The characters of a string up to its closing quote; control characters must be escaped. */
  function ReadChars(s: Text): (r: Option<Got<Text>>)
    ensures r.Some? ==> |r.value.rest| < |s|
    decreases |s|
  {
    if s == [] then None
    else if s[0] == 0x22 then Some(Got([], s[1..]))
    else if s[0] == 0x5C then
      match ReadEscape(s[1..])
      case None => None
      case Some(Got(b, rest)) => Put(b, ReadChars(rest))
    else if s[0] < 0x20 then None
    else Put(s[0], ReadChars(s[1..]))
  }

  function Put(b: Byte, r: Option<Got<Text>>): Option<Got<Text>> {
    if r.Some? then Some(Got([b] + r.value.value, r.value.rest)) else None
  }

  function ReadString(s: Text): (r: Option<Got<Text>>)
    ensures r.Some? ==> |r.value.rest| < |s|
  {
    if s != [] && s[0] == 0x22 then ReadChars(s[1..]) else None
  }

  const TRUE: Text := [0x74, 0x72, 0x75, 0x65]
  const FALSE: Text := [0x66, 0x61, 0x6C, 0x73, 0x65]

  predicate IsDigitByte(b: Byte) {
    0x30 <= b <= 0x39
  }

  /** A value: a string, `true`, `false`, an object, or a digit that no digit follows. */
  function ReadValue(s: Text): (r: Option<Got<Value>>)
    ensures r.Some? ==> |r.value.rest| < |s|
    decreases |s|
  {
    if s == [] then None
    else if s[0] == 0x22 then
      var t := ReadString(s);
      if t.Some? then Some(Got(TextValue(t.value.value), t.value.rest)) else None
    else if s[0] == 0x7B then ReadObject(s[1..])
    else if TRUE <= s then Some(Got(BoolValue(true), s[4..]))
    else if FALSE <= s then Some(Got(BoolValue(false), s[5..]))
    else if IsDigitByte(s[0]) && (|s| == 1 || !IsDigitByte(s[1])) then Some(Got(Number(s[0] - 0x30), s[1..]))
    else None
  }

  /** An object from behind its opening brace. */
  function ReadObject(s: Text): (r: Option<Got<Value>>)
    ensures r.Some? ==> |r.value.rest| < |s| + 1
    decreases |s|, 1
  {
    if s != [] && s[0] == 0x7D then Some(Got(Object([]), s[1..]))
    else
      var m := ReadMembers(s);
      if m.Some? then Some(Got(Object(m.value.value), m.value.rest)) else None
  }

  /** One member and the ones after it, up to the closing brace. */
  function ReadMembers(s: Text): (r: Option<Got<seq<Member>>>)
    ensures r.Some? ==> |r.value.rest| < |s|
    decreases |s|, 0
  {
    var name := ReadString(s);
    if name.None? || name.value.rest == [] || name.value.rest[0] != 0x3A then None
    else
      var v := ReadValue(name.value.rest[1..]);
      if v.None? then None else After(Member(name.value.value, v.value.value), v.value.rest)
  }

  /** What comes after a member: the end of the object, or more members. */
  function After(m: Member, s: Text): (r: Option<Got<seq<Member>>>)
    ensures r.Some? ==> |r.value.rest| < |s|
    decreases |s|, 2
  {
    if s == [] then None
    else if s[0] == 0x7D then Some(Got([m], s[1..]))
    else if s[0] == 0x2C then
      var more := ReadMembers(s[1..]);
      if more.Some? then Some(Got([m] + more.value.value, more.value.rest)) else None
    else None
  }

  // ---------------------------------------------------------------------------------------------
  // Strings

  /** The escapes are the shortest there are: two bytes for the seven characters with a name, lowercase
      `\\u00xx` for the other control characters, and none for any other byte. */
  lemma EscapeIsShortest(b: Byte)
    ensures |EscapeByte(b)| == 2 <==> b in {0x22, 0x5C, 0x08, 0x09, 0x0A, 0x0C, 0x0D}
    ensures |EscapeByte(b)| == 6 <==> b < 0x20 && b !in {0x08, 0x09, 0x0A, 0x0C, 0x0D}
    ensures |EscapeByte(b)| == 6 ==> forall i :: 2 <= i < 6 ==> !(0x41 <= EscapeByte(b)[i] <= 0x5A)
    ensures |EscapeByte(b)| != 2 && |EscapeByte(b)| != 6 ==> EscapeByte(b) == [b]
  {
  }

  lemma UnicodeReads(b: Byte, x: Text)
    requires b < 0x20
    ensures ReadEscape([0x75, 0x30, 0x30, HexByte(b / 16), HexByte(b % 16)] + x) == Some(Got(b, x))
  {
    var s := [0x75, 0x30, 0x30, HexByte(b / 16), HexByte(b % 16)] + x;
    var t := s[1..];
    assert t[0] == 0x30 && t[1] == 0x30 && t[2] == HexByte(b / 16) && t[3] == HexByte(b % 16);
    assert HexOf(t[2]) == Some(b / 16) && HexOf(t[3]) == Some(b % 16);
    assert s[5..] == x;
  }

  /** An escaped byte reads as that byte. */
  lemma ByteReads(b: Byte, x: Text)
    ensures ReadChars(EscapeByte(b) + x) == Put(b, ReadChars(x))
  {
    var e := EscapeByte(b);
    var s := e + x;
    assert s[0] == e[0];
    if |e| == 1 {
      assert s[1..] == x;
    } else if |e| == 2 {
      assert s[1..] == [e[1]] + x && s[1..][1..] == x;
    } else {
      assert s[1..] == [0x75, 0x30, 0x30, HexByte(b / 16), HexByte(b % 16)] + x;
      UnicodeReads(b, x);
    }
  }

  lemma PutAll(s: Text, x: Text)
    requires s != []
    ensures Put(s[0], Some(Got(s[1..], x))) == Some(Got(s, x))
  {
    assert [s[0]] + s[1..] == s;
  }

  lemma {:induction false} CharsRead(s: Text, x: Text)
    ensures ReadChars(EscapeAll(s) + ([DQUOTE] + x)) == Some(Got(s, x))
    decreases |s|
  {
    var end := [DQUOTE] + x;
    if s == [] {
      assert EscapeAll(s) + end == end && end[1..] == x;
    } else {
      EscapeHead(s, end);
      ByteReads(s[0], EscapeAll(s[1..]) + end);
      CharsRead(s[1..], x);
      PutAll(s, x);
    }
  }

  /** For every string and whatever follows: its JSON text reads as that string and leaves what follows. */
  lemma StringReads(s: Text, x: Text)
    ensures ReadString(JsonString(s) + x) == Some(Got(s, x))
  {
    var q, e := [DQUOTE], EscapeAll(s);
    Enclose(q, e, q, x);
    var text := q + (e + (q + x));
    assert text[0] == DQUOTE && text[1..] == e + (q + x);
    CharsRead(s, x);
  }

  lemma StringValueReads(s: Text, x: Text)
    ensures ReadValue(JsonString(s) + x) == Some(Got(TextValue(s), x))
  {
    StringReads(s, x);
    assert (JsonString(s) + x)[0] == DQUOTE;
  }

  lemma BoolReads(b: bool, x: Text)
    ensures ReadValue(JsonBool(b) + x) == Some(Got(BoolValue(b), x))
  {
    var s := JsonBool(b) + x;
    assert JsonBool(true) == TRUE && JsonBool(false) == FALSE;
    assert s[..|JsonBool(b)|] == JsonBool(b) && s[|JsonBool(b)|..] == x;
    assert s[0] == JsonBool(b)[0];
  }

  // ---------------------------------------------------------------------------------------------
  // Members

  const COLON: Byte := 0x3A
  const OPEN: Byte := 0x7B

  /** A member's text, with what comes after it. */
  function MemberText(name: Text, value: Text, x: Text): Text {
    JsonString(name) + ([COLON] + (value + x))
  }

  lemma MemberReads(name: Text, text: Text, v: Value, x: Text)
    requires ReadValue(text + x) == Some(Got(v, x))
    ensures ReadMembers(MemberText(name, text, x)) == After(Member(name, v), x)
  {
    var rest := [COLON] + (text + x);
    StringReads(name, rest);
    assert rest[0] == COLON && rest[1..] == text + x;
  }

  lemma AfterLast(m: Member, x: Text)
    ensures After(m, [CLOSE] + x) == Some(Got([m], x))
  {
    assert ([CLOSE] + x)[1..] == x;
  }

  lemma AfterMore(m: Member, x: Text, ms: seq<Member>, y: Text)
    requires ReadMembers(x) == Some(Got(ms, y))
    ensures After(m, [COMMA] + x) == Some(Got([m] + ms, y))
  {
    assert ([COMMA] + x)[1..] == x;
  }

  lemma LastMember(name: Text, text: Text, v: Value, x: Text)
    requires ReadValue(text + ([CLOSE] + x)) == Some(Got(v, [CLOSE] + x))
    ensures ReadMembers(MemberText(name, text, [CLOSE] + x)) == Some(Got([Member(name, v)], x))
  {
    MemberReads(name, text, v, [CLOSE] + x);
    AfterLast(Member(name, v), x);
  }

  lemma MoreMembers(name: Text, text: Text, v: Value, x: Text, ms: seq<Member>, y: Text)
    requires ReadValue(text + ([COMMA] + x)) == Some(Got(v, [COMMA] + x)) && ReadMembers(x) == Some(Got(ms, y))
    ensures ReadMembers(MemberText(name, text, [COMMA] + x)) == Some(Got([Member(name, v)] + ms, y))
  {
    MemberReads(name, text, v, [COMMA] + x);
    AfterMore(Member(name, v), x, ms, y);
  }

  lemma TwoMembers(n1: Text, t1: Text, v1: Value, n2: Text, t2: Text, v2: Value, x: Text)
    requires ReadValue(t2 + ([CLOSE] + x)) == Some(Got(v2, [CLOSE] + x))
    requires var y := [COMMA] + MemberText(n2, t2, [CLOSE] + x); ReadValue(t1 + y) == Some(Got(v1, y))
    ensures ReadMembers(MemberText(n1, t1, [COMMA] + MemberText(n2, t2, [CLOSE] + x)))
         == Some(Got([Member(n1, v1), Member(n2, v2)], x))
  {
    var last := MemberText(n2, t2, [CLOSE] + x);
    LastMember(n2, t2, v2, x);
    MoreMembers(n1, t1, v1, last, [Member(n2, v2)], x);
    assert [Member(n1, v1)] + [Member(n2, v2)] == [Member(n1, v1), Member(n2, v2)];
  }

  lemma TwoMore(n1: Text, t1: Text, v1: Value, n2: Text, t2: Text, v2: Value, a: Text, ms: seq<Member>, x: Text)
    requires ReadMembers(a) == Some(Got(ms, x)) && ReadValue(t2 + ([COMMA] + a)) == Some(Got(v2, [COMMA] + a))
    requires var y := [COMMA] + MemberText(n2, t2, [COMMA] + a); ReadValue(t1 + y) == Some(Got(v1, y))
    ensures ReadMembers(MemberText(n1, t1, [COMMA] + MemberText(n2, t2, [COMMA] + a)))
         == Some(Got([Member(n1, v1), Member(n2, v2)] + ms, x))
  {
    MoreMembers(n2, t2, v2, a, ms, x);
    MoreMembers(n1, t1, v1, MemberText(n2, t2, [COMMA] + a), [Member(n2, v2)] + ms, x);
    TwoFirst(Member(n1, v1), Member(n2, v2), ms);
  }

  lemma TwoFirst(m: Member, n: Member, ms: seq<Member>)
    ensures [m] + ([n] + ms) == [m, n] + ms
  {
  }

  lemma ObjectReads(x: Text, ms: seq<Member>, y: Text)
    requires ReadMembers(x) == Some(Got(ms, y)) && x != [] && x[0] == DQUOTE
    ensures ReadValue([OPEN] + x) == Some(Got(Object(ms), y))
  {
    assert ([OPEN] + x)[1..] == x;
  }

  // ---------------------------------------------------------------------------------------------
  // Field names

  predicate IsBare(t: Text) {
    forall i :: 0 <= i < |t| ==> 0x20 <= t[i] && t[i] != DQUOTE && t[i] != BACKSLASH
  }

  lemma {:induction false} BareIsItself(t: Text)
    requires IsBare(t)
    ensures EscapeAll(t) == t
    decreases |t|
  {
    if t != [] {
      BareIsItself(t[1..]);
      assert t == [t[0]] + t[1..];
    }
  }

  /** A literal between two members is a separator, a quoted name and a colon. */
  lemma NameInLiteral(lit: Text, before: Text, name: Text, x: Text)
    requires IsBare(name) && lit == before + ([DQUOTE] + (name + [DQUOTE])) + [COLON]
    ensures lit + x == before + (JsonString(name) + ([COLON] + x))
  {
    BareIsItself(name);
    var q := JsonString(name);
    assert lit == before + q + [COLON];
    assert before + q + [COLON] + x == before + (q + ([COLON] + x));
  }

  const SQL: Text := [0x73, 0x71, 0x6C]
  const POOL: Text := [0x70, 0x6F, 0x6F, 0x6C]
  const READONLY: Text := [0x72, 0x65, 0x61, 0x64, 0x6F, 0x6E, 0x6C, 0x79]
  const IDEMPOTENT: Text := [0x69, 0x64, 0x65, 0x6D, 0x70, 0x6F, 0x74, 0x65, 0x6E, 0x74]
  const V: Text := [0x76]
  const Q: Text := [0x71]

  lemma SqlLiteral(x: Text)
    ensures Lit(":{\"sql\":") + x == [COLON, OPEN] + (JsonString(SQL) + ([COLON] + x))
  {
    assert Lit(":{\"sql\":") == [COLON, OPEN] + ([DQUOTE] + (SQL + [DQUOTE])) + [COLON];
    NameInLiteral(Lit(":{\"sql\":"), [COLON, OPEN], SQL, x);
  }

  lemma PoolLiteral(x: Text)
    ensures Lit(",\"pool\":") + x == [COMMA] + (JsonString(POOL) + ([COLON] + x))
  {
    assert Lit(",\"pool\":") == [COMMA] + ([DQUOTE] + (POOL + [DQUOTE])) + [COLON];
    NameInLiteral(Lit(",\"pool\":"), [COMMA], POOL, x);
  }

  lemma ReadonlyLiteral(x: Text)
    ensures Lit(",\"readonly\":") + x == [COMMA] + (JsonString(READONLY) + ([COLON] + x))
  {
    assert Lit(",\"readonly\":") == [COMMA] + ([DQUOTE] + (READONLY + [DQUOTE])) + [COLON];
    NameInLiteral(Lit(",\"readonly\":"), [COMMA], READONLY, x);
  }

  lemma IdempotentLiteral(x: Text)
    ensures Lit(",\"idempotent\":") + x == [COMMA] + (JsonString(IDEMPOTENT) + ([COLON] + x))
  {
    assert Lit(",\"idempotent\":") == [COMMA] + ([DQUOTE] + (IDEMPOTENT + [DQUOTE])) + [COLON];
    NameInLiteral(Lit(",\"idempotent\":"), [COMMA], IDEMPOTENT, x);
  }

  // ---------------------------------------------------------------------------------------------
  // One declaration

  function FlagMembers(d: Decl): seq<Member> {
    [Member(READONLY, BoolValue(d.readonly)), Member(IDEMPOTENT, BoolValue(d.idempotent))]
  }

  function DeclMembers(d: Decl): seq<Member> {
    [Member(SQL, TextValue(d.sql)), Member(POOL, TextValue(d.pool)),
     Member(READONLY, BoolValue(d.readonly)), Member(IDEMPOTENT, BoolValue(d.idempotent))]
  }

  /** The text of the flags, from behind the comma before them. */
  function FlagText(d: Decl, x: Text): Text {
    MemberText(READONLY, JsonBool(d.readonly),
               [COMMA] + MemberText(IDEMPOTENT, JsonBool(d.idempotent), [CLOSE] + x))
  }

  lemma AfterPoolIsFlags(d: Decl, x: Text)
    ensures AfterPool(d, x) == [COMMA] + FlagText(d, x)
  {
    FlagsAre(JsonBool(d.readonly), JsonBool(d.idempotent), [CLOSE] + x);
  }

  lemma FlagsAre(readonly: Text, idempotent: Text, x: Text)
    ensures Lit(",\"readonly\":") + (readonly + (Lit(",\"idempotent\":") + (idempotent + x)))
         == [COMMA] + MemberText(READONLY, readonly, [COMMA] + MemberText(IDEMPOTENT, idempotent, x))
  {
    IdempotentLiteral(idempotent + x);
    ReadonlyLiteral(readonly + (Lit(",\"idempotent\":") + (idempotent + x)));
  }

  lemma FlagsRead(d: Decl, x: Text)
    ensures ReadMembers(FlagText(d, x)) == Some(Got(FlagMembers(d), x))
  {
    BoolReads(d.idempotent, [CLOSE] + x);
    BoolReads(d.readonly, [COMMA] + MemberText(IDEMPOTENT, JsonBool(d.idempotent), [CLOSE] + x));
    TwoMembers(READONLY, JsonBool(d.readonly), BoolValue(d.readonly),
               IDEMPOTENT, JsonBool(d.idempotent), BoolValue(d.idempotent), x);
  }

  /** The text of the fields, from behind the opening brace. */
  function FieldText(d: Decl, x: Text): Text {
    MemberText(SQL, JsonString(d.sql), [COMMA] + MemberText(POOL, JsonString(d.pool), [COMMA] + FlagText(d, x)))
  }

  lemma AfterIdIsFields(d: Decl, x: Text)
    ensures AfterId(d, x) == [COLON, OPEN] + FieldText(d, x)
  {
    AfterPoolIsFlags(d, x);
    FieldsAre(d.sql, d.pool, AfterPool(d, x));
  }

  lemma FieldsAre(sql: Text, pool: Text, x: Text)
    ensures Lit(":{\"sql\":") + (JsonString(sql) + (Lit(",\"pool\":") + (JsonString(pool) + x)))
         == [COLON, OPEN] + MemberText(SQL, JsonString(sql), [COMMA] + MemberText(POOL, JsonString(pool), x))
  {
    PoolLiteral(JsonString(pool) + x);
    SqlLiteral(JsonString(sql) + (Lit(",\"pool\":") + (JsonString(pool) + x)));
  }

  lemma FieldsRead(d: Decl, x: Text)
    ensures ReadMembers(FieldText(d, x)) == Some(Got(DeclMembers(d), x))
  {
    var flags := FlagText(d, x);
    FlagsRead(d, x);
    StringValueReads(d.pool, [COMMA] + flags);
    StringValueReads(d.sql, [COMMA] + MemberText(POOL, JsonString(d.pool), [COMMA] + flags));
    TwoMore(SQL, JsonString(d.sql), TextValue(d.sql),
            POOL, JsonString(d.pool), TextValue(d.pool), flags, FlagMembers(d), x);
    MembersOf(d);
  }

  lemma MembersOf(d: Decl)
    ensures [Member(SQL, TextValue(d.sql)), Member(POOL, TextValue(d.pool))] + FlagMembers(d) == DeclMembers(d)
  {
  }

  /** The object of a declaration reads as its four fields under their names. */
  lemma DeclReads(d: Decl, x: Text)
    ensures ReadValue([OPEN] + FieldText(d, x)) == Some(Got(Object(DeclMembers(d)), x))
  {
    FieldsRead(d, x);
    ObjectReads(FieldText(d, x), DeclMembers(d), x);
  }

  // ---------------------------------------------------------------------------------------------
  // The whole manifest

  function QueryMember(q: Query): Member {
    Member(q.id, Object(DeclMembers(q.decl)))
  }

  function QueryMembers(queries: seq<Query>): (r: seq<Member>)
    ensures |r| == |queries| && forall i :: 0 <= i < |queries| ==> r[i] == QueryMember(queries[i])
  {
    seq(|queries|, i requires 0 <= i < |queries| => QueryMember(queries[i]))
  }

  /** A part, and what comes after it, is a member: the id, and the object of the declaration. */
  lemma PartIsMember(q: Query, x: Text)
    ensures Part(q.id, q.decl) + x == JsonString(q.id) + ([COLON] + ([OPEN] + FieldText(q.decl, x)))
  {
    PartIs(q.id, q.decl, x);
    AfterIdIsFields(q.decl, x);
    TwoBytes(COLON, OPEN, FieldText(q.decl, x));
  }

  lemma TwoBytes(a: Byte, b: Byte, x: Text)
    ensures [a, b] + x == [a] + ([b] + x)
  {
  }

  lemma StartsQuoted(s: Text, x: Text)
    ensures JsonString(s) + x != [] && (JsonString(s) + x)[0] == DQUOTE
  {
  }

  lemma PartReads(q: Query, x: Text)
    ensures ReadMembers(Part(q.id, q.decl) + x) == After(QueryMember(q), x)
  {
    PartIsMember(q, x);
    var rest := [COLON] + ([OPEN] + FieldText(q.decl, x));
    StringReads(q.id, rest);
    assert rest[1..] == [OPEN] + FieldText(q.decl, x);
    DeclReads(q.decl, x);
  }

  lemma {:induction false} PartsRead(queries: seq<Query>, x: Text)
    requires queries != []
    ensures ReadMembers(Implode(PartsOf(queries)) + ([CLOSE] + x)) == Some(Got(QueryMembers(queries), x))
    decreases |queries|
  {
    var parts, end, m := PartsOf(queries), [CLOSE] + x, QueryMember(queries[0]);
    ImplodeHead(parts, end);
    PartReads(queries[0], Tail(parts, end));
    if |queries| == 1 {
      AfterLast(m, x);
      assert QueryMembers(queries) == [m];
    } else {
      MorePartsAre(queries, end);
      PartsRead(queries[1..], x);
      AfterMore(m, Implode(PartsOf(queries[1..])) + end, QueryMembers(queries[1..]), x);
    }
  }

  lemma MorePartsAre(queries: seq<Query>, end: Text)
    requires |queries| > 1
    ensures Tail(PartsOf(queries), end) == [COMMA] + (Implode(PartsOf(queries[1..])) + end)
    ensures QueryMembers(queries) == [QueryMember(queries[0])] + QueryMembers(queries[1..])
  {
    assert PartsOf(queries)[1..] == PartsOf(queries[1..]);
  }

  /** The document that a list of queries is. */
  function Document(queries: seq<Query>): Value {
    Object([Member(V, Number(1)), Member(Q, Object(QueryMembers(queries)))])
  }

  lemma BodyStartsQuoted(queries: seq<Query>, end: Text)
    requires queries != []
    ensures var body := Implode(PartsOf(queries)) + end; body != [] && body[0] == DQUOTE
  {
    var tail := Tail(PartsOf(queries), end);
    ImplodeHead(PartsOf(queries), end);
    PartIsMember(queries[0], tail);
    StartsQuoted(queries[0].id, [COLON] + ([OPEN] + FieldText(queries[0].decl, tail)));
  }

  lemma EmptyObjectReads(x: Text)
    ensures ReadValue([OPEN] + ([CLOSE] + x)) == Some(Got(Object([]), x))
  {
    var body := [CLOSE] + x;
    assert ([OPEN] + body)[1..] == body && body[1..] == x;
  }

  lemma QueriesRead(queries: seq<Query>, x: Text)
    ensures ReadValue([OPEN] + (Implode(PartsOf(queries)) + ([CLOSE] + x)))
         == Some(Got(Object(QueryMembers(queries)), x))
  {
    if queries == [] {
      EmptyObjectReads(x);
      assert Implode(PartsOf(queries)) + ([CLOSE] + x) == [CLOSE] + x && QueryMembers(queries) == [];
    } else {
      PartsRead(queries, x);
      BodyStartsQuoted(queries, [CLOSE] + x);
      ObjectReads(Implode(PartsOf(queries)) + ([CLOSE] + x), QueryMembers(queries), x);
    }
  }

  lemma HeadIs()
    ensures Lit("{\"v\":1,\"q\":{")
         == [OPEN] + (JsonString(V) + ([COLON, 0x31, COMMA] + (JsonString(Q) + [COLON, OPEN])))
  {
    BareIsItself(V);
    BareIsItself(Q);
    assert JsonString(V) == [DQUOTE, 0x76, DQUOTE] && JsonString(Q) == [DQUOTE, 0x71, DQUOTE];
    assert Lit("{\"v\":1,\"q\":{")
        == [OPEN, DQUOTE, 0x76, DQUOTE, COLON, 0x31, COMMA, DQUOTE, 0x71, DQUOTE, COLON, OPEN];
  }

  lemma RegroupHead(v: Text, q: Text, y: Text)
    ensures [OPEN] + (v + ([COLON, 0x31, COMMA] + (q + [COLON, OPEN]))) + y
         == [OPEN] + (v + ([COLON] + ([0x31] + ([COMMA] + (q + ([COLON] + ([OPEN] + y)))))))
  {
    var a, b := q + [COLON, OPEN] + y, q + ([COLON] + ([OPEN] + y));
    assert a == b;
    assert [COLON, 0x31, COMMA] + (q + [COLON, OPEN]) + y == [COLON] + ([0x31] + ([COMMA] + b));
  }

  lemma CloseTwice(body: Text)
    ensures [OPEN] + (body + [CLOSE, CLOSE]) == [OPEN] + (body + [CLOSE]) + [CLOSE]
  {
  }

  lemma FrameIs(body: Text)
    ensures Framed(body)
         == [OPEN] + MemberText(V, [0x31], [COMMA] + MemberText(Q, [OPEN] + (body + [CLOSE]), [CLOSE]))
  {
    HeadIs();
    RegroupHead(JsonString(V), JsonString(Q), body + [CLOSE, CLOSE]);
    CloseTwice(body);
  }

  /** Version 1 and one object, framed. */
  lemma FrameReads(body: Text, v: Value)
    requires ReadValue([OPEN] + (body + [CLOSE]) + [CLOSE]) == Some(Got(v, [CLOSE]))
    ensures ReadValue(Framed(body)) == Some(Got(Object([Member(V, Number(1)), Member(Q, v)]), []))
  {
    var inner := [OPEN] + (body + [CLOSE]);
    var last := MemberText(Q, inner, [CLOSE]);
    FrameIs(body);
    assert [CLOSE] + [] == [CLOSE];
    OneReads([COMMA] + last);
    TwoMembers(V, [0x31], Number(1), Q, inner, v, []);
    StartsQuoted(V, [COLON] + ([0x31] + ([COMMA] + last)));
    ObjectReads(MemberText(V, [0x31], [COMMA] + last), [Member(V, Number(1)), Member(Q, v)], []);
  }

  lemma Close(body: Text)
    ensures [OPEN] + (body + [CLOSE]) + [CLOSE] == [OPEN] + (body + ([CLOSE] + [CLOSE]))
  {
  }

  /** The canonical bytes are one JSON document, and it says what the queries declare: version 1, and under
      each id, in order, the sql, the pool, the readonly and the idempotent flag. */
  lemma CanonicalReads(queries: seq<Query>)
    ensures ReadValue(Canonical(queries)) == Some(Got(Document(queries), []))
  {
    var body := Implode(PartsOf(queries));
    QueriesRead(queries, [CLOSE]);
    Close(body);
    FrameReads(body, Object(QueryMembers(queries)));
  }

  lemma OneReads(x: Text)
    requires x != [] && !IsDigitByte(x[0])
    ensures ReadValue([0x31] + x) == Some(Got(Number(1), x))
  {
    var s := [0x31] + x;
    assert s[1..] == x && s[0] == 0x31 && s[1] == x[0];
  }
}
