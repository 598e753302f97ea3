/** Loading a manifest: the document and every declaration checked, sorted by id in byte order, hashed.

    The document arrives decoded. The hash function is a parameter, as is the regular expression that
    recognises whitespace around the SQL.
 */
module ManifestLoad {
  import opened Utf8
  import opened Texts
  import opened Wrappers
  import opened PhpJson
  import opened Manifest

  /** A query as the document declares it. */
  datatype Raw = Raw(id: Text, query: Json)

  datatype ManifestError =
    | NotJson
    | NotAnObject
    | UnknownField
    | UnsupportedVersion
    | NoQueries
    | InvalidId(id: Text)
    | QueryNotAnObject(id: Text)
    | UnknownQueryField(id: Text)
    | InvalidShapes(id: Text)
    | InvalidFields(id: Text)
    | InvalidPool(id: Text)
    | NotTrimmed(id: Text)
    | EditedAfterwards

  datatype Loaded = Loaded(queries: seq<Query>, hash: Text)

  // ---------------------------------------------------------------------------------------------
  // Names

  const VERSION: Text := [0x76, 0x65, 0x72, 0x73, 0x69, 0x6F, 0x6E]
  const HASH: Text := [0x68, 0x61, 0x73, 0x68]
  const QUERIES: Text := [0x71, 0x75, 0x65, 0x72, 0x69, 0x65, 0x73]
  const SQL: Text := [0x73, 0x71, 0x6C]
  const POOL: Text := [0x70, 0x6F, 0x6F, 0x6C]
  const READONLY: Text := [0x72, 0x65, 0x61, 0x64, 0x6F, 0x6E, 0x6C, 0x79]
  const IDEMPOTENT: Text := [0x69, 0x64, 0x65, 0x6D, 0x70, 0x6F, 0x74, 0x65, 0x6E, 0x74]
  const DTO: Text := [0x64, 0x74, 0x6F]
  const SOURCE: Text := [0x73, 0x6F, 0x75, 0x72, 0x63, 0x65]
  const PARAMS: Text := [0x70, 0x61, 0x72, 0x61, 0x6D, 0x73]
  const COLUMNS: Text := [0x63, 0x6F, 0x6C, 0x75, 0x6D, 0x6E, 0x73]
  const NAME: Text := [0x6E, 0x61, 0x6D, 0x65]
  const TAG: Text := [0x74, 0x61, 0x67]
  const TYPE: Text := [0x74, 0x79, 0x70, 0x65]

  lemma NamesAreSpelled()
    ensures VERSION == Lit("version") && HASH == Lit("hash") && QUERIES == Lit("queries")
    ensures SQL == Lit("sql") && POOL == Lit("pool") && READONLY == Lit("readonly")
    ensures IDEMPOTENT == Lit("idempotent") && DTO == Lit("dto") && SOURCE == Lit("source")
    ensures PARAMS == Lit("params") && COLUMNS == Lit("columns")
    ensures NAME == Lit("name") && TAG == Lit("tag") && TYPE == Lit("type")
  {
  }

  // ---------------------------------------------------------------------------------------------
  // One declaration

  predicate IsLower(b: Byte) {
    0x61 <= b <= 0x7A
  }

  predicate IsUpper(b: Byte) {
    0x41 <= b <= 0x5A
  }

  predicate IsNumeral(b: Byte) {
    0x30 <= b <= 0x39
  }

  predicate ValidId(id: Text) {
    && 1 <= |id| <= 128
    && IsLower(id[0])
    && forall i :: 1 <= i < |id| ==>
         IsLower(id[i]) || IsNumeral(id[i]) || id[i] == 0x5F || id[i] == 0x2E || id[i] == 0x2D
  }

  predicate ValidPool(pool: Text) {
    forall i :: 0 <= i < |pool| ==>
      IsLower(pool[i]) || IsUpper(pool[i]) || IsNumeral(pool[i]) || pool[i] == 0x5F || pool[i] == 0x2D
  }

  function Repeat(b: Byte, n: nat): (r: Text)
    ensures |r| == n && forall i :: 0 <= i < n ==> r[i] == b
  {
    seq(n, _ => b)
  }

  /** The two name rules, byte by byte: an id begins with `a` to `z`, goes on with those, digits, `_`, `.` and
      `-`, and has at most 128 bytes; a pool is letters, digits, `_` and `-`. */
  lemma NameRules(b: Byte, n: nat)
    ensures ValidId([b]) <==> 0x61 <= b <= 0x7A
    ensures ValidId([0x61, b]) <==>
              0x61 <= b <= 0x7A || 0x30 <= b <= 0x39 || b == 0x5F || b == 0x2E || b == 0x2D
    ensures ValidId(Repeat(0x61, n)) <==> 1 <= n <= 128
    ensures ValidPool([b]) <==>
              0x61 <= b <= 0x7A || 0x41 <= b <= 0x5A || 0x30 <= b <= 0x39 || b == 0x5F || b == 0x2D
  {
    var two := [0x61, b];
    assert two[1] == b;
    var one := [b];
    assert one[0] == b;
  }

  /** `params`: absent, or a list of type names and nulls. */
  predicate ParamsHaveShape(params: Json) {
    || params.Null?
    || (&& params.Arr? && IsList(params.entries)
        && forall i :: 0 <= i < |params.entries| ==> OptionalString(params.entries[i].value))
  }

  /** One of `columns`: a string `name` and `type`, and a tag that is absent or a byte. */
  predicate ColumnHasShape(c: Json) {
    && c.Arr? && OnlyNames(c.entries, {NAME, TAG, TYPE})
    && Get(c.entries, NAME).Str? && Get(c.entries, TYPE).Str?
    && var tag := Get(c.entries, TAG); tag.Null? || (tag.Int? && 0 <= tag.n <= 255)
  }

  predicate ColumnsHaveShape(columns: Json) {
    || columns.Null?
    || (&& columns.Arr? && IsList(columns.entries)
        && forall i :: 0 <= i < |columns.entries| ==> ColumnHasShape(columns.entries[i].value))
  }

  /** The fields of a query that the hash covers, and what may stand beside them. */
  datatype Fields = Fields(sql: Json, pool: Json, readonly: Json, idempotent: Json, dto: Json, source: Json)

  function FieldsOf(q: Json): Fields
    requires q.Arr?
  {
    var e := q.entries;
    Fields(Get(e, SQL), Get(e, POOL), Get(e, READONLY), Get(e, IDEMPOTENT), Get(e, DTO), Get(e, SOURCE))
  }

  predicate FieldsHaveTypes(f: Fields) {
    && f.sql.Str? && f.sql.text != []
    && f.pool.Str? && f.pool.text != []
    && f.readonly.Bool? && f.idempotent.Bool?
    && OptionalString(f.dto) && OptionalString(f.source)
  }

  predicate ShapesAreRight(q: Json)
    requires q.Arr?
  {
    ParamsHaveShape(Get(q.entries, PARAMS)) && ColumnsHaveShape(Get(q.entries, COLUMNS))
  }

  function ParseFields(id: Text, f: Fields, surrounded: Text -> bool): Result<Query, ManifestError> {
    if !FieldsHaveTypes(f) then Err(InvalidFields(id))
    else if !ValidPool(f.pool.text) then Err(InvalidPool(id))
    else if surrounded(f.sql.text) then Err(NotTrimmed(id))
    else
      Ok(Query(id, Decl(f.sql.text, f.pool.text, f.readonly.flag, f.idempotent.flag),
               if f.dto.Str? then Some(f.dto.text) else None))
  }

  /** A declaration the engine's own loader would take too. */
  predicate IsAcceptable(raw: Raw, surrounded: Text -> bool) {
    && ValidId(raw.id) && IsObject(raw.query) && HasOnlyQueryFields(raw.query) && ShapesAreRight(raw.query)
    && var f := FieldsOf(raw.query);
       FieldsHaveTypes(f) && ValidPool(f.pool.text) && !surrounded(f.sql.text)
  }

  predicate HasOnlyQueryFields(q: Json)
    requires q.Arr?
  {
    OnlyNames(q.entries, {SQL, POOL, READONLY, IDEMPOTENT, DTO, SOURCE, PARAMS, COLUMNS})
  }

  function ParseQuery(raw: Raw, surrounded: Text -> bool): (r: Result<Query, ManifestError>)
    ensures r.Ok? ==> ValidId(raw.id) && r.value.id == raw.id && Says(raw, r.value.decl)
    ensures r.Err? ==> r.error !in {NotJson, NotAnObject, UnknownField, UnsupportedVersion, NoQueries, EditedAfterwards}
  {
    if !ValidId(raw.id) then Err(InvalidId(raw.id))
    else if !IsObject(raw.query) then Err(QueryNotAnObject(raw.id))
    else if !HasOnlyQueryFields(raw.query) then Err(UnknownQueryField(raw.id))
    else if !ShapesAreRight(raw.query) then Err(InvalidShapes(raw.id))
    else ParseFields(raw.id, FieldsOf(raw.query), surrounded)
  }

  /** Exactly the acceptable declarations are accepted. */
  lemma AcceptedIff(raw: Raw, surrounded: Text -> bool)
    ensures ParseQuery(raw, surrounded).Ok? <==> IsAcceptable(raw, surrounded)
  {
  }

  /** The document says `id` is `d`. */
  ghost predicate Declares(raw: seq<Raw>, id: Text, d: Decl) {
    exists i :: 0 <= i < |raw| && raw[i].id == id && Says(raw[i], d)
  }

  predicate Says(raw: Raw, d: Decl) {
    && raw.query.Arr?
    && var f := FieldsOf(raw.query);
       && f.sql == Str(d.sql) && f.pool == Str(d.pool)
       && f.readonly == Bool(d.readonly) && f.idempotent == Bool(d.idempotent)
  }

  // ---------------------------------------------------------------------------------------------
  // Byte order

  /** `ksort(..., SORT_STRING)`: bytes, then length. */
  predicate Less(a: Text, b: Text) {
    b != [] && (a == [] || a[0] < b[0] || (a[0] == b[0] && Less(a[1..], b[1..])))
  }

  lemma {:induction false} LessIsTotal(a: Text, b: Text)
    ensures Less(a, b) || a == b || Less(b, a)
    ensures !(Less(a, b) && Less(b, a))
    ensures !Less(a, a)
  {
    if a != [] && b != [] {
      LessIsTotal(a[1..], b[1..]);
      assert a == [a[0]] + a[1..] && b == [b[0]] + b[1..];
    } else if a != [] {
      LessIsTotal(a[1..], []);
    }
  }

  lemma {:induction false} LessIsTransitive(a: Text, b: Text, c: Text)
    requires Less(a, b) && Less(b, c)
    ensures Less(a, c)
  {
    if a != [] && a[0] == b[0] == c[0] {
      LessIsTransitive(a[1..], b[1..], c[1..]);
    }
  }

  /** Some place is the first where the two differ, and there `a` ends or has the smaller byte. */
  predicate ComesFirst(a: Text, b: Text, k: int) {
    0 <= k <= |a| && k <= |b| && a[..k] == b[..k] && k < |b| && (k < |a| ==> a[k] < b[k])
  }

  lemma SameFirst(a: Text, b: Text, k: int)
    requires ComesFirst(a, b, k)
    ensures k > 0 ==> a != [] && b != [] && a[0] == b[0]
  {
    if k > 0 {
      assert a[..k][0] == a[0] && b[..k][0] == b[0];
    }
  }

  /** Byte order: at the first place where they differ, the smaller has ended or has the smaller byte. */
  lemma {:induction false} LessIsLexicographic(a: Text, b: Text)
    ensures Less(a, b) <==> exists k :: ComesFirst(a, b, k)
    decreases |a|
  {
    if a == [] || b == [] || a[0] != b[0] {
      if b != [] && (a == [] || a[0] < b[0]) {
        assert ComesFirst(a, b, 0);
      }
      forall k | ComesFirst(a, b, k) ensures k == 0 {
        SameFirst(a, b, k);
      }
    } else {
      LessIsLexicographic(a[1..], b[1..]);
      if k :| ComesFirst(a[1..], b[1..], k) {
        assert a[..k + 1] == [a[0]] + a[1..][..k] && b[..k + 1] == [b[0]] + b[1..][..k];
        assert ComesFirst(a, b, k + 1);
      }
      if k :| ComesFirst(a, b, k) {
        assert k > 0;
        assert a[1..][..k - 1] == a[..k][1..] && b[1..][..k - 1] == b[..k][1..];
        assert ComesFirst(a[1..], b[1..], k - 1);
      }
    }
  }

  ghost predicate InOrder(s: seq<Query>) {
    forall i, j :: 0 <= i < j < |s| ==> Less(s[i].id, s[j].id)
  }

  predicate DistinctIds(raw: seq<Raw>) {
    forall i, j :: 0 <= i < j < |raw| ==> raw[i].id != raw[j].id
  }

  function Insert(q: Query, s: seq<Query>): (r: seq<Query>)
    ensures multiset(r) == multiset(s) + multiset{q}
  {
    if s == [] then [q]
    else if Less(q.id, s[0].id) then [q] + s
    else
      var r := Insert(q, s[1..]);
      assert s == [s[0]] + s[1..];
      [s[0]] + r
  }

  function Sort(s: seq<Query>): (r: seq<Query>)
    ensures multiset(r) == multiset(s)
  {
    if s == [] then []
    else
      assert s == s[..|s| - 1] + [s[|s| - 1]];
      Insert(s[|s| - 1], Sort(s[..|s| - 1]))
  }

  lemma InsertMembers(q: Query, s: seq<Query>, x: Query)
    ensures x in Insert(q, s) <==> x == q || x in s
  {
    assert x in Insert(q, s) <==> x in multiset(Insert(q, s));
    assert x in s <==> x in multiset(s);
  }

  lemma PrependInOrder(q: Query, s: seq<Query>)
    requires InOrder(s) && forall x :: x in s ==> Less(q.id, x.id)
    ensures InOrder([q] + s)
  {
    var r := [q] + s;
    forall i, j | 0 <= i < j < |r|
      ensures Less(r[i].id, r[j].id)
    {
      assert r[j] == s[j - 1];
    }
  }

  lemma {:induction false} InsertInOrder(q: Query, s: seq<Query>)
    requires InOrder(s) && forall x :: x in s ==> x.id != q.id
    ensures InOrder(Insert(q, s))
  {
    if s == [] {
    } else if Less(q.id, s[0].id) {
      forall x | x in s
        ensures Less(q.id, x.id)
      {
        var i :| 0 <= i < |s| && s[i] == x;
        if i > 0 { LessIsTransitive(q.id, s[0].id, s[i].id); }
      }
      PrependInOrder(q, s);
    } else {
      assert s[0] in s;
      LessIsTotal(q.id, s[0].id);
      InsertInOrder(q, s[1..]);
      forall x | x in Insert(q, s[1..])
        ensures Less(s[0].id, x.id)
      {
        InsertMembers(q, s[1..], x);
      }
      PrependInOrder(s[0], Insert(q, s[1..]));
    }
  }

  lemma {:induction false} SortInOrder(s: seq<Query>)
    requires forall i, j :: 0 <= i < j < |s| ==> s[i].id != s[j].id
    ensures InOrder(Sort(s))
  {
    if s != [] {
      var front, q := s[..|s| - 1], s[|s| - 1];
      SortInOrder(front);
      forall x | x in Sort(front)
        ensures x.id != q.id
      {
        assert x in multiset(front);
      }
      InsertInOrder(q, Sort(front));
    }
  }

  // ---------------------------------------------------------------------------------------------
  // Order makes the list a function of its declarations

  ghost predicate Listed(s: seq<Query>, id: Text, d: Decl) {
    exists j :: 0 <= j < |s| && s[j].id == id && s[j].decl == d
  }

  ghost predicate Within(a: seq<Query>, b: seq<Query>) {
    forall id, d :: Listed(a, id, d) ==> Listed(b, id, d)
  }

  lemma Found(a: seq<Query>, b: seq<Query>, i: nat) returns (j: nat)
    requires Within(a, b) && i < |a|
    ensures j < |b| && Alike(a[i], b[j])
  {
    assert Listed(a, a[i].id, a[i].decl);
    j :| 0 <= j < |b| && b[j].id == a[i].id && b[j].decl == a[i].decl;
  }

  lemma HeadsAlike(a: seq<Query>, b: seq<Query>)
    requires InOrder(a) && InOrder(b) && a != [] && b != [] && Within(a, b) && Within(b, a)
    ensures Alike(a[0], b[0])
  {
    var j := Found(a, b, 0);
    var i := Found(b, a, 0);
    if 0 < i && 0 < j {
      NotBothLess(a[0].id, b[0].id);
    }
  }

  lemma NotBothLess(a: Text, b: Text)
    ensures !(Less(a, b) && Less(b, a))
  {
    LessIsTotal(a, b);
  }

  lemma TailWithin(a: seq<Query>, b: seq<Query>)
    requires InOrder(a) && a != [] && b != [] && Within(a, b) && Alike(a[0], b[0])
    ensures Within(a[1..], b[1..])
  {
    forall id, d | Listed(a[1..], id, d)
      ensures Listed(b[1..], id, d)
    {
      var i :| 0 <= i < |a[1..]| && a[1..][i].id == id && a[1..][i].decl == d;
      var j := Found(a, b, i + 1);
      assert Less(a[0].id, a[i + 1].id);
      if j == 0 {
        NotBothLess(a[0].id, a[0].id);
      }
      assert b[1..][j - 1] == b[j];
    }
  }

  lemma AlikeIsWithin(a: seq<Query>, b: seq<Query>)
    requires AllAlike(a, b)
    ensures Within(a, b)
  {
    forall id, d | Listed(a, id, d)
      ensures Listed(b, id, d)
    {
      var j :| 0 <= j < |a| && a[j].id == id && a[j].decl == d;
      assert Alike(a[j], b[j]);
    }
  }

  lemma {:induction false} WithinIsAlike(a: seq<Query>, b: seq<Query>)
    requires InOrder(a) && InOrder(b) && Within(a, b) && Within(b, a)
    ensures AllAlike(a, b)
    decreases |a|
  {
    if a == [] && b != [] {
      var j := Found(b, a, 0);
    } else if a != [] && b == [] {
      var j := Found(a, b, 0);
    } else if a != [] {
      HeadsAlike(a, b);
      TailWithin(a, b);
      TailWithin(b, a);
      WithinIsAlike(a[1..], b[1..]);
      assert forall i :: 1 <= i < |a| ==> a[i] == a[1..][i - 1];
      assert forall i :: 1 <= i < |b| ==> b[i] == b[1..][i - 1];
    }
  }

  // ---------------------------------------------------------------------------------------------
  // Loading

  /** The loaded list holds exactly what the document declares, in byte order of the ids. */
  ghost predicate Faithful(raw: seq<Raw>, queries: seq<Query>) {
    && queries != [] && |queries| == |raw|
    && InOrder(queries)
    && (forall id, d :: Declares(raw, id, d) <==> Listed(queries, id, d))
  }

  ghost predicate SameDeclarations(raw: seq<Raw>, raw': seq<Raw>) {
    forall id, d :: Declares(raw, id, d) <==> Declares(raw', id, d)
  }

  /** The hash covers the declarations and nothing else: two accepted documents have the same
      canonical bytes exactly when they declare the same ids with the same declarations. */
  lemma HashCoversTheDeclarations(raw: seq<Raw>, queries: seq<Query>, raw': seq<Raw>, queries': seq<Query>)
    requires Faithful(raw, queries) && Faithful(raw', queries')
    ensures Canonical(queries) == Canonical(queries') <==> SameDeclarations(raw, raw')
  {
    CanonicalIff(queries, queries');
    if AllAlike(queries, queries') {
      AlikeIsWithin(queries, queries');
      AlikeIsWithin(queries', queries);
    }
    if SameDeclarations(raw, raw') {
      WithinIsAlike(queries, queries');
    }
  }

  ghost predicate AllParse(raw: seq<Raw>, surrounded: Text -> bool, parsed: seq<Query>) {
    |parsed| == |raw| && forall i :: 0 <= i < |raw| ==> ParseQuery(raw[i], surrounded) == Ok(parsed[i])
  }

  /** The lists hold the same queries, each at some place of the other. */
  lemma PlaceIn(s: seq<Query>, t: seq<Query>, i: nat) returns (j: nat)
    requires multiset(s) == multiset(t) && i < |s|
    ensures j < |t| && t[j] == s[i]
  {
    assert s[i] in multiset(s);
    assert s[i] in t;
    j :| 0 <= j < |t| && t[j] == s[i];
  }

  lemma ParsedKeepsIds(raw: seq<Raw>, surrounded: Text -> bool, parsed: seq<Query>)
    requires AllParse(raw, surrounded, parsed) && DistinctIds(raw)
    ensures forall i, j :: 0 <= i < j < |parsed| ==> parsed[i].id != parsed[j].id
  {
    assert forall i :: 0 <= i < |raw| ==> parsed[i].id == raw[i].id;
  }

  lemma SortedIsFaithful(raw: seq<Raw>, surrounded: Text -> bool, parsed: seq<Query>)
    requires raw != [] && AllParse(raw, surrounded, parsed) && DistinctIds(raw)
    ensures Faithful(raw, Sort(parsed))
  {
    ParsedKeepsIds(raw, surrounded, parsed);
    SortInOrder(parsed);
    ListedAsDeclared(raw, surrounded, parsed, Sort(parsed));
  }

  lemma ListedAsDeclared(raw: seq<Raw>, surrounded: Text -> bool, parsed: seq<Query>, sorted: seq<Query>)
    requires AllParse(raw, surrounded, parsed) && multiset(parsed) == multiset(sorted)
    ensures |sorted| == |raw| && forall id, d :: Declares(raw, id, d) <==> Listed(sorted, id, d)
  {
    assert |sorted| == |multiset(sorted)| && |multiset(parsed)| == |parsed|;
    forall id, d
      ensures Declares(raw, id, d) <==> Listed(sorted, id, d)
    {
      if Declares(raw, id, d) {
        var i :| 0 <= i < |raw| && raw[i].id == id && Says(raw[i], d);
        var j := PlaceIn(parsed, sorted, i);
      }
      if Listed(sorted, id, d) {
        var j :| 0 <= j < |sorted| && sorted[j].id == id && sorted[j].decl == d;
        var i := PlaceIn(sorted, parsed, j);
        assert raw[i].id == id && Says(raw[i], d);
      }
    }
  }

  /** `canonical`: one part per query, then joined. */
  method BuildCanonical(queries: seq<Query>) returns (out: Text)
    ensures out == Canonical(queries)
  {
    var parts: seq<Text> := [];
    for i := 0 to |queries|
      invariant |parts| == i
      invariant forall k :: 0 <= k < i ==> parts[k] == Part(queries[k].id, queries[k].decl)
    {
      parts := parts + [Part(queries[i].id, queries[i].decl)];
    }
    assert parts == PartsOf(queries);
    out := Framed(Implode(parts));
  }

  /** The first entry that does not parse, if any. */
  ghost predicate FirstRefusal(raw: seq<Raw>, surrounded: Text -> bool, k: int) {
    && 0 <= k < |raw| && ParseQuery(raw[k], surrounded).Err?
    && forall i :: 0 <= i < k ==> ParseQuery(raw[i], surrounded).Ok?
  }

  /** The recorded hash, when there is one, is not that of the declarations. */
  ghost predicate Edited(raw: seq<Raw>, recorded: Json, sha: Text -> Text) {
    !recorded.Null? && forall queries :: Faithful(raw, queries) ==> recorded != Str(sha(Canonical(queries)))
  }

  function RawsOf(entries: seq<Entry>): (r: seq<Raw>)
    ensures |r| == |entries|
    ensures forall i :: 0 <= i < |entries| ==> r[i] == Raw(KeyText(entries[i].key), entries[i].value)
  {
    seq(|entries|, i requires 0 <= i < |entries| => Raw(KeyText(entries[i].key), entries[i].value))
  }

  /** Valid ids come from names, never from integer keys, so distinct keys give distinct ids. */
  lemma ValidIdsAreDistinct(entries: seq<Entry>)
    requires DistinctKeys(entries) && forall i :: 0 <= i < |entries| ==> ValidId(KeyText(entries[i].key))
    ensures DistinctIds(RawsOf(entries))
  {
    forall i | 0 <= i < |entries| ensures entries[i].key.Name? {
    }
  }

  /** Why a document is refused before its queries are looked at, if it is. */
  function HeaderError(doc: Json): (r: Option<ManifestError>)
    ensures r != Some(NotJson)
  {
    if !IsObject(doc) then Some(NotAnObject)
    else if !OnlyNames(doc.entries, {VERSION, HASH, QUERIES}) then Some(UnknownField)
    else if Get(doc.entries, VERSION) != Int(1) then Some(UnsupportedVersion)
    else
      var queries := Get(doc.entries, QUERIES);
      if !queries.Arr? || queries.entries == [] || IsList(queries.entries) then Some(NoQueries) else None
  }

  /** The queries of a document that passed those checks. */
  function QueriesOf(doc: Json): (r: seq<Entry>)
    requires HeaderError(doc).None?
    ensures r != [] && (IsPhp(doc) ==> DistinctKeys(r))
  {
    assert IsPhp(doc) ==> IsPhp(Get(doc.entries, QUERIES)) by {
      if IsPhp(doc) {
        GetIsPhp(doc, QUERIES);
      }
    }
    Get(doc.entries, QUERIES).entries
  }

  /** `fromJson`: text that does not decode is refused, whatever the decoder is. */
  method FromJson(json: Text, decode: Text -> Option<Json>, sha: Text -> Text, surrounded: Text -> bool)
    returns (r: Result<Loaded, ManifestError>)
    requires decode(json).Some? ==> IsPhp(decode(json).value)
    ensures decode(json).None? <==> r == Err(NotJson)
    ensures decode(json).Some? ==> IsLoaded(r, decode(json).value, sha, surrounded)
  {
    var doc := decode(json);
    if doc.None? {
      return Err(NotJson);
    }
    r := FromDocument(doc.value, sha, surrounded);
    if HeaderError(doc.value).None? {
      NeverNotJson(r, RawsOf(QueriesOf(doc.value)), Get(doc.value.entries, HASH), sha, surrounded);
    }
  }

  lemma NeverNotJson(
    r: Result<Loaded, ManifestError>, raw: seq<Raw>, recorded: Json, sha: Text -> Text, surrounded: Text -> bool)
    requires Loads(r, raw, recorded, sha, surrounded)
    ensures r != Err(NotJson)
  {
    if r.Err? && exists k :: FirstRefusal(raw, surrounded, k) {
      var k :| FirstRefusal(raw, surrounded, k);
      assert r == Err(ParseQuery(raw[k], surrounded).error);
    }
  }

  /** What loading a document answers. */
  ghost predicate IsLoaded(r: Result<Loaded, ManifestError>, doc: Json, sha: Text -> Text, surrounded: Text -> bool)
    requires IsPhp(doc)
  {
    if HeaderError(doc).Some? then r == Err(HeaderError(doc).value)
    else Loads(r, RawsOf(QueriesOf(doc)), Get(doc.entries, HASH), sha, surrounded)
  }

  /** The decoded document: its own checks, then its queries. */
  method FromDocument(doc: Json, sha: Text -> Text, surrounded: Text -> bool) returns (r: Result<Loaded, ManifestError>)
    requires IsPhp(doc)
    ensures IsLoaded(r, doc, sha, surrounded)
  {
    var error := HeaderError(doc);
    if error.Some? {
      return Err(error.value);
    }
    r := LoadQueries(QueriesOf(doc), Get(doc.entries, HASH), sha, surrounded);
  }

  /** What loading the queries answers: the first refused entry's error; or the hash disagrees; or the
      declarations in byte order of their ids, with the hash of their canonical bytes. */
  ghost predicate Loads(
    r: Result<Loaded, ManifestError>, raw: seq<Raw>, recorded: Json, sha: Text -> Text, surrounded: Text -> bool)
  {
    && (r.Ok? ==>
          && Faithful(raw, r.value.queries) && r.value.hash == sha(Canonical(r.value.queries))
          && (recorded.Null? || recorded == Str(r.value.hash))
          && exists parsed :: AllParse(raw, surrounded, parsed) && multiset(parsed) == multiset(r.value.queries))
    && (forall k :: FirstRefusal(raw, surrounded, k) ==> r == Err(ParseQuery(raw[k], surrounded).error))
    && (r.Err? ==>
          || (exists k :: FirstRefusal(raw, surrounded, k))
          || (r == Err(EditedAfterwards) && Edited(raw, recorded, sha)))
  }

  /** The first entry that `parse` refuses. */
  ghost predicate RefusedAt(raw: seq<Raw>, parse: Raw -> Result<Query, ManifestError>, k: int) {
    0 <= k < |raw| && parse(raw[k]).Err? && forall i :: 0 <= i < k ==> parse(raw[i]).Ok?
  }

  /** `parse` of every entry in order, up to the first it refuses. */
  method ParseEach(entries: seq<Entry>, parse: Raw -> Result<Query, ManifestError>)
    returns (r: Result<seq<Query>, ManifestError>)
    ensures r.Ok? ==>
              && |r.value| == |entries|
              && forall i :: 0 <= i < |entries| ==> parse(RawsOf(entries)[i]) == Ok(r.value[i])
    ensures r.Err? ==> exists k :: RefusedAt(RawsOf(entries), parse, k)
    ensures forall k :: RefusedAt(RawsOf(entries), parse, k) ==> r == Err(parse(RawsOf(entries)[k]).error)
  {
    ghost var raw := RawsOf(entries);
    var parsed: seq<Query> := [];
    for k := 0 to |entries|
      invariant |parsed| == k
      invariant forall i :: 0 <= i < k ==> parse(raw[i]) == Ok(parsed[i])
    {
      var q := parse(Raw(KeyText(entries[k].key), entries[k].value));
      if q.Err? {
        assert RefusedAt(raw, parse, k);
        return Err(q.error);
      }
      parsed := parsed + [q.value];
    }
    r := Ok(parsed);
  }

  function Parser(surrounded: Text -> bool): Raw -> Result<Query, ManifestError> {
    (raw: Raw) => ParseQuery(raw, surrounded)
  }

  lemma RefusedFirst(raw: seq<Raw>, surrounded: Text -> bool, k: int)
    ensures FirstRefusal(raw, surrounded, k) <==> RefusedAt(raw, Parser(surrounded), k)
  {
  }

  /** Every entry parsed in its place, or the error of the first that is refused. */
  method ParseAll(entries: seq<Entry>, surrounded: Text -> bool) returns (r: Result<seq<Query>, ManifestError>)
    ensures r.Ok? ==> AllParse(RawsOf(entries), surrounded, r.value)
    ensures r.Err? ==> exists k :: FirstRefusal(RawsOf(entries), surrounded, k)
    ensures forall k :: FirstRefusal(RawsOf(entries), surrounded, k) ==>
              r == Err(ParseQuery(RawsOf(entries)[k], surrounded).error)
  {
    ghost var raw := RawsOf(entries);
    r := ParseEach(entries, Parser(surrounded));
    forall k ensures FirstRefusal(raw, surrounded, k) <==> RefusedAt(raw, Parser(surrounded), k) {
      RefusedFirst(raw, surrounded, k);
    }
  }

  lemma ParsedIdsAreDistinct(entries: seq<Entry>, surrounded: Text -> bool, parsed: seq<Query>)
    requires DistinctKeys(entries) && AllParse(RawsOf(entries), surrounded, parsed)
    ensures DistinctIds(RawsOf(entries))
  {
    forall i | 0 <= i < |entries| ensures ValidId(KeyText(entries[i].key)) {
      assert ParseQuery(RawsOf(entries)[i], surrounded).Ok?;
    }
    ValidIdsAreDistinct(entries);
  }

  method LoadQueries(entries: seq<Entry>, recorded: Json, sha: Text -> Text, surrounded: Text -> bool)
    returns (r: Result<Loaded, ManifestError>)
    requires DistinctKeys(entries) && entries != []
    ensures Loads(r, RawsOf(entries), recorded, sha, surrounded)
  {
    var parsed := ParseAll(entries, surrounded);
    if parsed.Err? {
      return Err(parsed.error);
    }
    ParsedIdsAreDistinct(entries, surrounded, parsed.value);
    SortedIsFaithful(RawsOf(entries), surrounded, parsed.value);
    r := Finish(RawsOf(entries), Sort(parsed.value), recorded, sha);
  }

  /** The hash of the sorted queries, against the recorded one. */
  method Finish(ghost raw: seq<Raw>, queries: seq<Query>, recorded: Json, sha: Text -> Text)
    returns (r: Result<Loaded, ManifestError>)
    requires Faithful(raw, queries)
    ensures r.Ok? ==> r.value == Loaded(queries, sha(Canonical(queries)))
    ensures r.Ok? ==> recorded.Null? || recorded == Str(r.value.hash)
    ensures r.Err? ==> r == Err(EditedAfterwards) && Edited(raw, recorded, sha)
  {
    var canonical := BuildCanonical(queries);
    var hash := sha(canonical);
    if !recorded.Null? && recorded != Str(hash) {
      forall other | Faithful(raw, other)
        ensures Canonical(other) == canonical
      {
        HashCoversTheDeclarations(raw, queries, raw, other);
      }
      return Err(EditedAfterwards);
    }
    r := Ok(Loaded(queries, hash));
  }

  // ---------------------------------------------------------------------------------------------
  // Which documents load

  /** A version-1 manifest with at least one query, all of them acceptable, and nothing unknown. */
  predicate IsManifest(doc: Json, surrounded: Text -> bool) {
    && doc.Arr? && (!IsList(doc.entries) || doc.entries == [])
    && OnlyNames(doc.entries, {VERSION, HASH, QUERIES}) && Get(doc.entries, VERSION) == Int(1)
    && Get(doc.entries, QUERIES).Arr?
    && var queries := Get(doc.entries, QUERIES).entries;
       && queries != [] && !IsList(queries)
       && forall i :: 0 <= i < |queries| ==> IsAcceptable(Raw(KeyText(queries[i].key), queries[i].value), surrounded)
  }

  lemma {:induction false} SomeRefusal(raw: seq<Raw>, surrounded: Text -> bool, n: nat)
    requires n < |raw| && ParseQuery(raw[n], surrounded).Err?
    ensures exists k :: FirstRefusal(raw, surrounded, k)
    decreases n
  {
    if forall i :: 0 <= i < n ==> ParseQuery(raw[i], surrounded).Ok? {
      assert FirstRefusal(raw, surrounded, n);
    } else {
      var i :| 0 <= i < n && ParseQuery(raw[i], surrounded).Err?;
      SomeRefusal(raw, surrounded, i);
    }
  }

  lemma RefusesIff(raw: seq<Raw>, surrounded: Text -> bool)
    ensures (exists k :: FirstRefusal(raw, surrounded, k)) <==>
            exists i :: 0 <= i < |raw| && !IsAcceptable(raw[i], surrounded)
  {
    if k :| FirstRefusal(raw, surrounded, k) {
      AcceptedIff(raw[k], surrounded);
    }
    if i :| 0 <= i < |raw| && !IsAcceptable(raw[i], surrounded) {
      AcceptedIff(raw[i], surrounded);
      SomeRefusal(raw, surrounded, i);
    }
  }

  /** A document loads if and only if it is such a manifest and its recorded hash, if it has one, is that of
      its declarations: without a recorded hash every such manifest loads, and nothing else ever does. */
  lemma LoadsIff(r: Result<Loaded, ManifestError>, doc: Json, sha: Text -> Text, surrounded: Text -> bool)
    requires IsPhp(doc) && IsLoaded(r, doc, sha, surrounded)
    ensures r.Ok? ==> IsManifest(doc, surrounded)
    ensures IsManifest(doc, surrounded) && r.Err? ==>
              r == Err(EditedAfterwards) && Edited(RawsOf(QueriesOf(doc)), Get(doc.entries, HASH), sha)
    ensures IsManifest(doc, surrounded) && Get(doc.entries, HASH).Null? ==> r.Ok?
  {
    if HeaderError(doc).None? {
      var raw := RawsOf(QueriesOf(doc));
      RefusesIff(raw, surrounded);
      if r.Ok? {
        assert forall k :: !FirstRefusal(raw, surrounded, k);
        forall i | 0 <= i < |raw| ensures IsAcceptable(raw[i], surrounded) {
        }
      }
      if IsManifest(doc, surrounded) {
        forall i | 0 <= i < |raw| ensures IsAcceptable(raw[i], surrounded) {
        }
      }
    }
  }
}
