/** Quoting a string as an SQL literal that means the same bytes in every escape mode.

    The readers follow PostgreSQL's sections 4.1.2.1 (String Constants), 4.1.2.2 (String Constants
    with C-Style Escapes) and 4.1.5 (Comments), MySQL's String Literals, Hexadecimal Literals and
    Comments, and SQLite's literals. PostgreSQL and MySQL go on with a literal across a gap: PostgreSQL
    when the gap holds a newline, MySQL across any gap. Whether a MySQL comment such as `/*! ... */` is
    code depends on the server's version, so that is an arbitrary function of the comment's text. Escape
    forms the quoter never writes (octal, hexadecimal and Unicode ones) are not read.
 */
module Quote {
  import opened Utf8
  import opened Texts
  import opened Wrappers

  const QUOTE: Byte := 0x27
  const DQUOTE: Byte := 0x22
  const BACKSLASH: Byte := 0x5C
  const DASH: Byte := 0x2D
  const SLASH: Byte := 0x2F
  const STAR: Byte := 0x2A
  const HASH: Byte := 0x23

  datatype Family = Postgres | MySql | Sqlite | UnknownFamily

  // ---------------------------------------------------------------------------------------------
  // The quoter

  /** Every byte of `specials` doubled. */
  function Doubled(s: seq<Byte>, specials: set<Byte>): (r: seq<Byte>) {
    if s == [] then []
    else (if s[0] in specials then [s[0], s[0]] else [s[0]]) + Doubled(s[1..], specials)
  }

  function Bin2Hex(s: seq<Byte>): (r: seq<Byte>) {
    if s == [] then [] else [HexByte(s[0] / 16), HexByte(s[0] % 16)] + Bin2Hex(s[1..])
  }

  /** `_utf8mb4 X'`. */
  const HEX_INTRODUCER: seq<Byte> := [0x5F, 0x75, 0x74, 0x66, 0x38, 0x6D, 0x62, 0x34, 0x20, 0x58, QUOTE]

  /** `E'`. */
  const ESCAPE_INTRODUCER: seq<Byte> := [0x45, QUOTE]

  function Plain(s: seq<Byte>): seq<Byte> {
    [QUOTE] + Doubled(s, {QUOTE}) + [QUOTE]
  }

  /** `FerroPdoShim::quote` for a string parameter; an unknown family is refused. */
  function QuoteString(family: Family, s: seq<Byte>): (r: Option<seq<Byte>>) {
    if family == UnknownFamily then None
    else if BACKSLASH !in s then Some(Plain(s))
    else
      match family
      case Postgres => Some(ESCAPE_INTRODUCER + Doubled(s, {QUOTE, BACKSLASH}) + [QUOTE])
      case MySql => Some(HEX_INTRODUCER + Bin2Hex(s) + [QUOTE])
      case _ => Some(Plain(s))
  }

  /** A family whose literals are not known is refused, and no other. */
  lemma RefusedIff(family: Family, s: seq<Byte>)
    ensures QuoteString(family, s).None? <==> family == UnknownFamily
  {
  }

  /** How the two special forms begin. */
  lemma Introducers()
    ensures HEX_INTRODUCER == Lit("_utf8mb4 X'") && ESCAPE_INTRODUCER == Lit("E'")
  {
  }

  // ---------------------------------------------------------------------------------------------
  // The readers

  /** How a reader treats a backslash inside a literal: as itself, or by a table of escapes. */
  datatype Backslash = Ordinary | PgEscapes | MySqlEscapes

  /** What `\\c` stands for, when the reader knows the escape. */
  function Escape(mode: Backslash, c: Byte): Option<seq<Byte>> {
    if c == 0x62 then Some([0x08])
    else if c == 0x6E then Some([0x0A])
    else if c == 0x72 then Some([0x0D])
    else if c == 0x74 then Some([0x09])
    else if mode == PgEscapes then
      if c == 0x66 then Some([0x0C])
      else if 0x30 <= c <= 0x37 || c == 0x78 || c == 0x75 || c == 0x55 then None
      else Some([c])
    else
      if c == 0x30 then Some([0x00])
      else if c == 0x5A then Some([0x1A])
      else if c == 0x25 || c == 0x5F then Some([BACKSLASH, c])
      else Some([c])
  }

  /** How a reader goes on with a literal after an undoubled closing quote. */
  datatype Joining =
    | Never
    | AcrossNewline              // PostgreSQL
    // MySQL; with `dquotes`, a double quote opens a string too. For the text after `/*`, `executes` says
    // how many bytes to skip if the comment is one whose content is code.
    | Anywhere(dquotes: bool, executes: Text -> Option<nat>)

  datatype Reader = Reader(backslash: Backslash, joining: Joining)

  predicate IsNewline(b: Byte) {
    b == 0x0A || b == 0x0D
  }

  predicate IsSpace(b: Byte) {
    b == 0x20 || 0x09 <= b <= 0x0D
  }

  predicate StartsWith2(s: seq<Byte>, a: Byte, b: Byte) {
    |s| >= 2 && s[0] == a && s[1] == b
  }

  predicate IsControl(b: Byte) {
    b < 0x20 || b == 0x7F
  }

  /** PostgreSQL ends a line comment at either line-end byte. */
  function FromLineEnd(s: seq<Byte>): (r: seq<Byte>)
    ensures |r| <= |s|
  {
    if s == [] || IsNewline(s[0]) then s else FromLineEnd(s[1..])
  }

  /** MySQL ends a line comment at a line feed only. */
  function FromLineFeed(s: seq<Byte>): (r: seq<Byte>)
    ensures |r| <= |s|
  {
    if s == [] || s[0] == 0x0A then s else FromLineFeed(s[1..])
  }

  /** The text after the next comment close, or nothing. */
  function AfterComment(s: seq<Byte>): (r: seq<Byte>)
    ensures |r| <= |s|
  {
    if s == [] then [] else if StartsWith2(s, STAR, SLASH) then s[2..] else AfterComment(s[1..])
  }

  /** PostgreSQL's gap: whitespace and `--` comments. `newline` says whether one was crossed. */
  function AfterPgGap(s: seq<Byte>, newline: bool): (r: (seq<Byte>, bool))
    ensures |r.0| <= |s|
    decreases |s|
  {
    if s != [] && IsSpace(s[0]) then AfterPgGap(s[1..], newline || IsNewline(s[0]))
    else if StartsWith2(s, DASH, DASH) then AfterPgGap(FromLineEnd(s[2..]), newline)
    else (s, newline)
  }

  /** MySQL's gap: whitespace and its comments. `--` opens one before whitespace or a control character;
      the content of an executable comment is code, and `open` says whether one is still open. */
  function AfterMySqlGap(s: seq<Byte>, open: bool, executes: Text -> Option<nat>): (r: (seq<Byte>, bool))
    ensures |r.0| <= |s|
    decreases |s|
  {
    if s != [] && IsSpace(s[0]) then AfterMySqlGap(s[1..], open, executes)
    else if s != [] && s[0] == HASH then AfterMySqlGap(FromLineFeed(s[1..]), open, executes)
    else if StartsWith2(s, DASH, DASH) && (|s| == 2 || IsSpace(s[2]) || IsControl(s[2])) then
      AfterMySqlGap(FromLineFeed(s[2..]), open, executes)
    else if StartsWith2(s, SLASH, STAR) then
      var body := s[2..];
      match executes(body)
      case None => AfterMySqlGap(AfterComment(body), open, executes)
      case Some(skip) => AfterMySqlGap(body[if skip <= |body| then skip else |body|..], true, executes)
    else if open && StartsWith2(s, STAR, SLASH) then AfterMySqlGap(s[2..], false, executes)
    else (s, open)
  }

  /** The next part of a literal: the quote that opens it, the text after that quote, and whether an
      executable comment is open there. */
  datatype Part = Part(quote: Byte, body: seq<Byte>, open: bool)

  /** After an undoubled closing quote, the part the literal goes on with, if it does. */
  function NextPart(joining: Joining, s: seq<Byte>, open: bool): (r: Option<Part>)
    ensures r.Some? ==> |r.value.body| < |s|
  {
    match joining
    case Never => None
    case AcrossNewline =>
      var (t, newline) := AfterPgGap(s, false);
      if newline && t != [] && t[0] == QUOTE then Some(Part(QUOTE, t[1..], open)) else None
    case Anywhere(dquotes, executes) =>
      var (t, open') := AfterMySqlGap(s, open, executes);
      if t != [] && (t[0] == QUOTE || (dquotes && t[0] == DQUOTE)) then Some(Part(t[0], t[1..], open')) else None
  }

  datatype Reading = Reading(value: seq<Byte>, rest: seq<Byte>)

  function Prepend(bytes: seq<Byte>, r: Option<Reading>): Option<Reading> {
    if r.Some? then Some(Reading(bytes + r.value.value, r.value.rest)) else None
  }

  /** Read a body closed by `q`, and every part the literal goes on with. */
  function ReadBody(s: seq<Byte>, q: Byte, open: bool, reader: Reader): (r: Option<Reading>)
    ensures r.Some? ==> |r.value.rest| < |s|
    decreases |s|
  {
    if s == [] then None
    else if s[0] == q then
      if |s| > 1 && s[1] == q then Prepend([q], ReadBody(s[2..], q, open, reader))
      else
        match NextPart(reader.joining, s[1..], open)
        case None => Some(Reading([], s[1..]))
        case Some(part) => ReadBody(part.body, part.quote, part.open, reader)
    else if s[0] == BACKSLASH && reader.backslash != Ordinary then
      if |s| < 2 || Escape(reader.backslash, s[1]).None? then None
      else Prepend(Escape(reader.backslash, s[1]).value, ReadBody(s[2..], q, open, reader))
    else Prepend([s[0]], ReadBody(s[1..], q, open, reader))
  }

  function HexValue(b: Byte): Option<int> {
    if 0x30 <= b <= 0x39 then Some(b - 0x30)
    else if 0x61 <= b <= 0x66 then Some(b - 0x61 + 10)
    else if 0x41 <= b <= 0x46 then Some(b - 0x41 + 10)
    else None
  }

  function ReadHex(s: seq<Byte>): (r: Option<Reading>)
    decreases |s|
  {
    if s == [] then None
    else if s[0] == QUOTE then Some(Reading([], s[1..]))
    else if |s| < 2 || HexValue(s[0]).None? || HexValue(s[1]).None? then None
    else
      var b := 16 * HexValue(s[0]).value + HexValue(s[1]).value;
      if 0 <= b < 256 then Prepend([b], ReadHex(s[2..])) else None
  }

  /** A session's settings: is a backslash in a plain literal an ordinary character; on MySQL, does a
      double quote open an identifier rather than a string, and which comments hold code? */
  datatype Session = Session(family: Family, standard: bool, ansiQuotes: bool, executes: Text -> Option<nat>)

  function PlainReader(session: Session): Reader {
    match session.family
    case Postgres => Reader(if session.standard then Ordinary else PgEscapes, AcrossNewline)
    case MySql =>
      Reader(if session.standard then Ordinary else MySqlEscapes, Anywhere(!session.ansiQuotes, session.executes))
    case _ => Reader(Ordinary, Never)
  }

  /** The literal a session reads at the start of `text`, and the text after it. */
  function ReadLiteral(session: Session, text: seq<Byte>): (r: Option<Reading>) {
    if text != [] && text[0] == QUOTE then ReadBody(text[1..], QUOTE, false, PlainReader(session))
    else if session.family == Postgres && ESCAPE_INTRODUCER <= text then
      ReadBody(text[2..], QUOTE, false, Reader(PgEscapes, AcrossNewline))
    else if session.family == MySql && HEX_INTRODUCER <= text then ReadHex(text[11..])
    else None
  }

  // ---------------------------------------------------------------------------------------------
  // What a quoted string denotes

  predicate StartsWithQuote(s: seq<Byte>) {
    s != [] && s[0] == QUOTE
  }

  /** The literal goes on in the text after its closing quote: by doubling the quote, or by a next part. */
  predicate GoesOn(joining: Joining, rest: seq<Byte>) {
    StartsWithQuote(rest) || NextPart(joining, rest, false).Some?
  }

  /** What a reader makes of the text after a closing quote. */
  function AfterClose(rest: seq<Byte>, reader: Reader): Option<Reading> {
    if StartsWithQuote(rest) then Prepend([QUOTE], ReadBody(rest[1..], QUOTE, false, reader))
    else
      match NextPart(reader.joining, rest, false)
      case None => Some(Reading([], rest))
      case Some(part) => ReadBody(part.body, part.quote, part.open, reader)
  }

  /** The bytes a quoter must double for this reader. */
  function Specials(mode: Backslash): set<Byte> {
    if mode == Ordinary then {QUOTE} else {QUOTE, BACKSLASH}
  }

  lemma {:induction false} BodyReadsBack(s: seq<Byte>, reader: Reader, rest: seq<Byte>)
    ensures ReadBody(Doubled(s, Specials(reader.backslash)) + [QUOTE] + rest, QUOTE, false, reader)
         == Prepend(s, AfterClose(rest, reader))
    decreases |s|
  {
    var specials := Specials(reader.backslash);
    var text := Doubled(s, specials) + [QUOTE] + rest;
    if s == [] {
      assert text == [QUOTE] + rest;
      CloseReads(rest, reader);
      PrependNothing(AfterClose(rest, reader));
    } else {
      var tail := Doubled(s[1..], specials) + [QUOTE] + rest;
      BodyReadsBack(s[1..], reader, rest);
      var head := if s[0] in specials then [s[0], s[0]] else [s[0]];
      assert Doubled(s, specials) == head + Doubled(s[1..], specials);
      assert text == head + tail;
      ReadsOne(s[0], head, tail, reader);
      PrependTwice(s, AfterClose(rest, reader));
    }
  }

  lemma CloseReads(rest: seq<Byte>, reader: Reader)
    ensures ReadBody([QUOTE] + rest, QUOTE, false, reader) == AfterClose(rest, reader)
  {
    var text := [QUOTE] + rest;
    assert text[1..] == rest;
    if StartsWithQuote(rest) {
      assert text[2..] == rest[1..];
    }
  }

  lemma PrependNothing(r: Option<Reading>)
    ensures Prepend([], r) == r
  {
    assert r.Some? ==> [] + r.value.value == r.value.value;
  }

  lemma PrependTwice(s: seq<Byte>, r: Option<Reading>)
    requires s != []
    ensures Prepend([s[0]], Prepend(s[1..], r)) == Prepend(s, r)
  {
    if r.Some? {
      assert [s[0]] + (s[1..] + r.value.value) == s + r.value.value;
    }
  }

  /** Without a backslash there is nothing but quotes to double. */
  lemma {:induction false} NoBackslashToDouble(s: seq<Byte>, mode: Backslash)
    requires BACKSLASH !in s
    ensures Doubled(s, {QUOTE}) == Doubled(s, Specials(mode))
    decreases |s|
  {
    if s != [] {
      NoBackslashToDouble(s[1..], mode);
    }
  }

  /** The string is read back, and nothing of the text after it, exactly when the literal does not go on
      there: a literal that goes on takes some of that text with it. */
  lemma ClosedExactly(s: seq<Byte>, reader: Reader, rest: seq<Byte>)
    ensures Prepend(s, AfterClose(rest, reader)) == Some(Reading(s, rest)) <==> !GoesOn(reader.joining, rest)
  {
    assert s + [] == s;
    if GoesOn(reader.joining, rest) && AfterClose(rest, reader).Some? {
      assert |AfterClose(rest, reader).value.rest| < |rest|;
    }
  }

  /** One byte, doubled where the reader needs it doubled, reads as that byte. */
  lemma ReadsOne(c: Byte, head: seq<Byte>, tail: seq<Byte>, reader: Reader)
    requires head == if c == QUOTE || (c == BACKSLASH && reader.backslash != Ordinary) then [c, c] else [c]
    ensures ReadBody(head + tail, QUOTE, false, reader) == Prepend([c], ReadBody(tail, QUOTE, false, reader))
  {
    var text := head + tail;
    assert text[0] == c && text[|head|..] == tail;
    if |head| == 2 {
      assert text[1] == c;
    }
  }

  lemma {:induction false} HexReadsBack(s: seq<Byte>, rest: seq<Byte>)
    ensures ReadHex(Bin2Hex(s) + [QUOTE] + rest) == Some(Reading(s, rest))
    decreases |s|
  {
    var text := Bin2Hex(s) + [QUOTE] + rest;
    if s == [] {
      assert text == [QUOTE] + rest && text[1..] == rest;
    } else {
      HexReadsBack(s[1..], rest);
      assert Bin2Hex(s) == [HexByte(s[0] / 16), HexByte(s[0] % 16)] + Bin2Hex(s[1..]);
      assert text[2..] == Bin2Hex(s[1..]) + [QUOTE] + rest;
      assert text[0] == HexByte(s[0] / 16) && text[1] == HexByte(s[0] % 16);
      assert s == [s[0]] + s[1..];
    }
  }

  /** The literal of a string is a quoted body for the session's reader of it, or hexadecimal. */
  predicate IsHexadecimal(session: Session, s: seq<Byte>) {
    session.family == MySql && BACKSLASH in s
  }

  lemma QuotedReads(session: Session, s: seq<Byte>, rest: seq<Byte>)
    requires session.family != UnknownFamily && !IsHexadecimal(session, s)
    ensures exists reader: Reader ::
              && reader.joining == PlainReader(session).joining
              && ReadLiteral(session, QuoteString(session.family, s).value + rest)
              == Prepend(s, AfterClose(rest, reader))
  {
    var text := QuoteString(session.family, s).value + rest;
    if BACKSLASH in s && session.family == Postgres {
      var reader := Reader(PgEscapes, AcrossNewline);
      assert text[..2] == ESCAPE_INTRODUCER;
      assert text[2..] == Doubled(s, {QUOTE, BACKSLASH}) + [QUOTE] + rest;
      BodyReadsBack(s, reader, rest);
    } else {
      var reader := PlainReader(session);
      assert text[1..] == Doubled(s, {QUOTE}) + [QUOTE] + rest;
      if BACKSLASH !in s {
        NoBackslashToDouble(s, reader.backslash);
      }
      BodyReadsBack(s, reader, rest);
    }
  }

  /** For every string, every family and every session setting: the quoted string followed by any text
      reads as one literal of exactly that value and leaves the text untouched, if and only if the literal
      does not go on in that text (which a hexadecimal literal never does). */
  lemma QuotedDenotesItself(session: Session, s: seq<Byte>, rest: seq<Byte>)
    requires session.family != UnknownFamily
    ensures QuoteString(session.family, s).Some?
    ensures ReadLiteral(session, QuoteString(session.family, s).value + rest) == Some(Reading(s, rest))
       <==> !GoesOn(PlainReader(session).joining, rest) || IsHexadecimal(session, s)
  {
    if IsHexadecimal(session, s) {
      var text := QuoteString(session.family, s).value + rest;
      assert text[..11] == HEX_INTRODUCER;
      assert text[11..] == Bin2Hex(s) + [QUOTE] + rest;
      HexReadsBack(s, rest);
    } else {
      QuotedReads(session, s, rest);
      var reader: Reader :|
        && reader.joining == PlainReader(session).joining
        && ReadLiteral(session, QuoteString(session.family, s).value + rest) == Prepend(s, AfterClose(rest, reader));
      ClosedExactly(s, reader, rest);
    }
  }

  /** A gap across which a session goes on with a literal: PostgreSQL needs a newline in it. */
  predicate Joins(session: Session, gap: Byte) {
    (session.family == Postgres && gap == 0x0A) || (session.family == MySql && gap == 0x20)
  }

  lemma GapIsCrossed(session: Session, gap: Byte, second: seq<Byte>)
    requires Joins(session, gap)
    ensures NextPart(PlainReader(session).joining, [gap, QUOTE] + second, false) == Some(Part(QUOTE, second, false))
  {
    var s, t := [gap, QUOTE] + second, [QUOTE] + second;
    assert s[1..] == t && t[1..] == second && t[0] == QUOTE;
    if session.family == Postgres {
      assert AfterPgGap(t, true) == (t, true);
      assert AfterPgGap(s, false) == (t, true);
    } else {
      assert AfterMySqlGap(t, false, session.executes) == (t, false);
      assert AfterMySqlGap(s, false, session.executes) == (t, false);
    }
  }

  /** A plain literal, read to its close. */
  lemma PlainReads(session: Session, s: seq<Byte>, rest: seq<Byte>)
    requires BACKSLASH !in s
    ensures ReadLiteral(session, Plain(s) + rest) == Prepend(s, AfterClose(rest, PlainReader(session)))
    ensures (Plain(s) + rest)[1..] == Doubled(s, {QUOTE}) + [QUOTE] + rest
  {
    var reader, text := PlainReader(session), Plain(s) + rest;
    assert text[1..] == Doubled(s, {QUOTE}) + [QUOTE] + rest;
    NoBackslashToDouble(s, reader.backslash);
    BodyReadsBack(s, reader, rest);
  }

  lemma PrependBoth(s: seq<Byte>, t: seq<Byte>, rest: seq<Byte>)
    ensures Prepend(s, Some(Reading(t, rest))) == Some(Reading(s + t, rest))
  {
  }

  /** Where the equivalence fails: two literals across such a gap are one literal, of the two strings
      together, and the text up to the end of the second is gone. */
  lemma AdjacentLiteralsJoin(session: Session, s: seq<Byte>, gap: Byte, t: seq<Byte>, rest: seq<Byte>)
    requires Joins(session, gap) && BACKSLASH !in s && BACKSLASH !in t
    requires !GoesOn(PlainReader(session).joining, rest)
    ensures var next := [gap] + (Plain(t) + rest);
            && ReadLiteral(session, Plain(s) + next) == Some(Reading(s + t, rest))
            && GoesOn(PlainReader(session).joining, next)
  {
    var reader := PlainReader(session);
    var second, next := (Plain(t) + rest)[1..], [gap] + (Plain(t) + rest);
    assert next == [gap, QUOTE] + second;
    GapIsCrossed(session, gap, second);
    PlainReads(session, t, rest);
    ClosedExactly(t, reader, rest);
    assert AfterClose(next, reader) == ReadBody(second, QUOTE, false, reader) == Some(Reading(t, rest));
    PlainReads(session, s, next);
    PrependBoth(s, t, rest);
  }

  /** Different strings have different literals. */
  lemma QuoteIsInjective(family: Family, s: seq<Byte>, t: seq<Byte>)
    requires family != UnknownFamily && QuoteString(family, s) == QuoteString(family, t)
    ensures s == t
  {
    QuotedDenotesItself(Session(family, true, true, _ => None), s, []);
    QuotedDenotesItself(Session(family, true, true, _ => None), t, []);
  }
}
