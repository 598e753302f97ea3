/** The documented lexical rules, one by one and without a scanner: what a stretch of a statement must look
    like to be a token of each kind. The segmenter is the only one that obeys them.

    The rules are those of PostgreSQL's sections 4.1.2.1 (string constants), 4.1.2.4 (dollar quoting) and
    4.1.5 (comments), and the three readings of a question mark.
 */
module PlaceholderRules {
  import opened Utf8
  import opened DecimalText
  import opened Wrappers
  import opened Placeholder

  // ---------------------------------------------------------------------------------------------
  // The rules

  predicate StartsName(b: Byte) {
    b == 0x5F || 0x41 <= b <= 0x5A || 0x61 <= b <= 0x7A || 0x80 <= b
  }

  predicate InTag(b: Byte) {
    StartsName(b) || 0x30 <= b <= 0x39
  }

  predicate InName(b: Byte) {
    InTag(b) || b == 0x24
  }

  predicate IsMark(s: seq<Byte>, i: nat) {
    i < |s| && s[i] == 0x3F
  }

  /** A whole identifier: it starts as one, goes on as one, and is not followed by more of it. */
  predicate IsName(s: seq<Byte>, i: nat, e: nat)
    requires i < e <= |s|
  {
    StartsName(s[i]) && (forall k :: i < k < e ==> InName(s[k])) && (e < |s| ==> !InName(s[e]))
  }

  /** Every quote in the text stands next to another that it pairs with. */
  predicate QuotesPair(t: seq<Byte>, q: Byte) {
    if t == [] then true
    else if t[0] != q then QuotesPair(t[1..], q)
    else |t| >= 2 && t[1] == q && QuotesPair(t[2..], q)
  }

  /** From after its opening quote: pairs of quotes inside, then one unpaired quote, or the end. */
  predicate IsQuoted(s: seq<Byte>, a: nat, e: nat, q: Byte)
    requires a <= e <= |s|
  {
    || (e == |s| && QuotesPair(s[a..e], q))
    || (a < e && s[e - 1] == q && QuotesPair(s[a..e - 1], q) && (e < |s| ==> s[e] != q))
  }

  /** Two dashes and the rest of the line. */
  predicate IsLineComment(s: seq<Byte>, i: nat, e: nat)
    requires i < e <= |s|
  {
    && i + 2 <= e && s[i] == 0x2D && s[i + 1] == 0x2D
    && (forall k :: i <= k < e ==> s[k] != 0x0A) && (e < |s| ==> s[e] == 0x0A)
  }

  /** Reading openings and closings from `a` with `depth` comments open leads to `e` with `left` open, and
      none of the places on the way is outside. */
  predicate Leads(s: seq<Byte>, a: nat, depth: nat, e: nat, left: nat)
    requires a <= |s| && e <= |s|
    decreases |s| - a
  {
    if a == e then depth == left
    else if a > e || depth == 0 then false
    else if a + 1 < |s| && s[a] == 0x2F && s[a + 1] == 0x2A then Leads(s, a + 2, depth + 1, e, left)
    else if a + 1 < |s| && s[a] == 0x2A && s[a + 1] == 0x2F then Leads(s, a + 2, depth - 1, e, left)
    else Leads(s, a + 1, depth, e, left)
  }

  /** A comment with everything nested in it, or an unclosed one to the end. */
  ghost predicate IsBlockComment(s: seq<Byte>, i: nat, e: nat)
    requires i < e <= |s|
  {
    && i + 2 <= e && s[i] == 0x2F && s[i + 1] == 0x2A
    && ReachesEnd(s, i + 2, 1, e)
  }

  /** From `a` with `depth` open, all of them are closed at `e`, or some never are. */
  ghost predicate ReachesEnd(s: seq<Byte>, a: nat, depth: nat, e: nat)
    requires a <= |s| && e <= |s|
  {
    Leads(s, a, depth, e, 0) || (e == |s| && exists left: nat :: left > 0 && Leads(s, a, depth, e, left))
  }

  /** `$tag$`, with a tag that is empty or a name without `$`. */
  predicate IsTag(d: seq<Byte>) {
    && |d| >= 2 && d[0] == 0x24 && d[|d| - 1] == 0x24
    && (forall k :: 1 <= k < |d| - 1 ==> InTag(d[k]))
    && (|d| > 2 ==> StartsName(d[1]))
  }

  ghost predicate OpensDollarQuote(s: seq<Byte>, i: nat)
    requires i <= |s|
  {
    exists m :: i <= m <= |s| && IsTag(s[i..m])
  }

  /** From after its delimiter `d` at `m`: up to and including the next copy of `d`, or to the end. */
  predicate IsDollarBody(s: seq<Byte>, d: seq<Byte>, m: nat, e: nat)
    requires m <= e <= |s|
  {
    || (&& m + |d| <= e && s[e - |d|..e] == d
        && forall k :: m <= k < e - |d| ==> !Occurs(s, d, k))
    || (e == |s| && forall k :: m <= k <= |s| ==> !Occurs(s, d, k))
  }

  ghost predicate IsDollarQuote(s: seq<Byte>, i: nat, e: nat)
    requires i < e <= |s|
  {
    exists m :: i <= m <= e && IsTag(s[i..m]) && IsDollarBody(s, s[i..m], m, e)
  }

  /** A byte that opens nothing. */
  ghost predicate IsPlain(s: seq<Byte>, i: nat)
    requires i < |s|
  {
    && !StartsName(s[i]) && s[i] != 0x27 && s[i] != 0x22 && s[i] != 0x3F
    && !(i + 1 < |s| && s[i] == 0x2D && s[i + 1] == 0x2D)
    && !(i + 1 < |s| && s[i] == 0x2F && s[i + 1] == 0x2A)
    && !OpensDollarQuote(s, i)
  }

  /** The stretch of `s` from `i` to `e` is a token of this kind. */
  ghost predicate Obeys(s: seq<Byte>, i: nat, kind: Kind, e: nat)
    requires i < e <= |s|
  {
    match kind
    case Ident => IsName(s, i, e)
    case StringLit => s[i] == 0x27 && IsQuoted(s, i + 1, e, 0x27)
    case QuotedIdent => s[i] == 0x22 && IsQuoted(s, i + 1, e, 0x22)
    case LineComment => IsLineComment(s, i, e)
    case BlockComment => IsBlockComment(s, i, e)
    case DollarQuote => IsDollarQuote(s, i, e)
    case Code => e == i + 1 && IsPlain(s, i)
    // `??` is an escaped mark; `?|` and `?&` are operators; any other mark is a parameter.
    case Escaped => e == i + 2 && IsMark(s, i) && IsMark(s, i + 1)
    case JsonOp => e == i + 1 && IsMark(s, i) && e < |s| && (s[e] == 0x7C || s[e] == 0x26)
    case Param => e == i + 1 && IsMark(s, i) && (e < |s| ==> s[e] != 0x3F && s[e] != 0x7C && s[e] != 0x26)
  }

  // ---------------------------------------------------------------------------------------------
  // The segmenter obeys them

  lemma Classes(b: Byte)
    ensures IsIdentStart(b) <==> StartsName(b)
    ensures IsTagByte(b) <==> InTag(b)
    ensures IsIdentByte(b) <==> InName(b)
  {
  }

  lemma {:induction false} NameEnds(s: seq<Byte>, i: nat, e: nat)
    requires i <= e <= |s|
    ensures e == IdentEnd(s, i) <==> (forall k :: i <= k < e ==> InName(s[k])) && (e < |s| ==> !InName(s[e]))
    decreases |s| - i
  {
    if i < |s| {
      Classes(s[i]);
      if InName(s[i]) && i < e {
        NameEnds(s, i + 1, e);
      }
    }
  }

  lemma {:induction false} PairedIff(t: seq<Byte>, q: Byte)
    ensures Paired(t, q) <==> QuotesPair(t, q)
    decreases |t|
  {
    if t != [] {
      PairedIff(t[1..], q);
      if |t| >= 2 {
        PairedIff(t[2..], q);
      }
    }
  }

  lemma QuotedObeys(s: seq<Byte>, a: nat, q: Byte)
    requires a <= |s|
    ensures IsQuoted(s, a, QuotedEnd(s, a, q), q)
  {
    var e := QuotedEnd(s, a, q);
    QuotedShape(s, a, q);
    PairedIff(s[a..e], q);
    if e > a {
      PairedIff(s[a..e - 1], q);
    }
  }

  lemma {:induction false} QuotedUnique(s: seq<Byte>, a: nat, e: nat, q: Byte)
    requires a <= e <= |s| && IsQuoted(s, a, e, q)
    ensures e == QuotedEnd(s, a, q)
    decreases |s| - a
  {
    var closed := !(e == |s| && QuotesPair(s[a..e], q));
    var body := if closed then s[a..e - 1] else s[a..e];
    if body != [] {
      assert body[0] == s[a];
      var step := if s[a] != q then 1 else 2;
      if step == 2 {
        assert body[1] == s[a + 1];
      }
      if closed {
        assert body[step..] == s[a + step..e - 1];
      } else {
        assert body[step..] == s[a + step..e];
      }
      QuotedUnique(s, a + step, e, q);
    }
  }

  lemma {:induction false} LineEnds(s: seq<Byte>, i: nat, e: nat)
    requires i <= e <= |s|
    ensures e == LineEnd(s, i) <==> (forall k :: i <= k < e ==> s[k] != 0x0A) && (e < |s| ==> s[e] == 0x0A)
    decreases |s| - i
  {
    if i < |s| && s[i] != NEWLINE && i < e {
      LineEnds(s, i + 1, e);
    }
  }

  lemma {:induction false} BlockReaches(s: seq<Byte>, a: nat, depth: nat)
    requires a <= |s|
    ensures ReachesEnd(s, a, depth, BlockEnd(s, a, depth))
    decreases |s| - a
  {
    if depth > 0 && a == |s| {
      assert Leads(s, a, depth, |s|, depth);
    } else if depth > 0 {
      var (a', d') := Turn(s, a, depth);
      BlockReaches(s, a', d');
      TurnLeads(s, a, depth, BlockEnd(s, a, depth));
    }
  }

  /** One opening, closing or byte. */
  function Turn(s: seq<Byte>, a: nat, depth: nat): (r: (nat, nat))
    requires a < |s| && depth > 0
    ensures a < r.0 <= |s|
  {
    if At2(s, a, SLASH, STAR) then (a + 2, depth + 1)
    else if At2(s, a, STAR, SLASH) then (a + 2, depth - 1)
    else (a + 1, depth)
  }

  lemma TurnLeads(s: seq<Byte>, a: nat, depth: nat, e: nat)
    requires a < e <= |s| && depth > 0
    ensures var (a', d') := Turn(s, a, depth);
            && (ReachesEnd(s, a, depth, e) <==> ReachesEnd(s, a', d', e))
            && BlockEnd(s, a, depth) == BlockEnd(s, a', d')
  {
    var (a', d') := Turn(s, a, depth);
    assert forall left: nat :: Leads(s, a, depth, e, left) <==> Leads(s, a', d', e, left);
  }

  lemma {:induction false} BlockUnique(s: seq<Byte>, a: nat, depth: nat, e: nat)
    requires a <= |s| && e <= |s| && ReachesEnd(s, a, depth, e)
    ensures e == BlockEnd(s, a, depth)
    decreases |s| - a
  {
    if a != e {
      var (a', d') := Turn(s, a, depth);
      TurnLeads(s, a, depth, e);
      BlockUnique(s, a', d', e);
    }
  }

  lemma TagIsDelimiter(d: seq<Byte>)
    ensures IsTag(d) <==> IsDelimiter(d)
  {
    if |d| > 2 && (IsTag(d) || IsDelimiter(d)) {
      assert InTag(d[1]);
    }
  }

  lemma DelimiterIff(s: seq<Byte>, i: nat, m: nat)
    requires At(s, i, DOLLAR) && i <= m <= |s|
    ensures IsTag(s[i..m]) <==> DelimiterEnd(s, i) == Some(m)
  {
    TagIsDelimiter(s[i..m]);
    if IsTag(s[i..m]) {
      var j := TagRun(s, i + 1);
      var d := s[i..m];
      assert forall k :: i + 1 <= k < m - 1 ==> s[k] == d[k - i] && InTag(s[k]);
      assert s[m - 1] == d[|d| - 1] == DOLLAR;
      RunStops(s, i + 1, m - 1);
      if m - i > 2 {
        assert s[i + 1] == d[1];
      }
    }
  }

  lemma {:induction false} RunStops(s: seq<Byte>, j: nat, e: nat)
    requires j <= e < |s| && !IsTagByte(s[e]) && forall k :: j <= k < e ==> IsTagByte(s[k])
    ensures TagRun(s, j) == e
    decreases e - j
  {
    if j < e {
      RunStops(s, j + 1, e);
    }
  }

  lemma OpensIff(s: seq<Byte>, i: nat)
    requires i < |s|
    ensures OpensDollarQuote(s, i) <==> s[i] == DOLLAR && DelimiterEnd(s, i).Some?
  {
    if OpensDollarQuote(s, i) {
      var m :| i <= m <= |s| && IsTag(s[i..m]);
      assert s[i..m][0] == s[i];
      DelimiterIff(s, i, m);
    } else if s[i] == DOLLAR && DelimiterEnd(s, i).Some? {
      DelimiterIff(s, i, DelimiterEnd(s, i).value);
    }
  }

  lemma DollarBodyIff(s: seq<Byte>, i: nat, m: nat, e: nat)
    requires i + 2 <= m <= e <= |s|
    ensures IsDollarBody(s, s[i..m], m, e) <==> e == DollarEnd(s, i, m)
  {
    var d := s[i..m];
    var found := Find(s, d, m);
    if found.Some? {
      assert Occurs(s, d, found.value);
      assert s[found.value..found.value + |d|] == d;
    }
    if IsDollarBody(s, d, m, e) && m + |d| <= e && s[e - |d|..e] == d {
      assert Occurs(s, d, e - |d|);
    }
    assert forall k :: |s| - |d| < k <= |s| ==> !Occurs(s, d, k);
  }

  /** Every token the segmenter cuts is one by the rules. */
  lemma TokenObeys(s: seq<Byte>, i: nat)
    requires i < |s|
    ensures Obeys(s, i, NextToken(s, i).kind, NextToken(s, i).end)
  {
    var t := NextToken(s, i);
    Classes(s[i]);
    OpensIff(s, i);
    match t.kind
    case Ident => NameEnds(s, i + 1, t.end);
    case StringLit => QuotedObeys(s, i + 1, QUOTE);
    case QuotedIdent => QuotedObeys(s, i + 1, DQUOTE);
    case LineComment => LineEnds(s, i + 2, t.end);
    case BlockComment => BlockReaches(s, i + 2, 1);
    case DollarQuote => DollarObeys(s, i);
    case _ =>
  }

  lemma DollarObeys(s: seq<Byte>, i: nat)
    requires At(s, i, DOLLAR) && DelimiterEnd(s, i).Some?
    ensures IsDollarQuote(s, i, DollarEnd(s, i, DelimiterEnd(s, i).value))
  {
    var m := DelimiterEnd(s, i).value;
    DelimiterIff(s, i, m);
    DollarBodyIff(s, i, m, DollarEnd(s, i, m));
  }

  /** And nothing else is a token there. */
  lemma TokenIsUnique(s: seq<Byte>, i: nat, kind: Kind, e: nat)
    requires i < e <= |s| && Obeys(s, i, kind, e)
    ensures NextToken(s, i) == Token(kind, e)
  {
    Classes(s[i]);
    OpensIff(s, i);
    match kind
    case Ident => NameEnds(s, i + 1, e);
    case StringLit => QuotedUnique(s, i + 1, e, QUOTE);
    case QuotedIdent => QuotedUnique(s, i + 1, e, DQUOTE);
    case LineComment => LineEnds(s, i + 2, e);
    case BlockComment => BlockUnique(s, i + 2, 1, e);
    case DollarQuote =>
      var m :| i <= m <= e && IsTag(s[i..m]) && IsDollarBody(s, s[i..m], m, e);
      assert s[i..m][0] == s[i];
      DelimiterIff(s, i, m);
      DollarBodyIff(s, i, m, e);
    case _ =>
  }

  /** The segments cut `s` from `i` on into tokens by the rules. */
  ghost predicate IsSegmentation(s: seq<Byte>, i: nat, segs: seq<Segment>)
    requires i <= |s|
    decreases |segs|
  {
    if segs == [] then i == |s|
    else
      var e := i + |segs[0].text|;
      && i < e <= |s| && segs[0].text == s[i..e] && Obeys(s, i, segs[0].kind, e)
      && IsSegmentation(s, e, segs[1..])
  }

  lemma Prepend(s: seq<Byte>, i: nat, kind: Kind, e: nat, rest: seq<Segment>)
    requires i < e <= |s| && Obeys(s, i, kind, e) && IsSegmentation(s, e, rest)
    ensures IsSegmentation(s, i, [Segment(kind, s[i..e])] + rest)
  {
    var segs := [Segment(kind, s[i..e])] + rest;
    assert segs[1..] == rest && i + |segs[0].text| == e;
  }

  lemma {:induction false} LexIsSegmentation(s: seq<Byte>, i: nat)
    requires i <= |s|
    ensures IsSegmentation(s, i, Lex(s, i))
    decreases |s| - i
  {
    if i < |s| {
      var t := NextToken(s, i);
      TokenObeys(s, i);
      LexIsSegmentation(s, t.end);
      Prepend(s, i, t.kind, t.end, Lex(s, t.end));
    }
  }

  /** A segmentation is a token and a segmentation of what comes after it. */
  lemma Uncons(s: seq<Byte>, i: nat, segs: seq<Segment>) returns (e: nat)
    requires i <= |s| && segs != [] && IsSegmentation(s, i, segs)
    ensures i < e <= |s| && Obeys(s, i, segs[0].kind, e)
    ensures segs == [Segment(segs[0].kind, s[i..e])] + segs[1..] && IsSegmentation(s, e, segs[1..])
  {
    e := i + |segs[0].text|;
    assert segs == [segs[0]] + segs[1..];
  }

  lemma LexCons(s: seq<Byte>, i: nat, kind: Kind, e: nat)
    requires i < e <= |s| && NextToken(s, i) == Token(kind, e)
    ensures Lex(s, i) == [Segment(kind, s[i..e])] + Lex(s, e)
  {
  }

  lemma {:induction false} SegmentationIsLex(s: seq<Byte>, i: nat, segs: seq<Segment>)
    requires i <= |s| && IsSegmentation(s, i, segs)
    ensures segs == Lex(s, i)
    decreases |segs|
  {
    if segs != [] {
      var e := Uncons(s, i, segs);
      TokenIsUnique(s, i, segs[0].kind, e);
      LexCons(s, i, segs[0].kind, e);
      SegmentationIsLex(s, e, segs[1..]);
    }
  }

  /** For every statement the rules admit exactly one segmentation, and it is the segmenter's. */
  lemma OneSegmentation(s: seq<Byte>, segs: seq<Segment>)
    ensures IsSegmentation(s, 0, segs) <==> segs == Lex(s, 0)
  {
    LexIsSegmentation(s, 0);
    if IsSegmentation(s, 0, segs) {
      SegmentationIsLex(s, 0, segs);
    }
  }

  // ---------------------------------------------------------------------------------------------
  // What is written for them

  /** The text written for a segment with `k` parameters before it. */
  ghost predicate IsWritten(out: seq<Byte>, seg: Segment, k: nat) {
    match seg.kind
    case Param => |out| > 1 && out[0] == 0x24 && Prints(out[1..], k + 1, 1)
    case Escaped => out == [0x3F]
    case _ => out == seg.text
  }

  /** The normalised statement is the concatenation of one text per segment: `$1`, `$2`, ... for the
      parameters in order, `?` for `??`, and every other segment as it stands. */
  lemma WrittenInOrder(s: seq<Byte>, j: nat)
    requires j < |Lex(s, 0)|
    ensures Render(Lex(s, 0), 1) == Flatten(Pieces(Lex(s, 0), 1))
    ensures IsWritten(Pieces(Lex(s, 0), 1)[j], Lex(s, 0)[j], ParamsBefore(Lex(s, 0), j))
  {
    var segs := Lex(s, 0);
    RenderIsItsPieces(segs, 1);
    RenderNumbersInOrder(segs, 1, j);
    var n := 1 + ParamsBefore(segs, j);
    if segs[j].kind.Param? {
      assert ([DOLLAR] + Padded(n, 1))[1..] == Padded(n, 1);
    }
  }

  // ---------------------------------------------------------------------------------------------
  // Nested comments

  /** What stands inside a comment: words, and comments with what stands inside them. */
  datatype Inside = Nothing | Words(text: seq<Byte>, rest: Inside) | Nested(inner: Inside, rest: Inside)

  /** Text without an opening or a closing, that cannot become one with what comes next. */
  predicate IsWords(t: seq<Byte>) {
    || t == []
    || (&& !At2(t, 0, SLASH, STAR) && !At2(t, 0, STAR, SLASH)
        && (|t| == 1 ==> t[0] != SLASH && t[0] != STAR) && IsWords(t[1..]))
  }

  predicate AllWords(c: Inside) {
    match c
    case Nothing => true
    case Words(t, rest) => IsWords(t) && AllWords(rest)
    case Nested(inner, rest) => AllWords(inner) && AllWords(rest)
  }

  function Print(c: Inside): seq<Byte> {
    match c
    case Nothing => []
    case Words(t, rest) => t + Print(rest)
    case Nested(inner, rest) => [SLASH, STAR] + (Print(inner) + ([STAR, SLASH] + Print(rest)))
  }

  /** `p` stands in `s` at `a`. */
  predicate Has(s: seq<Byte>, a: nat, p: seq<Byte>) {
    a + |p| <= |s| && forall k :: 0 <= k < |p| ==> s[a + k] == p[k]
  }

  lemma HasBoth(s: seq<Byte>, a: nat, p: seq<Byte>, q: seq<Byte>)
    requires Has(s, a, p + q)
    ensures Has(s, a, p) && Has(s, a + |p|, q)
  {
    assert forall k :: 0 <= k < |p| ==> (p + q)[k] == p[k];
    assert forall k :: 0 <= k < |q| ==> (p + q)[|p| + k] == q[k];
  }

  lemma {:induction false} WordsAreSkipped(s: seq<Byte>, a: nat, depth: nat, t: seq<Byte>)
    requires depth > 0 && IsWords(t) && Has(s, a, t)
    ensures BlockEnd(s, a, depth) == BlockEnd(s, a + |t|, depth)
    decreases |t|
  {
    if t != [] {
      assert t == [t[0]] + t[1..];
      HasBoth(s, a, [t[0]], t[1..]);
      assert s[a] == t[0] && (|t| > 1 ==> s[a + 1] == t[1]);
      WordsAreSkipped(s, a + 1, depth, t[1..]);
    }
  }

  lemma Opens(s: seq<Byte>, a: nat, depth: nat)
    requires depth > 0 && Has(s, a, [SLASH, STAR])
    ensures BlockEnd(s, a, depth) == BlockEnd(s, a + 2, depth + 1)
  {
    var p := [SLASH, STAR];
    assert s[a + 0] == p[0] && s[a + 1] == p[1];
  }

  lemma Closes(s: seq<Byte>, a: nat, depth: nat)
    requires depth > 0 && Has(s, a, [STAR, SLASH])
    ensures BlockEnd(s, a, depth) == BlockEnd(s, a + 2, depth - 1)
  {
    var p := [STAR, SLASH];
    assert s[a + 0] == p[0] && s[a + 1] == p[1];
  }

  lemma HasNested(s: seq<Byte>, a: nat, p: seq<Byte>, q: seq<Byte>)
    requires Has(s, a, [SLASH, STAR] + (p + ([STAR, SLASH] + q)))
    ensures Has(s, a, [SLASH, STAR]) && Has(s, a + 2, p)
    ensures Has(s, a + 2 + |p|, [STAR, SLASH]) && Has(s, a + 4 + |p|, q)
  {
    HasBoth(s, a, [SLASH, STAR], p + ([STAR, SLASH] + q));
    HasBoth(s, a + 2, p, [STAR, SLASH] + q);
    HasBoth(s, a + 2 + |p|, [STAR, SLASH], q);
  }

  lemma NestedIsPassed(s: seq<Byte>, a: nat, depth: nat, n: nat)
    requires depth > 0 && Has(s, a, [SLASH, STAR]) && Has(s, a + 2 + n, [STAR, SLASH])
    requires BlockEnd(s, a + 2, depth + 1) == BlockEnd(s, a + 2 + n, depth + 1)
    ensures BlockEnd(s, a, depth) == BlockEnd(s, a + 4 + n, depth)
  {
    Opens(s, a, depth);
    Closes(s, a + 2 + n, depth + 1);
  }

  /** What stands inside a comment is passed at the depth it stands at. */
  lemma {:induction false} InsideIsPassed(s: seq<Byte>, a: nat, depth: nat, c: Inside)
    requires depth > 0 && AllWords(c) && Has(s, a, Print(c))
    ensures BlockEnd(s, a, depth) == BlockEnd(s, a + |Print(c)|, depth)
    decreases c
  {
    match c
    case Nothing =>
    case Words(t, rest) =>
      HasBoth(s, a, t, Print(rest));
      WordsAreSkipped(s, a, depth, t);
      InsideIsPassed(s, a + |t|, depth, rest);
    case Nested(inner, rest) =>
      var n := |Print(inner)|;
      HasNested(s, a, Print(inner), Print(rest));
      InsideIsPassed(s, a + 2, depth + 1, inner);
      NestedIsPassed(s, a, depth, n);
      InsideIsPassed(s, a + 4 + n, depth, rest);
  }

  lemma HasPrefix(p: seq<Byte>, after: seq<Byte>)
    ensures Has(p + after, 0, p)
  {
  }

  /** A comment is one token with everything nested in it, whatever follows it. */
  lemma NestedCommentIsOneToken(c: Inside, after: seq<Byte>)
    requires AllWords(c)
    ensures var text := Print(Nested(c, Nothing));
            NextToken(text + after, 0) == Token(BlockComment, |text|)
  {
    var text := Print(Nested(c, Nothing));
    var s := text + after;
    HasPrefix(text, after);
    HasNested(s, 0, Print(c), []);
    InsideIsPassed(s, 2, 1, c);
    Closes(s, 2 + |Print(c)|, 1);
    OpensComment(s);
  }

  lemma OpensComment(s: seq<Byte>)
    requires Has(s, 0, [SLASH, STAR])
    ensures NextToken(s, 0) == Token(BlockComment, BlockEnd(s, 2, 1))
  {
    var p := [SLASH, STAR];
    assert s[0 + 0] == p[0] && s[0 + 1] == p[1];
  }
}
