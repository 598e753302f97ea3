/** The reference for the `?` to `$n` placeholder rules.

    `Lex` cuts a statement into whole tokens, identifiers included, by the documented rules, and
    `Render` writes them. The engine's byte loop is proved to write `Render(Lex(sql))` in `Scanner`.
 */
module Placeholder {
  import opened Utf8
  import opened Texts
  import opened DecimalText
  import opened Wrappers

  const QUOTE: Byte := 0x27
  const DQUOTE: Byte := 0x22
  const DOLLAR: Byte := 0x24
  const QMARK: Byte := 0x3F
  const DASH: Byte := 0x2D
  const SLASH: Byte := 0x2F
  const STAR: Byte := 0x2A
  const PIPE: Byte := 0x7C
  const AMP: Byte := 0x26
  const NEWLINE: Byte := 0x0A

  // ---------------------------------------------------------------------------------------------
  // The reference segmenter

  datatype Kind =
    | Code | Ident | StringLit | QuotedIdent | LineComment | BlockComment | DollarQuote
    | JsonOp   // the `?` of `?|` and `?&`
    | Escaped  // `??`
    | Param    // a lone `?`

  datatype Segment = Segment(kind: Kind, text: seq<Byte>)

  predicate IsAlpha(b: Byte) {
    0x41 <= b <= 0x5A || 0x61 <= b <= 0x7A
  }

  predicate IsIdentStart(b: Byte) {
    IsAlpha(b) || b == 0x5F || b >= 0x80
  }

  /** PostgreSQL's `dolq_cont`. */
  predicate IsTagByte(b: Byte) {
    IsIdentStart(b) || IsDigit(b)
  }

  predicate IsIdentByte(b: Byte) {
    IsTagByte(b) || b == DOLLAR
  }

  predicate At(s: seq<Byte>, i: nat, b: Byte) {
    i < |s| && s[i] == b
  }

  predicate At2(s: seq<Byte>, i: nat, a: Byte, b: Byte) {
    At(s, i, a) && At(s, i + 1, b)
  }

  /** The end of an identifier that has been entered before `i`. */
  function IdentEnd(s: seq<Byte>, i: nat): (e: nat)
    requires i <= |s|
    ensures i <= e <= |s|
    decreases |s| - i
  {
    if i < |s| && IsIdentByte(s[i]) then IdentEnd(s, i + 1) else i
  }

  /** The end of a `q`-quoted token whose body starts at `i`; a doubled `q` stays inside. */
  function QuotedEnd(s: seq<Byte>, i: nat, q: Byte): (e: nat)
    requires i <= |s|
    ensures i <= e <= |s|
    decreases |s| - i
  {
    if i == |s| then i
    else if s[i] != q then QuotedEnd(s, i + 1, q)
    else if At(s, i + 1, q) then QuotedEnd(s, i + 2, q)
    else i + 1
  }

  /** Quotes inside a quoted body come in pairs. */
  predicate Paired(body: seq<Byte>, q: Byte)
    decreases |body|
  {
    || body == []
    || (body[0] != q && Paired(body[1..], q))
    || (|body| >= 2 && body[0] == q && body[1] == q && Paired(body[2..], q))
  }

  /** A quoted token ends at its first unpaired quote, or runs unterminated to the end. */
  lemma {:induction false} QuotedShape(s: seq<Byte>, i: nat, q: Byte)
    requires i <= |s|
    ensures var e := QuotedEnd(s, i, q);
            || (e == |s| && Paired(s[i..e], q))
            || (e > i && s[e - 1] == q && Paired(s[i..e - 1], q) && !At(s, e, q))
    decreases |s| - i
  {
    var e := QuotedEnd(s, i, q);
    if i < |s| && (s[i] != q || At(s, i + 1, q)) {
      var step := if s[i] != q then 1 else 2;
      QuotedShape(s, i + step, q);
      assert s[i..e][step..] == s[i + step..e];
      if e > i + step {
        assert s[i..e - 1][step..] == s[i + step..e - 1];
      }
    }
  }

  function LineEnd(s: seq<Byte>, i: nat): (e: nat)
    requires i <= |s|
    ensures i <= e <= |s|
    decreases |s| - i
  {
    if i == |s| || s[i] == NEWLINE then i else LineEnd(s, i + 1)
  }

  /** The end of a block comment with `depth` comments open at `i`. */
  function BlockEnd(s: seq<Byte>, i: nat, depth: nat): (e: nat)
    requires i <= |s|
    ensures i <= e <= |s|
    decreases |s| - i
  {
    if depth == 0 || i == |s| then i
    else if At2(s, i, SLASH, STAR) then BlockEnd(s, i + 2, depth + 1)
    else if At2(s, i, STAR, SLASH) then BlockEnd(s, i + 2, depth - 1)
    else BlockEnd(s, i + 1, depth)
  }

  /** `$tag$`: the tag is empty or an identifier without `$`, so it starts with no digit. */
  predicate IsDelimiter(d: seq<Byte>) {
    && |d| >= 2 && d[0] == DOLLAR && d[|d| - 1] == DOLLAR
    && (forall k :: 1 <= k < |d| - 1 ==> IsTagByte(d[k]))
    && (|d| > 2 ==> !IsDigit(d[1]))
  }

  predicate Occurs(s: seq<Byte>, d: seq<Byte>, at: nat) {
    at + |d| <= |s| && s[at..at + |d|] == d
  }

  function TagRun(s: seq<Byte>, j: nat): (e: nat)
    requires j <= |s|
    ensures j <= e <= |s|
    ensures forall k :: j <= k < e ==> IsTagByte(s[k])
    ensures e < |s| ==> !IsTagByte(s[e])
    decreases |s| - j
  {
    if j < |s| && IsTagByte(s[j]) then TagRun(s, j + 1) else j
  }

  /** Just past the delimiter opening at `i`, if one opens there. */
  function DelimiterEnd(s: seq<Byte>, i: nat): (r: Option<nat>)
    requires At(s, i, DOLLAR)
    ensures r.Some? ==> i + 2 <= r.value <= |s| && IsDelimiter(s[i..r.value])
    ensures r.None? ==> forall e :: i <= e <= |s| ==> !IsDelimiter(s[i..e])
  {
    var j := TagRun(s, i + 1);
    if (i + 1 < |s| && IsDigit(s[i + 1])) || !At(s, j, DOLLAR) then
      assert forall e :: i <= e <= |s| ==> !IsDelimiter(s[i..e]) by {
        forall e | i <= e <= |s| ensures !IsDelimiter(s[i..e]) {
          if IsDelimiter(s[i..e]) {
            var d := s[i..e];
            assert forall k :: i + 1 <= k < e - 1 ==> s[k] == d[k - i] && IsTagByte(s[k]);
          }
        }
      }
      None
    else
      Some(j + 1)
  }

  /** The first place at or after `from` where `d` occurs. */
  function Find(s: seq<Byte>, d: seq<Byte>, from: nat): (r: Option<nat>)
    ensures r.Some? ==> from <= r.value && Occurs(s, d, r.value)
    ensures forall k :: from <= k < (if r.Some? then r.value else |s|) ==> !Occurs(s, d, k)
    decreases |s| - from
  {
    if from >= |s| then None
    else if Occurs(s, d, from) then Some(from)
    else Find(s, d, from + 1)
  }

  /** A dollar-quoted body runs to the next copy of its delimiter, or to the end. */
  function DollarEnd(s: seq<Byte>, i: nat, bodyAt: nat): (e: nat)
    requires i + 2 <= bodyAt <= |s|
    ensures bodyAt <= e <= |s|
  {
    match Find(s, s[i..bodyAt], bodyAt)
    case Some(close) => close + (bodyAt - i)
    case None => |s|
  }

  datatype Token = Token(kind: Kind, end: nat)

  /** The token that starts at `i`, outside every literal, comment and identifier. */
  function NextToken(s: seq<Byte>, i: nat): (t: Token)
    requires i < |s|
    ensures i < t.end <= |s|
  {
    if IsIdentStart(s[i]) then Token(Ident, IdentEnd(s, i + 1))
    else if s[i] == QUOTE then Token(StringLit, QuotedEnd(s, i + 1, QUOTE))
    else if s[i] == DQUOTE then Token(QuotedIdent, QuotedEnd(s, i + 1, DQUOTE))
    else if At2(s, i, DASH, DASH) then Token(LineComment, LineEnd(s, i + 2))
    else if At2(s, i, SLASH, STAR) then Token(BlockComment, BlockEnd(s, i + 2, 1))
    else if s[i] == DOLLAR && DelimiterEnd(s, i).Some? then
      Token(DollarQuote, DollarEnd(s, i, DelimiterEnd(s, i).value))
    else if s[i] != QMARK then Token(Code, i + 1)
    else if At(s, i + 1, QMARK) then Token(Escaped, i + 2)
    else if At(s, i + 1, PIPE) || At(s, i + 1, AMP) then Token(JsonOp, i + 1)
    else Token(Param, i + 1)
  }

  function Lex(s: seq<Byte>, i: nat): (segs: seq<Segment>)
    requires i <= |s|
    decreases |s| - i
  {
    if i == |s| then []
    else
      var t := NextToken(s, i);
      [Segment(t.kind, s[i..t.end])] + Lex(s, t.end)
  }

  /** What one segment is written as when `n` is the number of the next parameter. */
  ghost function Piece(seg: Segment, n: nat): (p: seq<Byte>) {
    match seg.kind
    case Param => [DOLLAR] + Padded(n, 1)
    case Escaped => [QMARK]
    case _ => seg.text
  }

  function Bump(seg: Segment, n: nat): nat {
    if seg.kind.Param? then n + 1 else n
  }

  ghost function Render(segs: seq<Segment>, n: nat): (out: seq<Byte>) {
    if segs == [] then []
    else Piece(segs[0], n) + Render(segs[1..], Bump(segs[0], n))
  }

  // ---------------------------------------------------------------------------------------------
  // What the reference says about a statement

  function Source(segs: seq<Segment>): seq<Byte> {
    if segs == [] then [] else segs[0].text + Source(segs[1..])
  }

  /** The segments concatenate to the statement: nothing is lost, repeated or moved. */
  lemma {:induction false} LexPartitions(s: seq<Byte>, i: nat)
    requires i <= |s|
    ensures Source(Lex(s, i)) == s[i..]
    decreases |s| - i
  {
    if i < |s| {
      LexPartitions(s, NextToken(s, i).end);
    }
  }

  /** The pieces of the output, one per segment. */
  ghost function Pieces(segs: seq<Segment>, n: nat): (ps: seq<seq<Byte>>)
    ensures |ps| == |segs|
  {
    if segs == [] then [] else [Piece(segs[0], n)] + Pieces(segs[1..], Bump(segs[0], n))
  }

  function Flatten(ps: seq<seq<Byte>>): seq<Byte> {
    if ps == [] then [] else ps[0] + Flatten(ps[1..])
  }

  function ParamsBefore(segs: seq<Segment>, j: nat): nat
    requires j <= |segs|
  {
    if j == 0 then 0 else ParamsBefore(segs, j - 1) + if segs[j - 1].kind.Param? then 1 else 0
  }

  lemma {:induction false} ParamsBeforeTail(segs: seq<Segment>, j: nat)
    requires 0 < j <= |segs|
    ensures ParamsBefore(segs, j) == ParamsBefore(segs[1..], j - 1) + Bump(segs[0], 0)
    decreases j
  {
    if j == 1 {
      assert ParamsBefore(segs, 0) == 0;
    } else {
      ParamsBeforeTail(segs, j - 1);
    }
  }

  lemma {:induction false} RenderIsItsPieces(segs: seq<Segment>, n: nat)
    ensures Render(segs, n) == Flatten(Pieces(segs, n))
    decreases |segs|
  {
    if segs != [] {
      RenderIsItsPieces(segs[1..], Bump(segs[0], n));
    }
  }

  /** Parameters are numbered in order: the segment at `j` is written with the next number after the
      lone `?`s before it. */
  lemma {:induction false} RenderNumbersInOrder(segs: seq<Segment>, n: nat, j: nat)
    requires j < |segs|
    ensures Pieces(segs, n)[j] == Piece(segs[j], n + ParamsBefore(segs, j))
    decreases |segs|
  {
    if j > 0 {
      RenderNumbersInOrder(segs[1..], Bump(segs[0], n), j - 1);
      ParamsBeforeTail(segs, j);
      assert Pieces(segs, n)[j] == Pieces(segs[1..], Bump(segs[0], n))[j - 1];
    }
  }

  /** Undo one piece: a `$n` was `?`, an escaped `?` was `??`, anything else was itself. */
  function Unrender(kinds: seq<Kind>, ps: seq<seq<Byte>>): seq<Byte>
    requires |kinds| == |ps|
  {
    if ps == [] then []
    else
      (match kinds[0]
       case Param => [QMARK]
       case Escaped => [QMARK, QMARK]
       case _ => ps[0]) + Unrender(kinds[1..], ps[1..])
  }

  function Kinds(segs: seq<Segment>): (ks: seq<Kind>)
    ensures |ks| == |segs|
  {
    seq(|segs|, i requires 0 <= i < |segs| => segs[i].kind)
  }

  /** Only `?`, `??` and the `?` of a jsonb operator begin with a question mark. */
  predicate Honest(seg: Segment) {
    match seg.kind
    case Param => seg.text == [QMARK]
    case JsonOp => seg.text == [QMARK]
    case Escaped => seg.text == [QMARK, QMARK]
    case _ => seg.text != [] && seg.text[0] != QMARK
  }

  predicate AllHonest(segs: seq<Segment>) {
    forall j :: 0 <= j < |segs| ==> Honest(segs[j])
  }

  lemma {:induction false} LexIsHonest(s: seq<Byte>, i: nat)
    requires i <= |s|
    ensures AllHonest(Lex(s, i))
    decreases |s| - i
  {
    if i < |s| {
      var t := NextToken(s, i);
      LexIsHonest(s, t.end);
      assert Honest(Segment(t.kind, s[i..t.end]));
    }
  }

  /** Knowing the kinds, the pieces written determine the statement that was read. */
  lemma {:induction false} UnrenderRecovers(segs: seq<Segment>, n: nat)
    requires AllHonest(segs)
    ensures Unrender(Kinds(segs), Pieces(segs, n)) == Source(segs)
    decreases |segs|
  {
    if segs != [] {
      UnrenderRecovers(segs[1..], Bump(segs[0], n));
      assert Kinds(segs)[1..] == Kinds(segs[1..]);
      assert Honest(segs[0]);
    }
  }

  /** Some segment is a lone or a doubled `?` in code. */
  predicate Rewrites(segs: seq<Segment>) {
    segs != [] && (segs[0].kind.Param? || segs[0].kind.Escaped? || Rewrites(segs[1..]))
  }

  lemma {:induction false} RewritesIff(segs: seq<Segment>)
    ensures Rewrites(segs) <==> exists j :: 0 <= j < |segs| && segs[j].kind in {Param, Escaped}
    decreases |segs|
  {
    if segs != [] {
      var rest := segs[1..];
      RewritesIff(rest);
      if Rewrites(rest) {
        var j :| 0 <= j < |rest| && rest[j].kind in {Param, Escaped};
        assert segs[j + 1].kind in {Param, Escaped};
      }
      assert forall j :: 0 < j < |segs| ==> segs[j] == rest[j - 1];
    }
  }

  function Marks(k: nat): (m: seq<Byte>)
    ensures |m| == k && forall i :: 0 <= i < k ==> m[i] == QMARK
  {
    seq(k, _ => QMARK)
  }

  lemma ShiftByOne(p: seq<Byte>, r: seq<Byte>, k: nat, text: seq<Byte>, src: seq<Byte>)
    requires p + r == Marks(k) + (text + src) && |p| == 1 && text == Marks(|text|) && k > 0
    ensures r == Marks(k - 1 + |text|) + src
  {
    var all := Marks(k) + (text + src);
    assert r == (p + r)[1..] == all[1..];
    assert all == Marks(k + |text|) + src;
    assert all[1..] == Marks(k - 1 + |text|) + src;
  }

  /** Rewriting never yields the source with question marks put in front of it. */
  lemma {:induction false} RenderIsNotShifted(segs: seq<Segment>, n: nat, k: nat)
    requires AllHonest(segs) && k > 0
    ensures Render(segs, n) != Marks(k) + Source(segs)
    decreases |segs|
  {
    if segs != [] && Render(segs, n) == Marks(k) + Source(segs) {
      var seg, rest := segs[0], segs[1..];
      var p := Piece(seg, n);
      var r := Render(rest, Bump(seg, n));
      assert Honest(seg);
      assert p[0] == (p + r)[0] == QMARK;
      ShiftByOne(p, r, k, seg.text, Source(rest));
      RenderIsNotShifted(rest, n, k - 1 + |seg.text|);
    }
  }

  /** The scanner leaves a statement alone exactly when it holds no lone and no doubled `?` in code. */
  lemma {:induction false} IdentityIffNothingRewritten(segs: seq<Segment>, n: nat)
    requires AllHonest(segs)
    ensures Render(segs, n) == Source(segs) <==> !Rewrites(segs)
    decreases |segs|
  {
    if segs != [] {
      var seg, rest := segs[0], segs[1..];
      var r, src := Render(rest, Bump(seg, n)), Source(rest);
      assert Honest(seg);
      if seg.kind == Escaped {
        RenderIsNotShifted(rest, n, 1);
        assert Source(segs) == [QMARK] + (Marks(1) + src);
        CancelPrefix([QMARK], r, Marks(1) + src);
      } else if seg.kind == Param {
        assert Render(segs, n)[0] == DOLLAR && Source(segs)[0] == QMARK;
      } else {
        IdentityIffNothingRewritten(rest, n);
        CancelPrefix(seg.text, r, src);
      }
    }
  }

  lemma {:induction false} TextIsInSource(segs: seq<Segment>, j: nat, b: Byte)
    requires j < |segs| && b in segs[j].text
    ensures b in Source(segs)
    decreases |segs|
  {
    if j > 0 {
      TextIsInSource(segs[1..], j - 1, b);
    }
  }

  /** For every statement: what comes back is the statement itself exactly when nothing in code is a
      lone or a doubled `?`. */
  lemma UnchangedIff(s: seq<Byte>)
    ensures Render(Lex(s, 0), 1) == s <==> !Rewrites(Lex(s, 0))
  {
    LexPartitions(s, 0);
    assert s[0..] == s;
    LexIsHonest(s, 0);
    IdentityIffNothingRewritten(Lex(s, 0), 1);
  }

  /** A rewritten segment holds a question mark. */
  lemma RewritesNeedsMark(segs: seq<Segment>)
    requires AllHonest(segs) && Rewrites(segs)
    ensures QMARK in Source(segs)
  {
    RewritesIff(segs);
    var j :| 0 <= j < |segs| && segs[j].kind in {Param, Escaped};
    assert Honest(segs[j]);
    TextIsInSource(segs, j, QMARK);
  }

  /** In particular a statement without any `?` byte is unchanged. */
  lemma NoQuestionMarkUnchanged(s: seq<Byte>)
    requires QMARK !in s
    ensures Render(Lex(s, 0), 1) == s
  {
    var segs := Lex(s, 0);
    LexPartitions(s, 0);
    assert s[0..] == s;
    LexIsHonest(s, 0);
    UnchangedIff(s);
    if Rewrites(segs) {
      RewritesNeedsMark(segs);
    }
  }
}
