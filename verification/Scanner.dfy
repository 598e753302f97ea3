/** The engine's scanner loop, proved to write what the reference segmenter says. */
module Scanner {
  import opened Utf8
  import opened Texts
  import opened DecimalText
  import opened Wrappers
  import opened Placeholder

  // Stepping over a whole character moves no token end.

  lemma {:induction false} QuotedSkip(s: seq<Byte>, i: nat, j: nat, q: Byte)
    requires i <= j <= |s| && forall k :: i <= k < j ==> s[k] != q
    ensures QuotedEnd(s, i, q) == QuotedEnd(s, j, q)
    decreases j - i
  {
    if i < j {
      QuotedSkip(s, i + 1, j, q);
    }
  }

  lemma {:induction false} LineSkip(s: seq<Byte>, i: nat, j: nat)
    requires i <= j <= |s| && forall k :: i <= k < j ==> s[k] != NEWLINE
    ensures LineEnd(s, i) == LineEnd(s, j)
    decreases j - i
  {
    if i < j {
      LineSkip(s, i + 1, j);
    }
  }

  lemma {:induction false} BlockSkip(s: seq<Byte>, i: nat, j: nat, depth: nat)
    requires i <= j <= |s| && depth > 0 && forall k :: i <= k < j ==> IsCont(s[k])
    ensures BlockEnd(s, i, depth) == BlockEnd(s, j, depth)
    decreases j - i
  {
    if i < j {
      BlockSkip(s, i + 1, j, depth);
    }
  }

  lemma {:induction false} IdentSkip(s: seq<Byte>, i: nat, j: nat)
    requires i <= j <= |s| && forall k :: i <= k < j ==> IsIdentByte(s[k])
    ensures IdentEnd(s, i) == IdentEnd(s, j)
    decreases j - i
  {
    if i < j {
      IdentSkip(s, i + 1, j);
    }
  }

  lemma Extend(out: seq<Byte>, s: seq<Byte>, a: nat, b: nat, c: nat)
    requires a <= b <= c <= |s|
    ensures out + s[a..b] + s[b..c] == out + s[a..c]
  {
  }

  /** Copy the character that starts at `i`. */
  method PushByte(out: seq<Byte>, sql: seq<Byte>, i: nat) returns (out': seq<Byte>, end: nat)
    requires i < |sql| && IsBoundary(sql, i)
    ensures i < end <= |sql| && IsBoundary(sql, end)
    ensures forall k :: i < k < end ==> IsCont(sql[k])
    ensures out' == out + sql[i..end]
  {
    end := i + 1;
    while end < |sql| && !IsBoundary(sql, end)
      invariant i < end <= |sql|
      invariant forall k :: i < k < end ==> IsCont(sql[k])
    {
      end := end + 1;
    }
    out' := out + Slice(sql, i, end);
  }

  /** Copy a token delimited by `q`, from its opening quote at `start`. */
  method CopyQuoted(out0: seq<Byte>, sql: seq<Byte>, start: nat, q: Byte) returns (out: seq<Byte>, i: nat)
    requires AsciiCuts(sql)
    requires start < |sql| && sql[start] == q && q < 0x80
    ensures i == QuotedEnd(sql, start + 1, q) && IsBoundary(sql, i)
    ensures out == out0 + sql[start..i]
  {
    out := out0 + [q];
    i := start + 1;
    while i < |sql|
      invariant start < i <= |sql| && IsBoundary(sql, i)
      invariant out == out0 + sql[start..i]
      invariant QuotedEnd(sql, start + 1, q) == QuotedEnd(sql, i, q)
    {
      if sql[i] == q {
        assert sql[i..i + 1] == [q];
        Extend(out0, sql, start, i, i + 1);
        if i + 1 < |sql| && sql[i + 1] == q {
          assert sql[i..i + 2] == [q, q];
          Extend(out0, sql, start, i, i + 2);
          out := out + [q, q];
          i := i + 2;
          continue;
        }
        out := out + [q];
        i := i + 1;
        return;
      }
      var was := i;
      out, i := PushByte(out, sql, i);
      Extend(out0, sql, start, was, i);
      QuotedSkip(sql, was, i, q);
    }
  }

  method CopyLineComment(out0: seq<Byte>, sql: seq<Byte>, start: nat) returns (out: seq<Byte>, i: nat)
    requires AsciiCuts(sql)
    requires At2(sql, start, DASH, DASH)
    ensures i == LineEnd(sql, start + 2) && IsBoundary(sql, i)
    ensures out == out0 + sql[start..i]
  {
    out := out0 + [DASH, DASH];
    i := start + 2;
    while i < |sql| && sql[i] != NEWLINE
      invariant start + 2 <= i <= |sql| && IsBoundary(sql, i)
      invariant out == out0 + sql[start..i]
      invariant LineEnd(sql, start + 2) == LineEnd(sql, i)
    {
      var was := i;
      out, i := PushByte(out, sql, i);
      LineSkip(sql, was, i);
    }
  }

  method CopyBlockComment(out0: seq<Byte>, sql: seq<Byte>, start: nat) returns (out: seq<Byte>, i: nat)
    requires AsciiCuts(sql)
    requires At2(sql, start, SLASH, STAR)
    ensures i == BlockEnd(sql, start + 2, 1) && IsBoundary(sql, i)
    ensures out == out0 + sql[start..i]
  {
    out := out0 + [SLASH, STAR];
    i := start + 2;
    assert sql[start..i] == [SLASH, STAR];
    var depth := 1;
    while i < |sql| && depth > 0
      invariant start + 2 <= i <= |sql| && IsBoundary(sql, i)
      invariant out == out0 + sql[start..i]
      invariant BlockEnd(sql, start + 2, 1) == BlockEnd(sql, i, depth)
    {
      var was := i;
      out, i, depth := CopyInBlock(out, sql, i, depth);
      Extend(out0, sql, start, was, i);
    }
  }

  /** One turn inside a block comment: an opening, a closing, or one character. */
  method CopyInBlock(out0: seq<Byte>, sql: seq<Byte>, start: nat, depth0: nat)
    returns (out: seq<Byte>, i: nat, depth: nat)
    requires AsciiCuts(sql) && start < |sql| && IsBoundary(sql, start) && depth0 > 0
    ensures start < i <= |sql| && IsBoundary(sql, i)
    ensures out == out0 + sql[start..i]
    ensures BlockEnd(sql, start, depth0) == BlockEnd(sql, i, depth)
  {
    i, depth := start, depth0;
    if At2(sql, i, SLASH, STAR) {
      assert sql[i..i + 2] == [SLASH, STAR];
      out := out0 + [SLASH, STAR];
      i := i + 2;
      depth := depth + 1;
    } else if At2(sql, i, STAR, SLASH) {
      assert sql[i..i + 2] == [STAR, SLASH];
      out := out0 + [STAR, SLASH];
      i := i + 2;
      depth := depth - 1;
    } else {
      out, i := PushByte(out0, sql, i);
      BlockSkip(sql, start + 1, i, depth);
    }
  }

  /** Just past the `$tag$` that opens at `start`, or none. */
  method DollarQuoteTagEnd(bytes: seq<Byte>, start: nat) returns (r: Option<nat>)
    requires At(bytes, start, DOLLAR)
    ensures r == DelimiterEnd(bytes, start)
  {
    var j := start + 1;
    if j < |bytes| && IsDigit(bytes[j]) {
      return None;
    }
    while j < |bytes| && IsTagByte(bytes[j])
      invariant start < j <= |bytes|
      invariant TagRun(bytes, start + 1) == TagRun(bytes, j)
    {
      j := j + 1;
    }
    r := if j < |bytes| && bytes[j] == DOLLAR then Some(j + 1) else None;
  }

  /** The first index at or after `from` where `needle` occurs. */
  method FindSubslice(haystack: seq<Byte>, needle: seq<Byte>, from: nat) returns (r: Option<nat>)
    ensures r == if needle == [] then None else Find(haystack, needle, from)
  {
    if needle == [] || from >= |haystack| {
      return None;
    }
    var at := from;
    while at < |haystack|
      invariant from <= at <= |haystack|
      invariant Find(haystack, needle, from) == Find(haystack, needle, at)
    {
      if at + |needle| <= |haystack| && haystack[at..at + |needle|] == needle {
        return Some(at);
      }
      at := at + 1;
    }
    r := None;
  }

  /** The last byte of a copy of `d` is the last byte of `d`. */
  lemma OccurrenceEnds(s: seq<Byte>, d: seq<Byte>, at: nat)
    requires d != [] && Occurs(s, d, at)
    ensures s[at + |d| - 1] == d[|d| - 1]
  {
    assert s[at..at + |d|][|d| - 1] == d[|d| - 1];
  }

  /** Copy a dollar-quoted body whose opening delimiter is `sql[start..tagEnd]`. */
  method CopyDollarQuote(out0: seq<Byte>, sql: seq<Byte>, start: nat, tagEnd: nat) returns (out: seq<Byte>, i: nat)
    requires AsciiCuts(sql)
    requires start + 2 <= tagEnd <= |sql| && sql[start] == DOLLAR && sql[tagEnd - 1] == DOLLAR
    ensures i == DollarEnd(sql, start, tagEnd) && IsBoundary(sql, i)
    ensures out == out0 + sql[start..i]
  {
    var open := Slice(sql, start, tagEnd);
    out := out0 + open;
    i := tagEnd;
    var closeAt := FindSubslice(sql, open, i);
    var bodyEnd := |sql|;
    if closeAt.Some? {
      bodyEnd := closeAt.value + |open|;
      OccurrenceEnds(sql, open, closeAt.value);
    }
    out := out + Slice(sql, i, bodyEnd);
    i := bodyEnd;
    Extend(out0, sql, start, tagEnd, i);
  }

  /** A `?` in code: an escape, a jsonb operator or a parameter. */
  method CopyQuestionMark(out0: seq<Byte>, sql: seq<Byte>, start: nat, n: nat)
    returns (out: seq<Byte>, i: nat, n': nat)
    requires AsciiCuts(sql)
    requires At(sql, start, QMARK)
    ensures IsCopied(sql, start, n, out0, out, i, n')
  {
    out, i, n' := out0, start, n;
    if i + 1 < |sql| && sql[i + 1] == QMARK {
      assert NextToken(sql, start) == Token(Escaped, start + 2);
      out := out + [QMARK];
      i := i + 2;
    } else if i + 1 < |sql| && (sql[i + 1] == PIPE || sql[i + 1] == AMP) {
      assert NextToken(sql, start) == Token(JsonOp, start + 1) && sql[start..start + 1] == [QMARK];
      out := out + [QMARK];
      i := i + 1;
    } else {
      assert NextToken(sql, start) == Token(Param, start + 1);
      PaddedIsPad(n, 1);
      out := out + ([DOLLAR] + Pad(n, 1));
      n' := n + 1;
      i := i + 1;
    }
  }

  /** The token at `start` has been written after `out0`, and the scanner stands behind it. */
  ghost predicate IsCopied(sql: seq<Byte>, start: nat, n: nat, out0: seq<Byte>, out: seq<Byte>, i: nat, n': nat)
    requires start < |sql|
  {
    var t := NextToken(sql, start);
    var seg := Segment(t.kind, sql[start..t.end]);
    i == t.end && out == out0 + Piece(seg, n) && n' == Bump(seg, n) && IsBoundary(sql, i)
  }

  lemma CopiedVerbatim(sql: seq<Byte>, start: nat, n: nat, out0: seq<Byte>, out: seq<Byte>, i: nat)
    requires start < |sql| && NextToken(sql, start).end == i && IsBoundary(sql, i)
    requires !NextToken(sql, start).kind.Param? && !NextToken(sql, start).kind.Escaped?
    requires out == out0 + sql[start..i]
    ensures IsCopied(sql, start, n, out0, out, i, n)
  {
  }

  /** The arms of the scanner's `match`, for a byte that neither opens nor continues an identifier. */
  method CopyToken(out0: seq<Byte>, sql: seq<Byte>, start: nat, n: nat) returns (out: seq<Byte>, i: nat, n': nat)
    requires AsciiCuts(sql)
    requires start < |sql| && !IsIdentStart(sql[start])
    ensures IsCopied(sql, start, n, out0, out, i, n')
  {
    var c := sql[start];
    out, i, n' := out0, start, n;
    if c == QMARK {
      out, i, n' := CopyQuestionMark(out, sql, i, n);
      return;
    }
    if c == QUOTE || c == DQUOTE {
      out, i := CopyQuoted(out, sql, i, c);
    } else if c == DASH && i + 1 < |sql| && sql[i + 1] == DASH {
      out, i := CopyLineComment(out, sql, i);
    } else if c == SLASH && i + 1 < |sql| && sql[i + 1] == STAR {
      out, i := CopyBlockComment(out, sql, i);
    } else if c == DOLLAR {
      var tagEnd := DollarQuoteTagEnd(sql, i);
      if tagEnd.Some? {
        DelimiterEndsInDollar(sql, i);
        out, i := CopyDollarQuote(out, sql, i, tagEnd.value);
      } else {
        out, i := PushByte(out, sql, i);
      }
    } else {
      out, i := PushByte(out, sql, i);
    }
    assert c < 0x80 && (start + 1 < |sql| ==> !IsCont(sql[start + 1]));
    CopiedVerbatim(sql, start, n, out0, out, i);
  }

  lemma DelimiterEndsInDollar(sql: seq<Byte>, i: nat)
    requires At(sql, i, DOLLAR) && DelimiterEnd(sql, i).Some?
    ensures sql[DelimiterEnd(sql, i).value - 1] == DOLLAR
  {
    var e := DelimiterEnd(sql, i).value;
    assert sql[i..e][e - i - 1] == DOLLAR;
  }

  /** What is left to write at `i`: inside an identifier its remainder comes first. */
  ghost function Remaining(sql: seq<Byte>, i: nat, inIdent: bool, n: nat): seq<Byte>
    requires i <= |sql|
  {
    if inIdent then sql[i..IdentEnd(sql, i)] + Render(Lex(sql, IdentEnd(sql, i)), n)
    else Render(Lex(sql, i), n)
  }

  lemma Reassociate(s: seq<Byte>, i: nat, j: nat, e: nat, rest: seq<Byte>)
    requires i <= j <= e <= |s|
    ensures s[i..e] + rest == s[i..j] + (s[j..e] + rest)
  {
  }

  lemma StepInIdent(sql: seq<Byte>, i: nat, j: nat, n: nat)
    requires i < j <= |sql| && IsIdentByte(sql[i]) && forall k :: i < k < j ==> IsCont(sql[k])
    ensures Remaining(sql, i, true, n) == sql[i..j] + Remaining(sql, j, true, n)
  {
    IdentSkip(sql, i, j);
    var e := IdentEnd(sql, j);
    Reassociate(sql, i, j, e, Render(Lex(sql, e), n));
  }

  lemma EnterIdent(sql: seq<Byte>, i: nat, j: nat, n: nat)
    requires i < j <= |sql| && IsIdentStart(sql[i]) && forall k :: i < k < j ==> IsCont(sql[k])
    ensures Remaining(sql, i, false, n) == sql[i..j] + Remaining(sql, j, true, n)
  {
    IdentSkip(sql, i + 1, j);
    var e := IdentEnd(sql, j);
    StepToken(sql, i, n);
    Reassociate(sql, i, j, e, Render(Lex(sql, e), n));
  }

  lemma StepToken(sql: seq<Byte>, i: nat, n: nat)
    requires i < |sql|
    ensures var t := NextToken(sql, i);
            var seg := Segment(t.kind, sql[i..t.end]);
            Remaining(sql, i, false, n) == Piece(seg, n) + Remaining(sql, t.end, false, Bump(seg, n))
  {
    var t := NextToken(sql, i);
    assert Lex(sql, i)[1..] == Lex(sql, t.end);
  }

  lemma LeaveIdent(sql: seq<Byte>, i: nat, n: nat)
    requires i < |sql| && !IsIdentByte(sql[i])
    ensures Remaining(sql, i, true, n) == Remaining(sql, i, false, n)
  {
    assert sql[i..i] == [];
  }

  // Every token of a string is a string, and so is every piece written for it.

  lemma {:induction false} QuotedEndIsBoundary(s: seq<Byte>, i: nat, q: Byte)
    requires AsciiCuts(s) && i <= |s| && q < 0x80
    ensures QuotedEnd(s, i, q) == |s| || IsBoundary(s, QuotedEnd(s, i, q))
    decreases |s| - i
  {
    if i < |s| && s[i] != q {
      QuotedEndIsBoundary(s, i + 1, q);
    } else if At(s, i, q) && At(s, i + 1, q) {
      QuotedEndIsBoundary(s, i + 2, q);
    }
  }

  lemma {:induction false} BlockEndIsBoundary(s: seq<Byte>, i: nat, depth: nat)
    requires AsciiCuts(s) && i <= |s| && (depth == 0 ==> IsBoundary(s, i))
    ensures IsBoundary(s, BlockEnd(s, i, depth))
    decreases |s| - i
  {
    if depth > 0 && i < |s| {
      if At2(s, i, SLASH, STAR) {
        BlockEndIsBoundary(s, i + 2, depth + 1);
      } else if At2(s, i, STAR, SLASH) {
        BlockEndIsBoundary(s, i + 2, depth - 1);
      } else {
        BlockEndIsBoundary(s, i + 1, depth);
      }
    }
  }

  lemma {:induction false} LineEndIsBoundary(s: seq<Byte>, i: nat)
    requires i <= |s|
    ensures IsBoundary(s, LineEnd(s, i))
    decreases |s| - i
  {
    if i < |s| && s[i] != NEWLINE {
      LineEndIsBoundary(s, i + 1);
    }
  }

  lemma {:induction false} IdentEndIsBoundary(s: seq<Byte>, i: nat)
    requires i <= |s|
    ensures IsBoundary(s, IdentEnd(s, i))
    decreases |s| - i
  {
    if i < |s| && IsIdentByte(s[i]) {
      IdentEndIsBoundary(s, i + 1);
    }
  }

  lemma TokenEndIsBoundary(s: seq<Byte>, i: nat)
    requires AsciiCuts(s) && i < |s|
    ensures IsBoundary(s, NextToken(s, i).end)
  {
    if IsIdentStart(s[i]) {
      IdentEndIsBoundary(s, i + 1);
    } else if s[i] == QUOTE || s[i] == DQUOTE {
      QuotedEndIsBoundary(s, i + 1, s[i]);
    } else if At2(s, i, DASH, DASH) {
      LineEndIsBoundary(s, i + 2);
    } else if At2(s, i, SLASH, STAR) {
      BlockEndIsBoundary(s, i + 2, 1);
    } else if s[i] == DOLLAR && DelimiterEnd(s, i).Some? {
      DelimiterEndsInDollar(s, i);
      var bodyAt := DelimiterEnd(s, i).value;
      var open := s[i..bodyAt];
      if Find(s, open, bodyAt).Some? {
        OccurrenceEnds(s, open, Find(s, open, bodyAt).value);
      }
    }
  }

  lemma PieceIsWellFormed(s: Str, i: nat, n: nat)
    requires i < |s| && IsBoundary(s, i)
    ensures var t := NextToken(s, i);
            IsBoundary(s, t.end) && WellFormed(Piece(Segment(t.kind, s[i..t.end]), n))
  {
    var t := NextToken(s, i);
    StrHasAsciiCuts(s);
    TokenEndIsBoundary(s, i);
    SliceWellFormed(s, i, t.end);
    AsciiWellFormed([QMARK]);
    AsciiWellFormed([DOLLAR] + Padded(n, 1));
  }

  lemma {:induction false} RenderIsWellFormed(s: Str, i: nat, n: nat)
    requires i <= |s| && IsBoundary(s, i)
    ensures WellFormed(Render(Lex(s, i), n))
    decreases |s| - i
  {
    if i < |s| {
      var t := NextToken(s, i);
      var seg := Segment(t.kind, s[i..t.end]);
      PieceIsWellFormed(s, i, n);
      RenderIsWellFormed(s, t.end, Bump(seg, n));
      ConcatWellFormed(Piece(seg, n), Render(Lex(s, t.end), Bump(seg, n)));
      StepToken(s, i, n);
    }
  }

  /** One turn of the scanner's loop. */
  method ScanStep(out0: seq<Byte>, sql: seq<Byte>, start: nat, wasIdent: bool, n0: nat)
    returns (out: seq<Byte>, i: nat, inIdent: bool, n: nat)
    requires AsciiCuts(sql) && start < |sql| && IsBoundary(sql, start)
    ensures start < i <= |sql| && IsBoundary(sql, i)
    ensures out + Remaining(sql, i, inIdent, n) == out0 + Remaining(sql, start, wasIdent, n0)
  {
    out, i, inIdent, n := out0, start, wasIdent, n0;
    var c := sql[i];
    if c == DOLLAR && inIdent {
      out, i := PushByte(out, sql, i);
      StepInIdent(sql, start, i, n);
      Associate(out0, sql[start..i], Remaining(sql, i, true, n));
      return;
    }
    inIdent := if inIdent then IsIdentByte(c) else IsIdentStart(c);
    if inIdent {
      // A byte that opens or continues an identifier matches no other arm.
      out, i := PushByte(out, sql, i);
      if wasIdent {
        StepInIdent(sql, start, i, n);
      } else {
        EnterIdent(sql, start, i, n);
      }
      Associate(out0, sql[start..i], Remaining(sql, i, true, n));
    } else {
      if wasIdent {
        LeaveIdent(sql, i, n);
      }
      StepToken(sql, i, n);
      out, i, n := CopyToken(out, sql, i, n);
      Associate(out0, Piece(Segment(NextToken(sql, start).kind, sql[start..i]), n0), Remaining(sql, i, false, n));
    }
  }

  /** The scanner. Every slice it takes is on a character boundary, it terminates on every string, and
      its result is a string again. */
  method Scan(sql: Str) returns (out: Str)
    ensures out == Render(Lex(sql, 0), 1)
  {
    StrHasAsciiCuts(sql);
    RenderIsWellFormed(sql, 0, 1);
    var text: seq<Byte> := [];
    var i, nextParam, inIdent := 0, 1, false;
    while i < |sql|
      invariant 0 <= i <= |sql| && IsBoundary(sql, i)
      invariant text + Remaining(sql, i, inIdent, nextParam) == Remaining(sql, 0, false, 1)
    {
      text, i, inIdent, nextParam := ScanStep(text, sql, i, inIdent, nextParam);
    }
    assert text == text + Remaining(sql, i, inIdent, nextParam);
    out := text;
  }
}
