/** What callers of a result may rely on, over every sequence of calls. */
module DbalResultLaws {
  import opened Wrappers
  import opened DbalResult

  /** The calls of a reader: fetching, asking for the count, and the connection draining the result
      because another statement is issued. */
  datatype Call = Fetch | Count | Drain

  datatype Answer = Row(f: Fetched) | Number(n: Option<int>) | Silent

  function After(v: View, call: Call): View {
    if call.Fetch? then AfterFetch(v) else AfterDrain(v)
  }

  function AnswerOf(v: View, call: Call): Answer {
    match call
    case Fetch => Row(FetchAnswer(v))
    case Count => Number(CountAnswer(v))
    case Drain => Silent
  }

  function AfterAll(v: View, calls: seq<Call>): View
    decreases |calls|
  {
    if calls == [] then v else AfterAll(After(v, calls[0]), calls[1..])
  }

  function Answers(v: View, calls: seq<Call>): (r: seq<Answer>)
    ensures |r| == |calls|
    decreases |calls|
  {
    if calls == [] then [] else [AnswerOf(v, calls[0])] + Answers(After(v, calls[0]), calls[1..])
  }

  /** A stream that will end well shows what a buffered result with the same rows and count shows. */
  predicate Alike(streamed: View, buffered: View) {
    && streamed.rows == buffered.rows && buffered.ending.None?
    && (|| streamed.ending == Some(Finished(Some(buffered.affected)))
        || (streamed.ending in {None, Some(Finished(None))} && streamed.affected == buffered.affected))
  }

  /** Refinement: on every interleaving of fetches, counts and drains by other statements, a streamed
      result over a successful producer gives the answers the buffered list gives. */
  lemma {:induction false} StreamedRefinesBuffered(streamed: View, buffered: View, calls: seq<Call>)
    requires Alike(streamed, buffered)
    ensures Answers(streamed, calls) == Answers(buffered, calls)
    ensures Alike(AfterAll(streamed, calls), AfterAll(buffered, calls))
    decreases |calls|
  {
    if calls != [] {
      StreamedRefinesBuffered(After(streamed, calls[0]), After(buffered, calls[0]), calls[1..]);
    }
  }

  function RowsOut(answers: seq<Answer>): seq<DbalResult.Row> {
    if answers == [] then []
    else (if answers[0].Row? && answers[0].f.Got? then [answers[0].f.row] else []) + RowsOut(answers[1..])
  }

  /** No row is lost, repeated or reordered: the rows handed out and the rows left are the rows that
      were there. */
  lemma {:induction false} RowsAreConserved(v: View, calls: seq<Call>)
    requires !DrainThrows(v)
    ensures RowsOut(Answers(v, calls)) + AfterAll(v, calls).rows == v.rows
    decreases |calls|
  {
    if calls != [] {
      var v' := After(v, calls[0]);
      RowsAreConserved(v', calls[1..]);
      var answers := Answers(v, calls);
      assert answers[1..] == Answers(v', calls[1..]);
      if v.rows != [] && calls[0].Fetch? {
        assert v.rows == [v.rows[0]] + v'.rows;
      }
    }
  }

  function Fetches(n: nat): (calls: seq<Call>)
    ensures |calls| == n && forall i :: 0 <= i < n ==> calls[i] == Fetch
  {
    seq(n, _ => Fetch)
  }

  /** The plain fetch path: every row before the terminal, then a mid-stream error once, then nothing. */
  lemma {:induction false} FetchOrder(v: View, n: nat, i: nat)
    requires i < n
    ensures Answers(v, Fetches(n))[i]
         == Row(if i < |v.rows| then Got(v.rows[i])
                else if i == |v.rows| && DrainThrows(v) then Threw(v.ending.value.code)
                else NoMore)
    decreases n
  {
    assert Fetches(n)[1..] == Fetches(n - 1);
    if i > 0 {
      FetchOrder(AfterFetch(v), n - 1, i - 1);
    }
  }

  /** Once a stream is bound to end with a count, that count is the answer whenever it is asked: before,
      between or after the fetches, after a drain, and after a free that came late enough. */
  lemma {:induction false} CountIsStable(v: View, a: int, calls: seq<Call>)
    requires v.ending == Some(Finished(Some(a))) || (v.ending.None? && v.affected == a)
    ensures CountAnswer(AfterAll(v, calls)) == Some(a)
    ensures v.ending.None? ==> AfterAll(v, calls).ending.None?
    ensures AfterAll(v, calls).ending.None? ==> CountAnswer(Freed(AfterAll(v, calls))) == Some(a)
    ensures AfterAll(v, calls).ending.Some? ==> CountAnswer(Freed(AfterAll(v, calls))) == Some(v.affected)
    decreases |calls|
  {
    if calls != [] {
      CountIsStable(After(v, calls[0]), a, calls[1..]);
      KeepsCount(v, calls[0]);
    }
  }

  lemma KeepsCount(v: View, call: Call)
    ensures After(v, call).ending.Some? ==> After(v, call).affected == v.affected
  {
  }

  /** A drain that meets the producer's error raises it and leaves nothing behind; a free leaves nothing but
      the count already delivered. */
  lemma NothingIsLeft(v: View)
    ensures v.ending.Some? && v.ending.value.Broken? ==>
              && AfterDrain(v) == View([], None, v.affected) && CountAnswer(v) == None
              && FetchAnswer(AfterDrain(v)) == NoMore
    ensures Freed(v) == View([], None, v.affected)
    ensures FetchAnswer(Freed(v)) == NoMore && CountAnswer(Freed(v)) == Some(v.affected)
  {
  }
}
