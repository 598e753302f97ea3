/** A result inside the runs of its connection: what its reader sees, whatever else is called. */
module DbalRuns {
  import opened Wrappers
  import opened DbalResult
  import opened DbalResultLaws
  import opened DbalConnection

  /** The call one step of the connection makes on the result `id`: its reader's own fetch or count, or
      the drain another statement causes. */
  function CallOn(s: State, op: Op, id: nat): Option<Call> {
    match op
    case FetchRow(i) => if i == id then Some(Fetch) else None
    case CountRows(i) => if i == id then Some(Count) else None
    case FreeResult(_) => None
    case DropResult(_) => None
    case _ => if s.openStream == Some(id) && id in s.live then Some(Drain) else None
  }

  ghost function CallsOn(s: State, ops: seq<Op>, id: nat): seq<Call>
    requires Runs(s, ops)
    decreases |ops|
  {
    if ops == [] then []
    else
      var rest := CallsOn(Step(s, ops[0]), ops[1..], id);
      var call := CallOn(s, ops[0], id);
      if call.Some? then [call.value] + rest else rest
  }

  /** The reader keeps the result. */
  predicate Kept(ops: seq<Op>, id: nat) {
    forall i :: 0 <= i < |ops| ==> ops[i] != FreeResult(id) && ops[i] != DropResult(id)
  }

  /** The view of `id` after one step is the view after the call that step makes on it. */
  lemma OneStepMoves(s: State, op: Op, id: nat)
    requires Inv(s) && Enabled(s, op) && id in s.live && op != FreeResult(id) && op != DropResult(id)
    ensures var end, call := Step(s, op), CallOn(s, op, id);
            && id in end.live && id in end.results
            && end.results[id] == (if call.Some? then After(s.results[id], call.value) else s.results[id])
  {
    if OfCaller(op) {
      if op.id != id {
        CallerKeepsOthers(s, op, id);
      }
    } else {
      SettleMoves(s, id);
      RequestKeepsResults(Settle(s), op, id);
    }
  }

  lemma SettleMoves(s: State, id: nat)
    requires Inv(s) && id in s.live
    ensures var end := Settle(s);
            && id in end.live && id in end.results && id < end.next
            && end.results[id] == (if s.openStream == Some(id) then AfterDrain(s.results[id]) else s.results[id])
  {
  }

  lemma KeptTail(ops: seq<Op>, id: nat)
    requires Kept(ops, id) && ops != []
    ensures Kept(ops[1..], id)
  {
    forall i | 0 <= i < |ops[1..]| ensures ops[1..][i] != FreeResult(id) && ops[1..][i] != DropResult(id) {
      assert ops[1..][i] == ops[i + 1];
    }
  }

  lemma AnswersOfCons(v: View, call: Call, rest: seq<Call>)
    ensures AfterAll(v, [call] + rest) == AfterAll(After(v, call), rest)
    ensures Answers(v, [call] + rest) == [AnswerOf(v, call)] + Answers(After(v, call), rest)
  {
    assert ([call] + rest)[1..] == rest;
  }

  /** Over every run of the connection a result its reader keeps is where its own calls, and the drains
      other calls caused, have brought it; nothing else moves it. */
  lemma {:induction false} ViewIsItsCalls(s: State, ops: seq<Op>, id: nat)
    requires Inv(s) && Runs(s, ops) && id in s.live && Kept(ops, id)
    ensures var end := RunAll(s, ops);
            && id in end.live && id in end.results
            && end.results[id] == AfterAll(s.results[id], CallsOn(s, ops, id))
    decreases |ops|
  {
    if ops != [] {
      var s', call := Step(s, ops[0]), CallOn(s, ops[0], id);
      StepKeepsInv(s, ops[0]);
      OneStepMoves(s, ops[0], id);
      KeptTail(ops, id);
      ViewIsItsCalls(s', ops[1..], id);
      if call.Some? {
        AnswersOfCons(s.results[id], call.value, CallsOn(s', ops[1..], id));
      }
    }
  }

  /** So, for a stream that ends well, over every run and however other statements interleave: the rows
      the reader was handed and the rows left are the rows that were produced, and its answers are those
      a buffered list would have given to the same calls. */
  lemma ReaderSeesTheBufferedList(s: State, ops: seq<Op>, id: nat, buffered: View)
    requires Inv(s) && Runs(s, ops) && id in s.live && Kept(ops, id) && Alike(s.results[id], buffered)
    ensures var calls, end := CallsOn(s, ops, id), RunAll(s, ops);
            && id in end.results
            && RowsOut(Answers(s.results[id], calls)) + end.results[id].rows == s.results[id].rows
            && Answers(s.results[id], calls) == Answers(buffered, calls)
            && Alike(end.results[id], AfterAll(buffered, calls))
  {
    ViewIsItsCalls(s, ops, id);
    RowsAreConserved(s.results[id], CallsOn(s, ops, id));
    StreamedRefinesBuffered(s.results[id], buffered, CallsOn(s, ops, id));
  }

  // ---------------------------------------------------------------------------------------------
  // From the opening call on

  /** What a stream shows when it is opened: its producer's rows, all of them, and the terminal ahead. */
  lemma OpenedShowsItsProducer(s: State, p: Producer)
    requires Inv(s) && !SettleThrows(s)
    ensures var op := Stream(false, Opens(p));
            var s' := Step(s, op);
            && OutcomeOf(s, op) == NewResult(s.next) && s.next !in s.results
            && s.next in s'.live && s.next in s'.results
            && s'.results[s.next] == View(p.rows, Some(p.terminal), 0)
            && s'.wire == Some(s.next) && s'.openStream == Some(s.next) && Inv(s')
  {
    StepKeepsInv(s, Stream(false, Opens(p)));
    assert Settle(s).next == s.next;
  }

  /** The count of a producer that ends well. */
  function FinalCount(affected: Option<int>): int {
    if affected.Some? then affected.value else 0
  }

  /** From the call that opened it, over every run in which its reader keeps it: the reader of a stream that
      ends well gets the answers of the list of its producer's rows, and the rows handed out plus the rows
      left are exactly the producer's. */
  lemma OpenedReaderSeesTheProducer(s: State, p: Producer, ops: seq<Op>)
    requires Inv(s) && !SettleThrows(s) && p.terminal.Finished?
    requires Runs(Step(s, Stream(false, Opens(p))), ops) && Kept(ops, s.next)
    ensures var s', id := Step(s, Stream(false, Opens(p))), s.next;
            var calls, end := CallsOn(s', ops, id), RunAll(s', ops);
            var list := View(p.rows, None, FinalCount(p.terminal.affected));
            && id in s'.results && id in end.results
            && Answers(s'.results[id], calls) == Answers(list, calls)
            && RowsOut(Answers(list, calls)) + end.results[id].rows == p.rows
  {
    OpenedShowsItsProducer(s, p);
    var s' := Step(s, Stream(false, Opens(p)));
    ReaderSeesTheBufferedList(s', ops, s.next, View(p.rows, None, FinalCount(p.terminal.affected)));
  }

  /** A producer that breaks: plain fetching hands out every row it produced, then its error once. */
  lemma OpenedThenBroken(s: State, p: Producer, n: nat, i: nat)
    requires Inv(s) && !SettleThrows(s) && p.terminal.Broken? && i < n
    ensures var s' := Step(s, Stream(false, Opens(p)));
            && s.next in s'.results
            && Answers(s'.results[s.next], Fetches(n))[i]
            == Row(if i < |p.rows| then Got(p.rows[i])
                   else if i == |p.rows| then Threw(p.terminal.code) else NoMore)
  {
    OpenedShowsItsProducer(s, p);
    FetchOrder(View(p.rows, Some(p.terminal), 0), n, i);
  }

  /** A statement that was complete when it opened: no rows, and its count. */
  lemma EndedAtOpen(s: State, affected: Option<int>)
    requires Inv(s) && !SettleThrows(s)
    ensures var s' := Step(s, Stream(false, EndsAtOpen(affected)));
            && OutcomeOf(s, Stream(false, EndsAtOpen(affected))) == NewResult(s.next)
            && s.next in s'.live && s.next in s'.results && s'.wire.None?
            && FetchAnswer(s'.results[s.next]) == NoMore
            && CountAnswer(s'.results[s.next]) == Some(FinalCount(affected))
  {
    SettlingClearsWire(s);
    assert Settle(s).next == s.next;
  }

  // ---------------------------------------------------------------------------------------------
  // What each call sends and reports

  /** The call is turned away before it sends: the open stream broke while it was settled, the statement
      sets the isolation level, or the transaction call does not fit the transaction. */
  predicate IsTurnedAway(s: State, op: Op)
    requires !OfCaller(op)
  {
    || SettleThrows(s)
    || (op.Stream? && op.isolation) || (op.Exec? && op.isolation)
    || (op.Begin? && s.inTx) || (op.Commit? && !s.inTx) || (op.RollBack? && !s.inTx)
  }

  /** The request went out and came back with an error. */
  predicate IsRefused(op: Op)
    requires !OfCaller(op)
  {
    || (op.Stream? && op.reply.Fails?) || (op.Exec? && op.answer.Refused?) || (op.OwnRead? && op.answer.Refused?)
    || (op.Begin? && op.tx.TxFailed?) || (op.Commit? && op.tx.TxFailed?) || (op.RollBack? && op.tx.TxFailed?)
  }

  function RefusalCode(op: Op): nat
    requires !OfCaller(op) && IsRefused(op)
  {
    match op
    case Stream(_, reply) => reply.code
    case Exec(_, answer) => answer.code
    case OwnRead(answer) => answer.code
    case Begin(tx) => tx.code
    case Commit(tx) => tx.code
    case RollBack(tx) => tx.code
  }

  /** A call sends one request, unless it is turned away before, and reading a result sends none. */
  lemma OneRequestPerCall(s: State, op: Op)
    requires Enabled(s, op)
    ensures OfCaller(op) ==> Step(s, op).requests == s.requests
    ensures !OfCaller(op) ==> Step(s, op).requests == s.requests + (if IsTurnedAway(s, op) then 0 else 1)
  {
    if !OfCaller(op) {
      assert Settle(s).requests == s.requests && Settle(s).inTx == s.inTx;
    }
  }

  /** Errors are reported and nothing else is: the settled stream's own error first, then what the request
      came back with; and success only after a request that succeeded or a rollback with nothing to do. */
  lemma OutcomesAreHonest(s: State, op: Op)
    requires !OfCaller(op)
    ensures SettleThrows(s) <==>
              && s.openStream.Some? && s.openStream.value in s.live && s.openStream.value in s.results
              && s.results[s.openStream.value].ending.Some? && s.results[s.openStream.value].ending.value.Broken?
    ensures SettleThrows(s) ==> OutcomeOf(s, op) == Thrown(s.results[s.openStream.value].ending.value.code)
    ensures !IsTurnedAway(s, op) && IsRefused(op) ==> OutcomeOf(s, op) == Thrown(RefusalCode(op))
    ensures !IsTurnedAway(s, op) && !IsRefused(op) ==>
              OutcomeOf(s, op) == if op.Stream? then NewResult(s.next) else Fine
    ensures IsTurnedAway(s, op) && !SettleThrows(s) ==>
              OutcomeOf(s, op) == if op.Stream? || op.Exec? then Unsupported
                                  else if op.RollBack? && s.commitEnded then Fine else WrongTxState
  {
  }

  /** A transaction is open after a begin that succeeded and closed after a commit or a rollback that did; a
      failure leaves it as the client says; nothing else touches it. */
  lemma TransactionFollowsItsCalls(s: State, op: Op)
    requires Enabled(s, op)
    ensures OfCaller(op) || op.Stream? || op.Exec? || op.OwnRead? ==> Step(s, op).inTx == s.inTx
    ensures (op.Begin? || op.Commit? || op.RollBack?) && IsTurnedAway(s, op) ==> Step(s, op).inTx == s.inTx
    ensures (op.Begin? || op.Commit? || op.RollBack?) && !IsTurnedAway(s, op) ==>
              Step(s, op).inTx == if op.tx.TxDone? then op.Begin? else op.tx.stillInTx
  {
    if !OfCaller(op) {
      assert Settle(s).inTx == s.inTx;
    }
  }

  /** Freeing a result cancels its stream if it is the open one, and leaves it empty. */
  lemma FreeCancels(s: State, id: nat)
    requires Inv(s) && id in s.live
    ensures var s' := Step(s, FreeResult(id));
            && s'.live == s.live && id in s'.results && FetchAnswer(s'.results[id]) == NoMore
            && s'.wire == (if s.wire == Some(id) then None else s.wire)
            && s'.cancelled == (if s.wire == Some(id) then s.cancelled + {id} else s.cancelled)
            && s'.requests == s.requests && s'.drained == s.drained
  {
  }
}
