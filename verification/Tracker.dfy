/** The two pin signals read off the last OK packet: transaction status and session mutation. */
module Tracker {
  import opened Utf8
  import opened Wrappers

  datatype StateChange =
    | SystemVariables(names: seq<seq<Byte>>)
    | TransactionState
    | IsTracked(on: bool)
    | OtherChange

  datatype OkPacket = OkPacket(inTransaction: bool, stateChanged: bool, changes: seq<StateChange>)

  datatype TxStatus = Idle | InTx | Failed

  function ToLower(b: Byte): Byte {
    if 0x41 <= b <= 0x5A then b + 32 else b
  }

  /** `autocommit`, the one variable the engine toggles itself. */
  const AUTOCOMMIT: seq<Byte> := [0x61, 0x75, 0x74, 0x6F, 0x63, 0x6F, 0x6D, 0x6D, 0x69, 0x74]

  /** Equal to `autocommit`, ignoring ASCII case. */
  predicate IsAllowlisted(name: seq<Byte>) {
    |name| == |AUTOCOMMIT| && forall i :: 0 <= i < |name| ==> ToLower(name[i]) == AUTOCOMMIT[i]
  }

  predicate NamesForeignVariable(c: StateChange) {
    c.SystemVariables? && exists i :: 0 <= i < |c.names| && !IsAllowlisted(c.names[i])
  }

  function TxStatusFromOk(ok: Option<OkPacket>): (s: TxStatus)
    ensures s != Failed && (s == InTx <==> ok.Some? && ok.value.inTransaction)
  {
    if ok.Some? && ok.value.inTransaction then InTx else Idle
  }

  /** The rule: a variable outside the allowlist changed, or the state-changed flag came alone. */
  ghost predicate IsMutation(changes: seq<StateChange>, stateChanged: bool) {
    || (exists i :: 0 <= i < |changes| && NamesForeignVariable(changes[i]))
    || (&& stateChanged
        && forall i :: 0 <= i < |changes| ==> !changes[i].SystemVariables? && !changes[i].TransactionState?)
  }

  ghost predicate ReportsMutation(ok: Option<OkPacket>) {
    ok.Some? && IsMutation(ok.value.changes, ok.value.stateChanged)
  }

  datatype Summary = Summary(hasSysvar: bool, hasForeignSysvar: bool, hasTxState: bool, stateChanged: bool)

  method AnyForeign(names: seq<seq<Byte>>) returns (b: bool)
    ensures b == NamesForeignVariable(SystemVariables(names))
  {
    for i := 0 to |names|
      invariant forall k :: 0 <= k < i ==> IsAllowlisted(names[k])
    {
      if !IsAllowlisted(names[i]) {
        return true;
      }
    }
    b := false;
  }

  method Summarize(changes: seq<StateChange>, stateChanged: bool) returns (s: Summary)
    ensures s.hasSysvar <==> exists i :: 0 <= i < |changes| && changes[i].SystemVariables?
    ensures s.hasForeignSysvar <==> exists i :: 0 <= i < |changes| && NamesForeignVariable(changes[i])
    ensures s.hasTxState <==> exists i :: 0 <= i < |changes| && changes[i].TransactionState?
    ensures s.stateChanged == stateChanged
  {
    s := Summary(false, false, false, stateChanged);
    for i := 0 to |changes|
      invariant s.hasSysvar <==> exists k :: 0 <= k < i && changes[k].SystemVariables?
      invariant s.hasForeignSysvar <==> exists k :: 0 <= k < i && NamesForeignVariable(changes[k])
      invariant s.hasTxState <==> exists k :: 0 <= k < i && changes[k].TransactionState?
      invariant s.stateChanged == stateChanged
    {
      match changes[i]
      case SystemVariables(names) =>
        s := s.(hasSysvar := true);
        var foreign := AnyForeign(names);
        if foreign {
          s := s.(hasForeignSysvar := true);
        }
      case TransactionState =>
        s := s.(hasTxState := true);
      case _ =>
    }
  }

  /** The taint verdict of one statement is the quantified rule; without an OK packet there is none. */
  method OkReportsSessionMutation(ok: Option<OkPacket>) returns (b: bool)
    ensures b == ReportsMutation(ok)
  {
    if ok.None? {
      return false;
    }
    var s := Summarize(ok.value.changes, ok.value.stateChanged);
    b := s.hasForeignSysvar || (s.stateChanged && !s.hasSysvar && !s.hasTxState);
  }

  lemma SameMembers(a: seq<StateChange>, b: seq<StateChange>, i: nat)
    requires multiset(a) == multiset(b) && i < |a|
    ensures exists j :: 0 <= j < |b| && b[j] == a[i]
  {
    assert a[i] in multiset(b);
  }

  lemma MutationTransfers(a: seq<StateChange>, b: seq<StateChange>, stateChanged: bool)
    requires multiset(a) == multiset(b) && IsMutation(a, stateChanged)
    ensures IsMutation(b, stateChanged)
  {
    if i :| 0 <= i < |a| && NamesForeignVariable(a[i]) {
      SameMembers(a, b, i);
    } else {
      forall j | 0 <= j < |b| ensures !b[j].SystemVariables? && !b[j].TransactionState? {
        SameMembers(b, a, j);
      }
    }
  }

  /** The verdict does not depend on the order in which the server lists the trackers. */
  lemma OrderDoesNotMatter(a: seq<StateChange>, b: seq<StateChange>, stateChanged: bool)
    requires multiset(a) == multiset(b)
    ensures IsMutation(a, stateChanged) == IsMutation(b, stateChanged)
  {
    if IsMutation(a, stateChanged) {
      MutationTransfers(a, b, stateChanged);
    } else if IsMutation(b, stateChanged) {
      MutationTransfers(b, a, stateChanged);
    }
  }
}
