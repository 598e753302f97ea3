/** Reading for the waiting Fibers: which sessions are read, which are probed for life, and how long the
    scheduler may sleep first.

    The sessions, the socket readiness that `stream_select` reports and the clock readings are inputs;
    what a poll or a probe does to a session is recorded on that session and never thrown here.
 */
module LoopRead {
  import opened Wrappers

  /** A session with its select-ability, read timeout and nearest request deadline, in seconds. */
  datatype Session = Session(id: nat, selectable: bool, timeout: Option<real>, deadline: Option<real>)

  /** When each session last made progress. */
  type Clocks = map<nat, real>

  /** One look at the sockets: the time before the select, the sessions the select found readable, and the
      time each one was then polled or probed at. */
  datatype Look = Look(now: real, readable: set<nat>, at: nat -> real)

  datatype Act = Poll(id: nat) | Probe(id: nat) | Enforce(id: nat) | Select(seconds: int, micros: int)

  predicate CanSelect(s: Session) {
    s.selectable && s.timeout.Some?
  }

  /** The sessions are keyed by object. */
  predicate DistinctIds(sessions: seq<Session>) {
    forall i, j :: 0 <= i < j < |sessions| ==> sessions[i].id != sessions[j].id
  }

  /** When a session last made progress, as far as the loop knows; one never seen counts from now. */
  function Since(progress: Clocks, id: nat, now: real): real {
    if id in progress then progress[id] else now
  }

  /** What is left of a session's read timeout. */
  function Remaining(progress: Clocks, s: Session, now: real): real
    requires CanSelect(s)
  {
    s.timeout.value - (now - Since(progress, s.id, now))
  }

  /** Nothing was read from the session for its whole read timeout. */
  predicate IsSilent(progress: Clocks, s: Session, now: real) {
    CanSelect(s) && Remaining(progress, s, now) <= 0.0
  }

  /** How long the scheduler may sleep for one session: its silence and its deadline. */
  function Patience(progress: Clocks, s: Session, now: real): real
    requires CanSelect(s)
  {
    var r := Remaining(progress, s, now);
    var r := if r <= 0.0 then 0.0 else r;
    if s.deadline.None? then r else Min(r, Max(s.deadline.value - now, 0.001))
  }

  function Min(a: real, b: real): real {
    if a <= b then a else b
  }

  function Max(a: real, b: real): real {
    if a <= b then b else a
  }

  /** `nearest` is the least patience, and never more than a second. */
  ghost predicate IsNearest(nearest: real, progress: Clocks, sessions: seq<Session>, now: real)
    requires forall i :: 0 <= i < |sessions| ==> CanSelect(sessions[i])
  {
    && 0.0 <= nearest <= 1.0
    && (forall i :: 0 <= i < |sessions| ==> nearest <= Patience(progress, sessions[i], now))
    && (nearest < 1.0 ==> exists i :: 0 <= i < |sessions| && nearest == Patience(progress, sessions[i], now))
  }

  /** The time a select with these arguments may take. */
  function Sleep(act: Act): real
    requires act.Select?
  {
    act.seconds as real + act.micros as real / 1000000.0
  }

  /** What the socket of one session calls for, after the select. */
  function Judgement(progress: Clocks, s: Session, look: Look): seq<Act> {
    if s.id in look.readable then [Poll(s.id)]
    else if IsSilent(progress, s, look.now) then [Probe(s.id)]
    else []
  }

  function Judgements(progress: Clocks, sessions: seq<Session>, look: Look): seq<Act> {
    if sessions == [] then []
    else
      var n := |sessions| - 1;
      Judgements(progress, sessions[..n], look) + Judgement(progress, sessions[n], look)
  }

  function Enforcements(sessions: seq<Session>): (r: seq<Act>)
    ensures |r| == |sessions| && forall i :: 0 <= i < |r| ==> r[i] == Enforce(sessions[i].id)
  {
    seq(|sessions|, i requires 0 <= i < |sessions| => Enforce(sessions[i].id))
  }

  /** A session is polled exactly when its socket has something, and probed exactly when it has been silent
      for its whole timeout and the socket still has nothing: one with an answer waiting is never probed. */
  lemma {:induction false} JudgedFairly(progress: Clocks, sessions: seq<Session>, look: Look, k: nat)
    requires DistinctIds(sessions) && k < |sessions|
    ensures var acts, s := Judgements(progress, sessions, look), sessions[k];
            && (Poll(s.id) in acts <==> s.id in look.readable)
            && (Probe(s.id) in acts <==> s.id !in look.readable && IsSilent(progress, s, look.now))
    decreases |sessions|
  {
    var n := |sessions| - 1;
    if k < n {
      JudgedFairly(progress, sessions[..n], look, k);
    } else {
      NotJudged(progress, sessions[..n], look, sessions[n].id);
    }
  }

  lemma {:induction false} NotJudged(progress: Clocks, sessions: seq<Session>, look: Look, id: nat)
    requires forall i :: 0 <= i < |sessions| ==> sessions[i].id != id
    ensures Poll(id) !in Judgements(progress, sessions, look)
    ensures Probe(id) !in Judgements(progress, sessions, look)
    decreases |sessions|
  {
    if sessions != [] {
      NotJudged(progress, sessions[..|sessions| - 1], look, id);
    }
  }

  /** The clocks after a full read: judged sessions made progress (or got another timeout) at `at`, the
      others keep the clock they had or start one now. */
  function Clock(progress: Clocks, s: Session, look: Look): real {
    if Judgement(progress, s, look) != [] then look.at(s.id) else Since(progress, s.id, look.now)
  }

  class Poller {
    var lastProgress: Clocks
    ghost var acts: seq<Act>

    constructor ()
      ensures lastProgress == map[] && acts == []
    {
      lastProgress, acts := map[], [];
    }

    method Do(ghost act: Act)
      modifies this`acts
      ensures acts == old(acts) + [act]
    {
      acts := acts + [act];
    }

    /** One session's clock, silence and deadline. */
    method LookAt(s: Session, now: real, nearest0: real, silent0: set<nat>, ghost before: Clocks)
      returns (nearest: real, silent: set<nat>)
      requires CanSelect(s)
      requires s.id in before <==> s.id in lastProgress
      requires s.id in before ==> lastProgress[s.id] == before[s.id]
      modifies this`lastProgress
      ensures lastProgress == old(lastProgress)[s.id := Since(before, s.id, now)]
      ensures nearest == Min(nearest0, Patience(before, s, now))
      ensures silent == if IsSilent(before, s, now) then silent0 + {s.id} else silent0
    {
      nearest, silent := nearest0, silent0;
      if s.id !in lastProgress {
        lastProgress := lastProgress[s.id := now];
      }
      var remaining := s.timeout.value - (now - lastProgress[s.id]);
      if remaining <= 0.0 {
        silent := silent + {s.id};
        remaining := 0.0;
      }
      nearest := Min(nearest, remaining);
      if s.deadline.Some? {
        nearest := Min(nearest, Max(s.deadline.value - now, 0.001));
      }
    }

    /** Look at every session: the nearest clock and the silent ones, or the first that cannot be selected.
        Either way a clock is started for every session looked at that had none. */
    method Survey(sessions: seq<Session>, now: real) returns (nearest: real, silent: set<nat>, odd: Option<nat>)
      requires DistinctIds(sessions)
      modifies this`lastProgress
      ensures odd.Some? ==> odd.value < |sessions| && IsFirstOdd(sessions, odd.value)
      ensures odd.Some? ==> Seen(old(lastProgress), lastProgress, sessions[..odd.value], now)
      ensures odd.None? ==> Surveyed(nearest, silent, old(lastProgress), lastProgress, sessions, now)
    {
      nearest, silent, odd := 1.0, {}, None;
      ghost var before := lastProgress;
      for k := 0 to |sessions|
        invariant Surveyed(nearest, silent, before, lastProgress, sessions[..k], now)
      {
        if !CanSelect(sessions[k]) {
          FirstOdd(sessions, k);
          return nearest, silent, Some(k);
        }
        NotSeenYet(before, lastProgress, sessions, k, now);
        SurveyGrows(nearest, silent, before, lastProgress, sessions, k, now);
        nearest, silent := LookAt(sessions[k], now, nearest, silent, before);
      }
      assert sessions[..|sessions|] == sessions;
    }

    /** The waiting sessions are read, as the select finds them. */
    method ReadAny(sessions: seq<Session>, look: Look)
      requires sessions != [] && DistinctIds(sessions)
      modifies this
      // One session: a blocking read.
      ensures |sessions| == 1 ==> acts == old(acts) + [Poll(sessions[0].id)] && lastProgress == old(lastProgress)
      // A session that cannot be selected is read directly, and alone.
      ensures |sessions| > 1 ==>
                forall k :: 0 <= k < |sessions| && IsFirstOdd(sessions, k) ==>
                  && acts == old(acts) + [Poll(sessions[k].id)]
                  && ReadAlone(old(lastProgress), lastProgress, sessions, k, look)
      // Otherwise: sleep no longer than the nearest clock, enforce every deadline, then judge.
      ensures IsFull(sessions) ==> Slept(old(lastProgress), sessions, look, old(acts), acts)
      ensures IsFull(sessions) ==> Follows(old(lastProgress), lastProgress, sessions, look)
    {
      if |sessions| == 1 {
        Do(Poll(sessions[0].id));
        return;
      }
      var nearest, silent, odd := Survey(sessions, look.now);
      if odd.Some? {
        var id := sessions[odd.value].id;
        Do(Poll(id));
        lastProgress := lastProgress[id := look.at(id)];
        return;
      }
      var seconds := nearest.Floor;
      var micros := ((nearest - seconds as real) * 1000000.0).Floor;
      SleepIsNear(nearest, seconds, micros);
      ghost var select := Select(seconds, if micros < 1000 then 1000 else micros);
      Do(select);
      EnforceAll(sessions);
      Judge(sessions, silent, look, old(lastProgress));
      assert acts == old(acts) + [select] + Enforcements(sessions) + Judgements(old(lastProgress), sessions, look);
    }

    method EnforceAll(sessions: seq<Session>)
      modifies this`acts
      ensures acts == old(acts) + Enforcements(sessions)
    {
      for k := 0 to |sessions|
        invariant acts == old(acts) + Enforcements(sessions)[..k]
      {
        Do(Enforce(sessions[k].id));
      }
    }

    /** Poll what is readable, probe what is silent. */
    method Judge(sessions: seq<Session>, silent: set<nat>, look: Look, ghost before: Clocks)
      requires DistinctIds(sessions) && AreSilent(silent, before, sessions, look.now)
      requires Seen(before, lastProgress, sessions, look.now)
      modifies this
      ensures acts == old(acts) + Judgements(before, sessions, look)
      ensures Follows(before, lastProgress, sessions, look)
    {
      SeenIsUnjudged(before, lastProgress, sessions, look);
      for k := 0 to |sessions|
        invariant acts == old(acts) + Judgements(before, sessions[..k], look)
        invariant Judged(before, lastProgress, sessions, k, look)
      {
        OneMoreJudgement(before, sessions, k, look, old(acts));
        JudgedGrows(before, lastProgress, sessions, k, look);
        JudgeOne(sessions[k], silent, look, before);
      }
      assert sessions[..|sessions|] == sessions;
    }

    method JudgeOne(s: Session, silent: set<nat>, look: Look, ghost before: Clocks)
      requires s.id in silent <==> IsSilent(before, s, look.now)
      modifies this
      ensures acts == old(acts) + Judgement(before, s, look)
      ensures lastProgress == Restarted(before, old(lastProgress), s, look)
    {
      if s.id in look.readable {
        Do(Poll(s.id));
        lastProgress := lastProgress[s.id := look.at(s.id)];
      } else if s.id in silent {
        Do(Probe(s.id));
        lastProgress := lastProgress[s.id := look.at(s.id)];
      }
    }
  }

  /** A judged session's clock starts again. */
  function Restarted(before: Clocks, after: Clocks, s: Session, look: Look): Clocks {
    if Judgement(before, s, look) != [] then after[s.id := look.at(s.id)] else after
  }

  /** Several sessions, all of which can be selected on. */
  predicate IsFull(sessions: seq<Session>) {
    |sessions| > 1 && AllSelect(sessions)
  }

  /** The clocks after the session at `k` was read alone: those of the sessions before it were started. */
  ghost predicate ReadAlone(before: Clocks, after: Clocks, sessions: seq<Session>, k: nat, look: Look)
    requires k < |sessions|
  {
    exists seen: Clocks ::
      Seen(before, seen, sessions[..k], look.now) && after == seen[sessions[k].id := look.at(sessions[k].id)]
  }

  predicate AllSelect(sessions: seq<Session>) {
    forall i :: 0 <= i < |sessions| ==> CanSelect(sessions[i])
  }

  predicate IsFirstOdd(sessions: seq<Session>, k: nat)
    requires k < |sessions|
  {
    !CanSelect(sessions[k]) && forall i :: 0 <= i < k ==> CanSelect(sessions[i])
  }

  /** One select, no longer than a millisecond past the nearest clock and not shorter than a microsecond
      before it, then every deadline, then the judgements. */
  ghost predicate Slept(progress: Clocks, sessions: seq<Session>, look: Look, before: seq<Act>, after: seq<Act>)
    requires AllSelect(sessions)
  {
    exists select: Act, nearest: real ::
      && select.Select? && IsNearest(nearest, progress, sessions, look.now)
      && nearest - 0.000001 < Sleep(select) <= nearest + 0.001
      && after == before + [select] + Enforcements(sessions) + Judgements(progress, sessions, look)
  }

  /** The clocks after a look at `sessions`: the same, with a clock started now for each one never seen. */
  ghost predicate Seen(before: Clocks, after: Clocks, sessions: seq<Session>, now: real) {
    && (forall i :: 0 <= i < |sessions| ==> sessions[i].id in after)
    && (forall id :: id in before ==> id in after)
    && (forall id :: id in after ==> after[id] == Since(before, id, now))
    && (forall id :: id in after ==> id in before || IsListed(sessions, id))
  }

  ghost predicate IsListed(sessions: seq<Session>, id: nat) {
    exists i :: 0 <= i < |sessions| && sessions[i].id == id
  }

  /** `silent` holds the silent ones of `sessions`. */
  ghost predicate AreSilent(silent: set<nat>, progress: Clocks, sessions: seq<Session>, now: real) {
    && (forall i :: 0 <= i < |sessions| ==> (sessions[i].id in silent <==> IsSilent(progress, sessions[i], now)))
    && (forall id :: id in silent ==> IsListed(sessions, id))
  }

  ghost predicate Surveyed(
    nearest: real, silent: set<nat>, before: Clocks, after: Clocks, sessions: seq<Session>, now: real)
  {
    && AllSelect(sessions) && IsNearest(nearest, before, sessions, now)
    && AreSilent(silent, before, sessions, now)
    && Seen(before, after, sessions, now)
  }

  lemma FirstOdd(sessions: seq<Session>, k: nat)
    requires k < |sessions| && AllSelect(sessions[..k]) && !CanSelect(sessions[k])
    ensures IsFirstOdd(sessions, k)
  {
    assert forall i :: 0 <= i < k ==> sessions[..k][i] == sessions[i];
  }

  lemma SurveyGrows(
    nearest: real, silent: set<nat>, before: Clocks, after: Clocks, sessions: seq<Session>, k: nat, now: real)
    requires DistinctIds(sessions) && k < |sessions| && CanSelect(sessions[k])
    requires Surveyed(nearest, silent, before, after, sessions[..k], now)
    ensures var s := sessions[k];
            Surveyed(Min(nearest, Patience(before, s, now)),
                     if IsSilent(before, s, now) then silent + {s.id} else silent,
                     before, after[s.id := Since(before, s.id, now)], sessions[..k + 1], now)
  {
    NearestGrows(nearest, Min(nearest, Patience(before, sessions[k], now)), before, sessions, k, now);
    SilentGrows(silent, before, sessions, k, now);
    SeenGrows(before, after, sessions, k, now);
  }

  /** The clocks while judging: the first `k` sessions are done, and no other session's clock moved. */
  ghost predicate Judged(before: Clocks, after: Clocks, sessions: seq<Session>, k: nat, look: Look) {
    && (forall i :: 0 <= i < |sessions| ==>
          && sessions[i].id in after
          && after[sessions[i].id]
          == if i < k then Clock(before, sessions[i], look) else Since(before, sessions[i].id, look.now))
    && (forall id :: id in before && !IsListed(sessions, id) ==> id in after && after[id] == before[id])
    && (forall id :: id in after ==> id in before || IsListed(sessions, id))
  }

  /** The clocks after a full read. */
  ghost predicate Follows(before: Clocks, after: Clocks, sessions: seq<Session>, look: Look) {
    Judged(before, after, sessions, |sessions|, look)
  }

  lemma SeenIsUnjudged(before: Clocks, after: Clocks, sessions: seq<Session>, look: Look)
    requires Seen(before, after, sessions, look.now)
    ensures Judged(before, after, sessions, 0, look)
  {
  }

  lemma OneMoreJudgement(before: Clocks, sessions: seq<Session>, k: nat, look: Look, acts: seq<Act>)
    requires k < |sessions|
    ensures acts + Judgements(before, sessions[..k], look) + Judgement(before, sessions[k], look)
         == acts + Judgements(before, sessions[..k + 1], look)
  {
    assert sessions[..k + 1][..k] == sessions[..k];
  }

  lemma JudgedGrows(before: Clocks, after: Clocks, sessions: seq<Session>, k: nat, look: Look)
    requires DistinctIds(sessions) && k < |sessions| && Judged(before, after, sessions, k, look)
    ensures Judged(before, Restarted(before, after, sessions[k], look), sessions, k + 1, look)
  {
    assert IsListed(sessions, sessions[k].id);
  }

  lemma NotSeenYet(before: Clocks, after: Clocks, sessions: seq<Session>, k: nat, now: real)
    requires DistinctIds(sessions) && k < |sessions| && Seen(before, after, sessions[..k], now)
    ensures sessions[k].id in after <==> sessions[k].id in before
    ensures sessions[k].id in before ==> after[sessions[k].id] == before[sessions[k].id]
  {
  }

  lemma SeenGrows(before: Clocks, after: Clocks, sessions: seq<Session>, k: nat, now: real)
    requires k < |sessions| && Seen(before, after, sessions[..k], now)
    ensures var id := sessions[k].id; Seen(before, after[id := Since(before, id, now)], sessions[..k + 1], now)
  {
    var more, id := sessions[..k + 1], sessions[k].id;
    assert more[k].id == id && forall i :: 0 <= i < k ==> more[i] == sessions[..k][i];
    forall i | i in after && i !in before ensures IsListed(more, i) {
      var j :| 0 <= j < |sessions[..k]| && sessions[..k][j].id == i;
      assert more[j].id == i;
    }
  }

  lemma SilentGrows(silent: set<nat>, progress: Clocks, sessions: seq<Session>, k: nat, now: real)
    requires DistinctIds(sessions) && k < |sessions| && AreSilent(silent, progress, sessions[..k], now)
    ensures var s := sessions[k];
            AreSilent(if IsSilent(progress, s, now) then silent + {s.id} else silent, progress, sessions[..k + 1], now)
  {
    var more, s := sessions[..k + 1], sessions[k];
    assert more[k] == s && forall i :: 0 <= i < k ==> more[i] == sessions[..k][i] == sessions[i];
    forall id | id in silent ensures IsListed(more, id) {
      var j :| 0 <= j < |sessions[..k]| && sessions[..k][j].id == id;
      assert more[j].id == id;
    }
  }

  lemma NearestGrows(was: real, nearest: real, progress: Clocks, sessions: seq<Session>, k: nat, now: real)
    requires k < |sessions| && AllSelect(sessions[..k]) && CanSelect(sessions[k])
    requires IsNearest(was, progress, sessions[..k], now) && nearest == Min(was, Patience(progress, sessions[k], now))
    ensures AllSelect(sessions[..k + 1]) && IsNearest(nearest, progress, sessions[..k + 1], now)
  {
    var more := sessions[..k + 1];
    assert forall i :: 0 <= i < k ==> more[i] == sessions[..k][i];
    assert more[k] == sessions[k];
  }

  lemma SleepIsNear(nearest: real, seconds: int, micros: int)
    requires 0.0 <= nearest && seconds == nearest.Floor && micros == ((nearest - seconds as real) * 1000000.0).Floor
    ensures var select := Select(seconds, if micros < 1000 then 1000 else micros);
            nearest - 0.000001 < Sleep(select) <= nearest + 0.001
  {
  }

  /** The select never outlasts anything it must not: not a second, not what is left of any session's read
      timeout, and not any request's deadline, by more than the millisecond it is rounded up to; and it is
      no busy wait: it lasts as long as the nearest of them allows, to a microsecond. */
  lemma SelectEndsInTime(progress: Clocks, sessions: seq<Session>, now: real, nearest: real, select: Act, i: nat)
    requires AllSelect(sessions) && i < |sessions| && IsNearest(nearest, progress, sessions, now)
    requires select.Select? && nearest - 0.000001 < Sleep(select) <= nearest + 0.001
    ensures Sleep(select) <= 1.001
    ensures var s := sessions[i];
            var left := s.timeout.value - (now - (if s.id in progress then progress[s.id] else now));
            && (left > 0.0 ==> Sleep(select) <= left + 0.001)
            && (left <= 0.0 ==> Sleep(select) <= 0.001)
            && (s.deadline.Some? ==>
                  Sleep(select) <= (if s.deadline.value - now > 0.001 then s.deadline.value - now else 0.001) + 0.001)
    ensures || Sleep(select) > 0.999999
            || exists j :: 0 <= j < |sessions| && Sleep(select) > Patience(progress, sessions[j], now) - 0.000001
  {
    assert nearest <= Patience(progress, sessions[i], now);
  }

  // ---------------------------------------------------------------------------------------------
  // Over repeated reads

  /** A run of full reads: the sessions and the look of each, and the clocks before, between and after. */
  datatype Round = Round(sessions: seq<Session>, look: Look)

  ghost predicate IsRun(rounds: seq<Round>, clocks: seq<Clocks>) {
    && |clocks| == |rounds| + 1
    && forall i :: 0 <= i < |rounds| ==>
         && IsFull(rounds[i].sessions) && DistinctIds(rounds[i].sessions)
         && Follows(clocks[i], clocks[i + 1], rounds[i].sessions, rounds[i].look)
  }

  /** The session is waited on at every read, and its socket never has anything. */
  ghost predicate StaysSilent(rounds: seq<Round>, s: Session) {
    forall i :: 0 <= i < |rounds| ==> s in rounds[i].sessions && s.id !in rounds[i].look.readable
  }

  predicate IsProbedAt(rounds: seq<Round>, clocks: seq<Clocks>, s: Session, n: nat)
    requires n < |rounds| && n < |clocks|
  {
    Probe(s.id) in Judgements(clocks[n], rounds[n].sessions, rounds[n].look)
  }

  /** One read leaves the clock of a session that is not yet silent where it was. */
  lemma ClockStays(before: Clocks, after: Clocks, round: Round, s: Session)
    requires Follows(before, after, round.sessions, round.look) && s in round.sessions && CanSelect(s)
    requires s.id !in round.look.readable && !IsSilent(before, s, round.look.now)
    ensures s.id in after && after[s.id] == Since(before, s.id, round.look.now)
  {
    var i :| 0 <= i < |round.sessions| && round.sessions[i] == s;
    assert after[round.sessions[i].id] == Clock(before, s, round.look);
  }

  /** The clock of a session that stays silent is the one it started with until its timeout is over,
      whatever the other sessions do. */
  lemma {:induction false} SilentClockHolds(rounds: seq<Round>, clocks: seq<Clocks>, s: Session, n: nat)
    requires IsRun(rounds, clocks) && StaysSilent(rounds, s) && CanSelect(s) && n < |rounds|
    requires var start := Since(clocks[0], s.id, rounds[0].look.now);
             forall i :: 0 <= i < n ==> rounds[i].look.now < start + s.timeout.value
    ensures Since(clocks[n], s.id, rounds[n].look.now) == Since(clocks[0], s.id, rounds[0].look.now)
    decreases n
  {
    if n > 0 {
      SilentClockHolds(rounds, clocks, s, n - 1);
      assert s in rounds[n - 1].sessions && s.id !in rounds[n - 1].look.readable;
      ClockStays(clocks[n - 1], clocks[n], rounds[n - 1], s);
    }
  }

  /** A busy session never keeps a silent one waiting: in any run of reads, a session whose socket never
      has anything is probed at the first read that comes a read timeout after its clock started, and at
      none before. */
  lemma SilentIsProbedOnTime(rounds: seq<Round>, clocks: seq<Clocks>, s: Session, n: nat)
    requires IsRun(rounds, clocks) && StaysSilent(rounds, s) && CanSelect(s) && n < |rounds|
    requires var start := Since(clocks[0], s.id, rounds[0].look.now);
             forall i :: 0 <= i < n ==> rounds[i].look.now < start + s.timeout.value
    ensures var start := Since(clocks[0], s.id, rounds[0].look.now);
            && (IsProbedAt(rounds, clocks, s, n) <==> rounds[n].look.now >= start + s.timeout.value)
            && forall i :: 0 <= i < n ==> !IsProbedAt(rounds, clocks, s, i)
  {
    ProbedIff(rounds, clocks, s, n);
    forall i | 0 <= i < n ensures !IsProbedAt(rounds, clocks, s, i) {
      ProbedIff(rounds, clocks, s, i);
    }
  }

  lemma ProbedIff(rounds: seq<Round>, clocks: seq<Clocks>, s: Session, n: nat)
    requires IsRun(rounds, clocks) && StaysSilent(rounds, s) && CanSelect(s) && n < |rounds|
    requires var start := Since(clocks[0], s.id, rounds[0].look.now);
             forall i :: 0 <= i < n ==> rounds[i].look.now < start + s.timeout.value
    ensures var start := Since(clocks[0], s.id, rounds[0].look.now);
            IsProbedAt(rounds, clocks, s, n) <==> rounds[n].look.now >= start + s.timeout.value
  {
    SilentClockHolds(rounds, clocks, s, n);
    var sessions := rounds[n].sessions;
    assert s in sessions;
    var k :| 0 <= k < |sessions| && sessions[k] == s;
    JudgedFairly(clocks[n], sessions, rounds[n].look, k);
  }
}
