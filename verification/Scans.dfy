/**
  The life of a vulnerability scan: bounded slots, a cancellable run, guarded commits, and the race
  between a cancel request and the scan's own result.

  Each transition is one critical section of the lifecycle's mutex, or one event outside it; any
  interleaving of scans, cancel requests and timeouts is a sequence of transitions.
 */
module Scans {
  import opened Common

  const CAPACITY: nat := 2

  datatype Intent = Succeed | Fail | CancelIntent | Interrupt

  /** Where a scan is in its run. */
  datatype Stage = Holding | Scanning | Drained | Saved | Marked(intent: Intent) | Finished(intent: Intent) | Released

  /** Why a scan has no result: its own error, a cancelled context, or an expired one. */
  datatype Failure = ScanError | ContextCancelled | DeadlineExceeded

  /** `stopped` is a done context: by a cancel request or the parent, or, if `timedOut`, by the
      timeout. `committed` says the final result has been committed. */
  datatype Scan = Scan(
    server: string, stage: Stage, stopped: bool, timedOut: bool, requested: bool, finishing: bool,
    failure: Option<Failure>, unavailable: bool, committed: bool)

  datatype Event =
    | SlotTaken(id: nat)
    | SlotFreed(id: nat)
    | CancelAccepted(id: nat)
    | CheckpointCommitted(id: nat)
    | ResultCommitted(id: nat)
    | Terminated(id: nat, intent: Intent)

  datatype World = World(scans: map<nat, Scan>, active: map<string, nat>, slots: nat, log: seq<Event>)

  const IDLE: World := World(map[], map[], 0, [])

  datatype Move =
    | TakeSlot(id: nat, server: string)
    | Abandon(id: nat)
    | Admit(id: nat)
    | Stop(id: nat, timeout: bool)
    | Checkpoint(id: nat, commits: bool)
    | ScanReturns(id: nat, fails: bool, unavailable: bool)
    | SaveResult(id: nat, stages: bool, commits: bool)
    | Mark(id: nat)
    | Terminate(id: nat)
    | Release(id: nat)
    | Cancel(server: string, id: nat)

  /** A cancel request is honoured only for the active scan of that server, by its own identifier,
      and only before the scan has begun to finish. */
  predicate CancelApplies(w: World, server: string, id: nat) {
    server in w.active && w.active[server] == id && id in w.scans && !w.scans[id].finishing
  }

  /** The guard around a checkpoint commit. */
  predicate CheckpointAllowed(w: World, id: nat) {
    var s := w.scans;
    id in s && !s[id].stopped && s[id].server in w.active && w.active[s[id].server] == id && !s[id].finishing
  }

  /** The move can happen and has an effect. */
  predicate Enabled(w: World, m: Move) {
    if m.TakeSlot? then m.id !in w.scans && w.slots < CAPACITY
    else
      && m.id in w.scans
      && var s := w.scans[m.id];
         match m
         case Abandon(_) => s.stage.Holding?
         case Admit(_) => s.stage.Holding? && s.server !in w.active
         case Stop(_, _) => !s.stopped
         case Checkpoint(id, commits) => s.stage.Scanning? && CheckpointAllowed(w, id) && commits
         case ScanReturns(_, _, _) => s.stage.Scanning?
         case SaveResult(_, _, _) => s.stage.Drained?
         case Mark(_) => s.stage.Saved?
         case Terminate(_) => s.stage.Marked?
         case Release(_) => s.stage.Finished?
         case Cancel(server, id) => CancelApplies(w, server, id)
  }

  /** The error a step that may fail on its own reports, the context taking precedence. */
  function FailureOf(s: Scan, fails: bool): Option<Failure> {
    if s.stopped then Some(if s.timedOut then DeadlineExceeded else ContextCancelled)
    else if fails then Some(ScanError) else None
  }

  function IntentOf(s: Scan): Intent {
    if s.failure.None? then (if s.unavailable then Fail else Succeed)
    else if s.requested then CancelIntent
    else if s.failure.value.ContextCancelled? then Interrupt
    else Fail
  }

  /** The guarded commit of the final result takes place. */
  predicate Commits(s: Scan, m: Move) {
    m.SaveResult? && s.failure.None? && m.stages && !s.stopped && m.commits
  }

  function ScanAfter(s: Scan, m: Move): Scan {
    match m
    case TakeSlot(_, server) => Scan(server, Holding, false, false, false, false, None, false, false)
    case Abandon(_) => s.(stage := Released)
    case Admit(_) => s.(stage := Scanning)
    case Stop(_, timeout) => s.(stopped := true, timedOut := timeout)
    case Checkpoint(_, _) => s
    case ScanReturns(_, fails, unavailable) =>
      s.(stage := Drained, failure := FailureOf(s, fails), unavailable := unavailable)
    case SaveResult(_, stages, commits) =>
      if s.failure.Some? then s.(stage := Saved)
      else if !stages || s.stopped then s.(stage := Saved, failure := FailureOf(s, !stages))
      else if !commits then s.(stage := Saved, finishing := true, failure := Some(ScanError))
      else s.(stage := Saved, finishing := true, committed := true)
    case Mark(_) => s.(stage := Marked(IntentOf(s)), finishing := true)
    case Terminate(_) => if s.stage.Marked? then s.(stage := Finished(s.stage.intent)) else s
    case Release(_) => s.(stage := Released)
    case Cancel(_, _) => s.(requested := true, stopped := true)
  }

  function EventsOf(s: Scan, m: Move): seq<Event> {
    match m
    case TakeSlot(id, _) => [SlotTaken(id)]
    case Abandon(id) => [SlotFreed(id)]
    case Release(id) => [SlotFreed(id)]
    case Checkpoint(id, _) => [CheckpointCommitted(id)]
    case SaveResult(id, _, _) => if Commits(s, m) then [ResultCommitted(id)] else []
    case Terminate(id) => if s.stage.Marked? then [Terminated(id, s.stage.intent)] else []
    case Cancel(_, id) => [CancelAccepted(id)]
    case _ => []
  }

  const BLANK: Scan := Scan("", Holding, false, false, false, false, None, false, false)

  function Before(w: World, m: Move): Scan {
    if m.id in w.scans then w.scans[m.id] else BLANK
  }

  function Next(w: World, m: Move): World {
    if !Enabled(w, m) then w
    else
      var s := Before(w, m);
      World(w.scans[m.id := ScanAfter(s, m)],
            if m.Admit? then w.active[s.server := m.id] else if m.Release? then w.active - {s.server} else w.active,
            if m.TakeSlot? then w.slots + 1 else if (m.Abandon? || m.Release?) && w.slots > 0 then w.slots - 1 else w.slots,
            w.log + EventsOf(s, m))
  }

  function Run(w: World, moves: seq<Move>): World
    decreases |moves|
  {
    if moves == [] then w else Run(Next(w, moves[0]), moves[1..])
  }

  // ----- the invariant

  /** One scan is in a consistent state. */
  predicate ScanSound(s: Scan) {
    && (s.requested ==> s.stopped && !s.committed && s.stage != Holding)
    && (s.committed ==> s.finishing && s.failure.None? && !s.stage.Holding? && !s.stage.Scanning? && !s.stage.Drained?)
    && (s.stage.Holding? || s.stage.Scanning? || s.stage.Drained? ==> !s.finishing)
    && (s.stage.Saved? ==> s.failure.Some? != s.committed)
    && (s.stage.Marked? || s.stage.Finished? || s.stage.Released? ==> s.finishing || !s.requested)
    && (s.stage.Marked? || s.stage.Finished? ==> s.finishing && (s.requested ==> s.stage.intent == CancelIntent))
  }

  function HoldersOf(scans: map<nat, Scan>): set<nat> {
    set id | id in scans && !scans[id].stage.Released?
  }

  function Holders(w: World): set<nat> {
    HoldersOf(w.scans)
  }

  ghost predicate SlotsSound(w: World) {
    w.slots == |Holders(w)| <= CAPACITY
  }

  predicate Admitted(s: Scan) {
    !s.stage.Holding? && !s.stage.Released?
  }

  /** The active table lists exactly the admitted, unreleased scans, one per server. */
  ghost predicate ActiveSound(w: World) {
    && (forall server :: server in w.active ==>
          w.active[server] in w.scans && w.scans[w.active[server]].server == server && Admitted(w.scans[w.active[server]]))
    && (forall id :: id in w.scans && Admitted(w.scans[id]) ==>
          w.scans[id].server in w.active && w.active[w.scans[id].server] == id)
  }

  /** What an entry in the log says about the scan now. */
  predicate Reflected(w: World, e: Event) {
    && e.id in w.scans
    && match e
       case SlotTaken(id) => true
       case SlotFreed(id) => w.scans[id].stage.Released?
       case CancelAccepted(id) => w.scans[id].requested
       case CheckpointCommitted(id) => true
       case ResultCommitted(id) => w.scans[id].committed
       case Terminated(id, intent) => w.scans[id].finishing && !w.scans[id].stage.Marked? && w.scans[id].stage != Saved
  }

  /** Two log entries about the same scan, `a` before `b`. */
  predicate MayFollow(a: Event, b: Event) {
    a.id == b.id ==>
      && !(a.CancelAccepted? && (b.CheckpointCommitted? || b.ResultCommitted?))
      && !(a.CancelAccepted? && b.Terminated? && b.intent != CancelIntent)
      && !(a.ResultCommitted? && b.CancelAccepted?)
      && !(a.Terminated? && (b.CancelAccepted? || b.CheckpointCommitted? || b.ResultCommitted? || b.Terminated?))
      && !a.SlotFreed?
      && !b.SlotTaken?
  }

  ghost predicate LogSound(w: World) {
    && (forall i :: 0 <= i < |w.log| ==> Reflected(w, w.log[i]))
    && (forall i, j :: 0 <= i < j < |w.log| ==> MayFollow(w.log[i], w.log[j]))
  }

  ghost predicate Sound(w: World) {
    && (forall id :: id in w.scans ==> ScanSound(w.scans[id]))
    && SlotsSound(w) && ActiveSound(w) && LogSound(w)
  }

  // ----- every move keeps it

  lemma ScanKept(w: World, m: Move)
    requires Enabled(w, m) && ActiveSound(w) && (m.id in w.scans ==> ScanSound(w.scans[m.id]))
    ensures ScanSound(ScanAfter(Before(w, m), m))
  {
    hide CheckpointAllowed;
  }

  lemma ReleaseMoves(w: World, m: Move)
    requires Enabled(w, m)
    ensures var before, after := Before(w, m).stage, ScanAfter(Before(w, m), m).stage;
            && (m.TakeSlot? <==> m.id !in w.scans)
            && (m.Abandon? || m.Release? ==> !before.Released? && after.Released?)
            && (!m.Abandon? && !m.Release? ==> after.Released? == before.Released?)
  {
    hide CheckpointAllowed, CancelApplies, IntentOf, FailureOf;
  }

  lemma HoldersUpdate(scans: map<nat, Scan>, id: nat, s: Scan)
    ensures var before, after := HoldersOf(scans), HoldersOf(scans[id := s]);
            && (id in before <==> id in scans && !scans[id].stage.Released?)
            && |after| == |before| + (if s.stage.Released? then 0 else 1) - (if id in before then 1 else 0)
  {
    var before, after := HoldersOf(scans), HoldersOf(scans[id := s]);
    if s.stage.Released? {
      assert after == before - {id};
    } else {
      assert after == before + {id};
    }
  }

  lemma SlotsKept(w: World, m: Move)
    requires SlotsSound(w)
    ensures SlotsSound(Next(w, m))
  {
    if Enabled(w, m) {
      ReleaseMoves(w, m);
      assert m.TakeSlot? ==> w.slots < CAPACITY;
      HoldersUpdate(w.scans, m.id, ScanAfter(Before(w, m), m));
      hide Enabled, ScanAfter, HoldersOf;
    }
  }

  lemma ActiveKept(w: World, m: Move)
    requires ActiveSound(w)
    ensures ActiveSound(Next(w, m))
  {
    if Enabled(w, m) {
      AdmissionMoves(w, m);
      hide Enabled, ScanAfter;
    }
  }

  lemma AdmissionMoves(w: World, m: Move)
    requires Enabled(w, m)
    ensures var before, after := Before(w, m), ScanAfter(Before(w, m), m);
            && (m.TakeSlot? <==> m.id !in w.scans)
            && (m.Admit? ==> !Admitted(before) && Admitted(after) && before.server !in w.active)
            && (m.Release? ==> Admitted(before) && !Admitted(after))
            && (!m.Admit? && !m.Release? ==> Admitted(before) == Admitted(after))
            && (!m.TakeSlot? ==> after.server == before.server)
  {
    hide CheckpointAllowed, CancelApplies, IntentOf, FailureOf;
  }

  lemma StillReflected(w: World, m: Move, e: Event)
    requires Enabled(w, m) && Reflected(w, e) && (m.id in w.scans ==> ScanSound(w.scans[m.id]))
    ensures Reflected(Next(w, m), e)
  {
    hide CheckpointAllowed, CancelApplies;
  }

  lemma NewEvent(w: World, m: Move, e: Event)
    requires Enabled(w, m) && e in EventsOf(Before(w, m), m) && ActiveSound(w)
    requires m.id in w.scans ==> ScanSound(w.scans[m.id])
    ensures Reflected(Next(w, m), e)
    ensures forall a :: Reflected(w, a) ==> MayFollow(a, e)
  {
  }

  lemma LogKept(w: World, m: Move)
    requires Sound(w)
    ensures LogSound(Next(w, m))
  {
    if Enabled(w, m) {
      var w' := Next(w, m);
      var added := EventsOf(Before(w, m), m);
      assert |added| <= 1 && w'.log == w.log + added;
      forall i | 0 <= i < |w.log| ensures Reflected(w', w.log[i]) {
        StillReflected(w, m, w.log[i]);
      }
      if added != [] {
        NewEvent(w, m, added[0]);
      }
      hide Enabled, ScanAfter, EventsOf, Reflected, MayFollow, Next;
      assert forall i :: 0 <= i < |w.log| ==> w'.log[i] == w.log[i];
    }
  }

  /** Every interleaving of scans, cancel requests and timeouts keeps the protocol sound. */
  lemma {:induction false} RunKeeps(w: World, moves: seq<Move>)
    requires Sound(w)
    ensures Sound(Run(w, moves))
    decreases |moves|
  {
    if moves != [] {
      var m := moves[0];
      if Enabled(w, m) {
        ScanKept(w, m);
      }
      SlotsKept(w, m);
      ActiveKept(w, m);
      LogKept(w, m);
      hide Enabled, ScanAfter, SlotsSound, ActiveSound, LogSound, ScanSound;
      assert Sound(Next(w, m));
      RunKeeps(Next(w, m), moves[1..]);
    }
  }

  /** Cancel and commit exclude each other in every run: once a cancel request is accepted, no later
      checkpoint or result of that scan commits and its job ends as cancelled; once the result has
      committed, every cancel request is refused. Slots in use are exactly the scans holding one,
      never more than two, and no scan gives its slot back twice. */
  lemma CancelAndCommitExclude(moves: seq<Move>)
    ensures var w := Run(IDLE, moves);
            && (forall i, j :: 0 <= i < j < |w.log| ==> MayFollow(w.log[i], w.log[j]))
            && (forall i, server :: 0 <= i < |w.log| && w.log[i].ResultCommitted? ==> !CancelApplies(w, server, w.log[i].id))
            && w.slots == |Holders(w)| <= CAPACITY
  {
    RunKeeps(IDLE, moves);
    var w := Run(IDLE, moves);
    forall i, server | 0 <= i < |w.log| && w.log[i].ResultCommitted? ensures !CancelApplies(w, server, w.log[i].id) {
      assert Reflected(w, w.log[i]) && ScanSound(w.scans[w.log[i].id]);
    }
  }

  /** An undisturbed cancel request is honoured, and an undisturbed result commits. */
  lemma ProtocolMakesProgress(moves: seq<Move>, id: nat)
    ensures var w := Run(IDLE, moves);
            id in w.scans ==>
              var s := w.scans[id];
              && (Admitted(s) && !s.finishing ==> CancelApplies(w, s.server, id) && Next(w, Cancel(s.server, id)).scans[id].requested)
              && (s.stage.Drained? && s.failure.None? && !s.stopped ==> Next(w, SaveResult(id, true, true)).scans[id].committed)
              && (s.stage.Scanning? && !s.stopped ==> CheckpointAllowed(w, id))
  {
    hide Run, IntentOf, FailureOf;
    RunKeeps(IDLE, moves);
    var w := Run(IDLE, moves);
    assert id in w.scans ==> ScanSound(w.scans[id]);
  }

  // ----- how jobs end

  /** A slot is given exactly while fewer than two are in use, to a scan that nothing has happened to. */
  lemma SlotsAreGiven(w: World, id: nat, server: string)
    requires SlotsSound(w) && id !in w.scans
    ensures var v := Next(w, TakeSlot(id, server));
            if |Holders(w)| < 2
            then && id in v.scans && v.slots == w.slots + 1 && v.scans[id].server == server && v.scans[id].stage.Holding?
                 && !v.scans[id].stopped && !v.scans[id].timedOut && !v.scans[id].requested && !v.scans[id].finishing
                 && !v.scans[id].committed && !v.scans[id].unavailable && v.scans[id].failure.None?
            else v == w
  {
  }

  /** How a scan that nobody disturbs any more ends its job: cancelled if that was asked for, interrupted if
      its context was cancelled otherwise, a success exactly when its result is committed and the
      scanner was there, and a failure in all other cases, the timeout included. */
  lemma SettledExactly(w: World, id: nat, fails: bool, unavailable: bool, stages: bool, commits: bool)
    requires id in w.scans && w.scans[id].stage.Scanning? && ScanSound(w.scans[id])
    ensures var s := w.scans[id];
            var v := Next(Next(Next(w, ScanReturns(id, fails, unavailable)), SaveResult(id, stages, commits)), Mark(id));
            && id in v.scans && v.scans[id].stage.Marked?
            && v.scans[id].stage.intent ==
               (if s.requested then CancelIntent
                else if s.stopped then if s.timedOut then Fail else Interrupt
                else if !fails && stages && commits && !unavailable then Succeed else Fail)
            && (v.scans[id].committed <==> !s.stopped && !fails && stages && commits)
  {
  }

  /** The end of a job fits what happened to its scan. */
  predicate Fits(s: Scan, intent: Intent) {
    && (intent == CancelIntent <==> s.requested) && (intent == Succeed ==> s.committed)
    && (s.committed ==> intent == Succeed || intent == Fail)
  }

  ghost predicate OnRecord(w: World, id: nat) {
    id in w.scans ==>
      && (w.scans[id].committed ==> ResultCommitted(id) in w.log)
      && (w.scans[id].requested ==> CancelAccepted(id) in w.log)
      && (w.scans[id].stage.Marked? || w.scans[id].stage.Finished? ==> Fits(w.scans[id], w.scans[id].stage.intent))
      && forall intent :: Terminated(id, intent) in w.log ==> Fits(w.scans[id], intent)
  }

  lemma OnRecordElsewhere(w: World, m: Move, id: nat)
    requires OnRecord(w, id) && Enabled(w, m) && m.id != id
    ensures OnRecord(Next(w, m), id)
  {
    var added := EventsOf(Before(w, m), m);
    assert forall e :: e in added ==> e.id == m.id;
    hide EventsOf, ScanAfter, Enabled;
  }

  /** What a move does to the record of its own scan. */
  lemma MoveOnRecord(w: World, m: Move)
    requires Enabled(w, m) && m.id in w.scans && ScanSound(w.scans[m.id]) && OnRecord(w, m.id)
    ensures var s, t, added := w.scans[m.id], ScanAfter(w.scans[m.id], m), EventsOf(w.scans[m.id], m);
            && (t.committed ==> s.committed || ResultCommitted(m.id) in added)
            && (t.requested ==> s.requested || CancelAccepted(m.id) in added)
            && (t.stage.Marked? || t.stage.Finished? ==> Fits(t, t.stage.intent))
            && (s.finishing && s.stage != Saved ==> t.committed == s.committed && t.requested == s.requested)
            && (forall intent :: Terminated(m.id, intent) in added ==> s.stage == Marked(intent) && t.committed == s.committed && t.requested == s.requested)
  {
    hide CheckpointAllowed, FailureOf;
  }

  lemma {:induction false} OnRecordKept(w: World, m: Move, id: nat)
    requires Sound(w) && OnRecord(w, id)
    ensures OnRecord(Next(w, m), id)
  {
    if Enabled(w, m) {
      if id != m.id {
        OnRecordElsewhere(w, m, id);
      } else if id in w.scans {
        assert forall e :: e in w.log ==> Reflected(w, e);
        assert ScanSound(w.scans[id]);
        MoveOnRecord(w, m);
        hide SlotsSound, ActiveSound, MayFollow, EventsOf, ScanAfter, Enabled, ScanSound;
      } else {
        assert forall e :: e in w.log ==> Reflected(w, e);
        hide SlotsSound, ActiveSound, MayFollow, ScanSound;
      }
    }
  }

  lemma {:induction false} RunKeepsRecords(w: World, moves: seq<Move>, id: nat)
    requires Sound(w) && OnRecord(w, id)
    ensures OnRecord(Run(w, moves), id)
    decreases |moves|
  {
    hide Next, Sound, OnRecord;
    if moves != [] {
      OnRecordKept(w, moves[0], id);
      RunKeeps(w, [moves[0]]);
      assert Run(w, [moves[0]]) == Next(w, moves[0]);
      RunKeepsRecords(Next(w, moves[0]), moves[1..], id);
    }
  }

  /** In every run, a job ends as cancelled exactly if a cancel request was accepted, as a success only
      with a committed result, and with a committed result never otherwise than as a success or,
      without a scanner, a failure. */
  lemma JobsEndAsTheyWent(moves: seq<Move>, id: nat, intent: Intent)
    requires Terminated(id, intent) in Run(IDLE, moves).log
    ensures var log := Run(IDLE, moves).log;
            && (intent == CancelIntent <==> CancelAccepted(id) in log)
            && (intent == Succeed ==> ResultCommitted(id) in log)
            && (ResultCommitted(id) in log ==> intent == Succeed || intent == Fail)
  {
    RunKeeps(IDLE, moves);
    RunKeepsRecords(IDLE, moves, id);
    var w := Run(IDLE, moves);
    assert forall e :: e in w.log ==> Reflected(w, e);
  }

  // ----- the critical sections as the program runs them

  class Lifecycle {
    var scans: map<nat, Scan>
    var active: map<string, nat>
    var slots: nat
    var log: seq<Event>

    function View(): World
      reads this
    {
      World(scans, active, slots, log)
    }

    constructor ()
      ensures View() == IDLE
    {
      scans, active, slots, log := map[], map[], 0, [];
    }

    /** The request to cancel; refused once the scan has begun to finish. */
    method CancelScan(server: string, id: nat) returns (ok: bool)
      modifies this
      ensures ok == CancelApplies(old(View()), server, id)
      ensures View() == Next(old(View()), Cancel(server, id))
    {
      if server !in active || active[server] != id || id !in scans || scans[id].finishing {
        return false;
      }
      scans := scans[id := scans[id].(requested := true, stopped := true)];
      log := log + [CancelAccepted(id)];
      ok := true;
    }

    method CommitCheckpoint(id: nat, commits: bool) returns (ok: bool)
      requires id in scans && scans[id].stage.Scanning?
      modifies this
      ensures ok == (CheckpointAllowed(old(View()), id) && commits)
      ensures View() == Next(old(View()), Checkpoint(id, commits))
    {
      var s := scans[id];
      if s.stopped || s.server !in active || active[s.server] != id || s.finishing || !commits {
        return false;
      }
      assert scans == scans[id := s];
      log := log + [CheckpointCommitted(id)];
      ok := true;
    }

    /** Stages the result, then accepts it under the mutex unless the context is done. */
    static method AcceptCommit(s: Scan, m: Move) returns (r: Scan, ok: bool)
      requires m.SaveResult?
      ensures r == ScanAfter(s, m) && ok == Commits(s, m)
    {
      r, ok := s.(stage := Saved), false;
      if s.failure.Some? {
        return;
      }
      if !m.stages || s.stopped {
        r := r.(failure := FailureOf(s, !m.stages));
        return;
      }
      r := r.(finishing := true);
      ok := m.commits;
      if ok {
        r := r.(committed := true);
      } else {
        r := r.(failure := Some(ScanError));
      }
    }

    method CommitResult(id: nat, stages: bool, commits: bool) returns (ok: bool)
      requires id in scans && scans[id].stage.Drained?
      modifies this
      ensures ok == Commits(old(scans)[id], SaveResult(id, stages, commits))
      ensures View() == Next(old(View()), SaveResult(id, stages, commits))
    {
      hide ScanAfter, Commits;
      var s: Scan;
      s, ok := AcceptCommit(scans[id], SaveResult(id, stages, commits));
      scans := scans[id := s];
      if ok {
        log := log + [ResultCommitted(id)];
      }
    }

    /** Closes the scan to cancellation and settles how its job ends. */
    method Settle(id: nat) returns (intent: Intent)
      requires id in scans && scans[id].stage.Saved?
      modifies this
      ensures intent == IntentOf(old(scans)[id])
      ensures View() == Next(old(View()), Mark(id))
    {
      var requested := scans[id].requested;
      intent := Succeed;
      if scans[id].failure.Some? {
        intent := Fail;
        if requested {
          intent := CancelIntent;
        } else if scans[id].failure.value.ContextCancelled? {
          intent := Interrupt;
        }
      } else if scans[id].unavailable {
        intent := Fail;
      }
      scans := scans[id := scans[id].(stage := Marked(intent), finishing := true)];
    }
  }
}
