/**
  The running service: interactive handlers hold a shared maintenance lease from before their first
  reading until they return, a restore takes the exclusive side, and it closes the database that
  requests already in flight loaded their session from. A restore that is rolled back closes it all
  the same.
 */
module LeasedRuns {
  import opened Common
  import opened Sessions
  import opened SessionRuns
  import opened LoginRuns

  /** `leases` are the requests whose handlers hold the shared lease. */
  datatype Service = Service(w: World, leases: set<nat>)

  const START: Service := Service(GENESIS, {})

  datatype Move =
    | Enter(r: nat)
    | Leave(r: nat)
    | Act(step: Step)
    | Rollback(archived: Tables, at: int, epoch: nat)
    | Restart

  /** Handlers read and stage under their lease; while any is held, a restore is refused. */
  predicate Admitted(s: Service, step: Step) {
    match step
    case Restore(_, _, _) => s.leases == {}
    case OpenAnonymous(r, _) => r !in s.leases
    case Open(r, _) => r !in s.leases
    case ReadAccount(r, _) => r in s.leases
    case ReadGuard(r) => r in s.leases
    case ReadEpoch(r) => r in s.leases
    case Stage(r, _) => r in s.leases
    case _ => true
  }

  /** The handler of `r` returns: what it has read is gone. */
  function Returned(w: World, r: nat): World {
    if r !in w.requests then w else Updated(w, r, w.requests[r].(seen := None, guard := None, epoch := None))
  }

  /** Requests whose database was closed store nothing any more. */
  function CutOff(w: World): World {
    w.(requests := map[])
  }

  /** The replacement was in service and is taken out again: the old tables return. */
  function RolledBack(w: World, archived: Tables, at: int, epoch: nat): World {
    CutOff(RestoreStep(w, archived, at, epoch)).(t := w.t)
  }

  function LeasedNext(s: Service, move: Move): Service {
    match move
    case Enter(r) => if r in s.w.requests then s.(leases := s.leases + {r}) else s
    case Leave(r) => Service(Returned(s.w, r), s.leases - {r})
    case Act(step) =>
      if !Admitted(s, step) then s
      else if step.Restore? && MayRestore(s.w, step.archived, step.epoch) then s.(w := CutOff(Next(s.w, step)))
      else s.(w := Next(s.w, step))
    case Rollback(archived, at, epoch) => if s.leases != {} then s else s.(w := RolledBack(s.w, archived, at, epoch))
    case Restart => Service(CutOff(s.w), {})
  }

  function LeasedRun(s: Service, moves: seq<Move>): Service
    decreases |moves|
  {
    if moves == [] then s else LeasedRun(LeasedNext(s, moves[0]), moves[1..])
  }

  // ----- a move is a step, after which requests may be missing

  /** The step that a move takes, if any. */
  function Base(s: Service, move: Move): World {
    if move.Act? && Admitted(s, move.step) then Next(s.w, move.step) else s.w
  }

  predicate Forgets(q: Request, p: Request) {
    p == q || p == q.(seen := None, guard := None, epoch := None)
  }

  /** The same tables; requests may be missing or have forgotten their readings. */
  ghost predicate Fewer(w: World, v: World) {
    && v.t == w.t && v.owner == w.owner && w.used <= v.used && w.epochs <= v.epochs
    && (forall r :: r in v.requests ==> r in w.requests && Forgets(w.requests[r], v.requests[r]))
  }

  lemma MoveIsStep(s: Service, move: Move)
    ensures Fewer(Base(s, move), LeasedNext(s, move).w)
  {
    hide Next, AccountsSound, Readied;
  }

  lemma ActIsStep(s: Service, step: Step)
    requires Admitted(s, step) && !step.Restore?
    ensures LeasedNext(s, Act(step)) == s.(w := Next(s.w, step))
  {
    hide Next;
  }

  lemma FewerKeeps(w: World, v: World)
    requires Sound(w) && Fewer(w, v)
    ensures StepKeeps(w, v)
  {
    hide TablesSound;
    forall r | r in v.requests ensures RequestRecorded(v, v.requests[r]) && OwnerKnown(v.owner, v.requests[r].token, v.requests[r].data) {
      assert RequestRecorded(w, w.requests[r]) && OwnerKnown(w.owner, w.requests[r].token, w.requests[r].data);
    }
  }

  lemma BaseKeeps(s: Service, move: Move)
    requires Sound(s.w)
    ensures StepKeeps(s.w, Base(s, move))
  {
    hide Sound, Progress, Next;
    if move.Act? {
      NextKeeps(s.w, move.step);
    }
    Unmoved(s.w);
  }

  lemma MoveKeeps(s: Service, move: Move)
    requires Sound(s.w)
    ensures StepKeeps(s.w, LeasedNext(s, move).w)
  {
    hide Sound, Progress, LeasedNext, Base, Fewer;
    MoveIsStep(s, move);
    BaseKeeps(s, move);
    FewerKeeps(Base(s, move), LeasedNext(s, move).w);
    EpochOnRecord(s.w);
    ProgressComposes(s.w, Base(s, move), LeasedNext(s, move).w);
  }

  // ----- every request is of the present

  /** What the request holds was read under this epoch and is not ahead of its account. */
  predicate Present(t: Tables, q: Request) {
    && (q.data.identity.Some? ==> Level(t, q.data.identity.value) && q.data.epoch == t.epoch)
    && (q.seen.Some? ==> Level(t, q.seen.value))
    && (q.epoch.Some? ==> q.epoch.value == t.epoch)
  }

  ghost predicate AllPresent(w: World) {
    forall r :: r in w.requests ==> Present(w.t, w.requests[r])
  }

  /** Sound, and every request is of the present. */
  ghost predicate Live(w: World) {
    Sound(w) && AllPresent(w)
  }

  lemma LevelKept(w: World, v: World, q: Request)
    requires Progress(w, v) && v.t.epoch == w.t.epoch && Present(w.t, q)
    ensures Present(v.t, q)
  {
  }

  /** Where a request after a step comes from. */
  lemma RequestAfter(w: World, step: Step, r: nat)
    requires r in Next(w, step).requests && Sound(w) && !step.Restore?
    ensures var p := Next(w, step).requests[r];
            || (r in w.requests && p == w.requests[r])
            || (step.ReadAccount? && step.r == r && r in w.requests && step.id in w.t.users
                && p == w.requests[r].(seen := Some(Reading(w.t, step.id))))
            || (step.ReadGuard? && step.r == r && r in w.requests && p == w.requests[r].(guard := p.guard))
            || (step.ReadEpoch? && step.r == r && r in w.requests && p == w.requests[r].(epoch := Some(w.t.epoch)))
            || (step.OpenAnonymous? && step.r == r && p == Request(p.token, Data(None, 0, None), None, None, None))
            || (step.Open? && step.r == r && p.token in w.t.sessions && p == Request(p.token, w.t.sessions[p.token].data, None, None, None))
            || (step.Stage? && step.r == r && MayStage(w, r, p.token)
                && p == Request(p.token, StagedData(w.t, w.requests[r]), None, None, None))
  {
    hide Transact, StagedData, Sound;
  }

  lemma StepKeepsPresent(w: World, step: Step, r: nat)
    requires Live(w) && !step.Restore? && r in Next(w, step).requests
    ensures Present(Next(w, step).t, Next(w, step).requests[r])
  {
    NextKeeps(w, step);
    SameEpoch(w, step);
    RequestAfter(w, step, r);
    var p := Next(w, step).requests[r];
    assert p.token in w.t.sessions ==> RowCurrent(w.t, w.t.sessions[p.token]);
    hide Next, Sound, Progress;
    assert Present(w.t, p);
    LevelKept(w, Next(w, step), p);
  }

  lemma MoveKeepsPresent(s: Service, move: Move)
    requires Live(s.w)
    ensures AllPresent(LeasedNext(s, move).w)
  {
    MoveIsStep(s, move);
    var v := LeasedNext(s, move).w;
    forall r | r in v.requests ensures Present(v.t, v.requests[r]) {
      if move.Act? && Admitted(s, move.step) {
        if move.step.Restore? {
          assert v == s.w;
        } else {
          hide LeasedNext, Next, Sound;
          StepKeepsPresent(s.w, move.step, r);
        }
      }
    }
  }

  lemma {:induction false} LeasedRunKeeps(s: Service, moves: seq<Move>)
    requires Live(s.w)
    ensures Live(LeasedRun(s, moves).w) && Progress(s.w, LeasedRun(s, moves).w)
    decreases |moves|
  {
    hide LeasedNext, Sound, AllPresent, Progress;
    if moves == [] {
      ProgressItself(s.w);
    } else {
      var s' := LeasedNext(s, moves[0]);
      MoveKeeps(s, moves[0]);
      MoveKeepsPresent(s, moves[0]);
      LeasedRunKeeps(s', moves[1..]);
      EpochOnRecord(s.w);
      ProgressComposes(s.w, s'.w, LeasedRun(s', moves[1..]).w);
    }
  }

  /** In every state the service can reach, the tables are sound and every request in flight holds
      only what was read under the present epoch and is not ahead of its account. */
  lemma EveryServiceStateIsLive(moves: seq<Move>)
    ensures Live(LeasedRun(START, moves).w)
  {
    GenesisIsSound();
    LeasedRunKeeps(START, moves);
  }

  // ----- deleted tokens

  /** The token has no session and cannot get one: it has a tombstone, or no request holds it. */
  ghost predicate Dead(w: World, token: Token) {
    && token in w.used && token !in w.t.sessions
    && (token in w.t.tombstones || forall r :: r in w.requests ==> w.requests[r].token != token)
  }

  lemma StepKeepsDead(w: World, step: Step, token: Token)
    requires Sound(w) && Dead(w, token) && !step.Restore?
    ensures Dead(Next(w, step), token)
  {
    NextKeeps(w, step);
    var v := Next(w, step);
    UsedGrows(w, v);
    hide Next, Sound, Progress, Admits;
    if token in v.t.sessions {
      Stored(w, step, token);
    }
    if token in w.t.tombstones {
      TombstoneKept(w, step, token);
    } else {
      forall r | r in v.requests ensures v.requests[r].token != token {
        if v.requests[r].token == token {
          Holders(w, step, token, r);
        }
      }
    }
  }

  lemma MoveKeepsDead(s: Service, move: Move, token: Token)
    requires Sound(s.w) && Dead(s.w, token)
    ensures Dead(LeasedNext(s, move).w, token)
  {
    MoveIsStep(s, move);
    if move.Act? && Admitted(s, move.step) {
      if move.step.Restore? {
        hide AccountsSound, Sound;
        assert MayRestore(s.w, move.step.archived, move.step.epoch) ==>
            Readied(move.step.archived, move.step.step, move.step.epoch).sessions == map[];
      } else {
        hide LeasedNext, Next, Sound;
        StepKeepsDead(s.w, move.step, token);
      }
    }
  }

  lemma {:induction false} DeadStaysDead(s: Service, moves: seq<Move>, token: Token)
    requires Sound(s.w) && Dead(s.w, token)
    ensures token !in LeasedRun(s, moves).w.t.sessions
    decreases |moves|
  {
    hide LeasedNext, Sound;
    if moves != [] {
      MoveKeeps(s, moves[0]);
      MoveKeepsDead(s, moves[0], token);
      DeadStaysDead(LeasedNext(s, moves[0]), moves[1..], token);
    }
  }

  /** From a fresh installation on, a token once deleted never has a session again: whatever is
      restored, rolled back or still in flight. */
  lemma DeletedTokenNeverReturns(start: seq<Move>, token: Token, after: seq<Move>)
    requires token in LeasedRun(START, start).w.t.tombstones
    ensures token !in LeasedRun(LeasedRun(START, start), after).w.t.sessions
  {
    EveryServiceStateIsLive(start);
    var s := LeasedRun(START, start);
    SoundTables(s.w);
    hide LeasedRun;
    DeadStaysDead(s, after, token);
  }

  // ----- revoked logins

  /** The move takes away what a login of account `id` prepared before it could have obtained. A
      restore that is refused is no revocation. */
  predicate RevokedBy(s: Service, move: Move, id: nat) {
    move.Act? && Admitted(s, move.step) && Revokes(s.w, move.step, id)
  }

  predicate RevokedAlong(s: Service, moves: seq<Move>, id: nat)
    decreases |moves|
  {
    moves != [] && (RevokedBy(s, moves[0], id) || RevokedAlong(LeasedNext(s, moves[0]), moves[1..], id))
  }

  /** The account has moved past whatever identity of `id` the login of `r` could stage. */
  ghost predicate Overtaken(w: World, r: nat, id: nat) {
    r in w.requests && w.requests[r].seen.Some? ==>
      var q := w.requests[r];
      && (q.seen.value.account == id ==> Behind(w.t, q.seen.value))
      && (q.data.identity.Some? && q.data.identity.value.account == id ==> Behind(w.t, q.data.identity.value))
  }

  /** The move neither reads an account for `r` nor stages its login. */
  predicate Leaves(move: Move, r: nat) {
    move.Act? ==> !(move.step.ReadAccount? && move.step.r == r) && !(move.step.Stage? && move.step.r == r)
  }

  predicate AllLeave(moves: seq<Move>, r: nat) {
    forall i :: 0 <= i < |moves| ==> Leaves(moves[i], r)
  }

  lemma RevocationOvertakes(s: Service, move: Move, r: nat, id: nat)
    requires Live(s.w) && RevokedBy(s, move, id)
    ensures Overtaken(LeasedNext(s, move).w, r, id)
  {
    if !move.step.Restore? {
      RevokingMovesOn(s.w, move.step, id);
      assert r in s.w.requests ==> Present(s.w.t, s.w.requests[r]);
      hide Next, Sound, Revokes;
    } else {
      hide Next;
    }
  }

  lemma BehindKept(w: World, v: World, i: Identity)
    requires Progress(w, v) && v.t.epoch == w.t.epoch && Behind(w.t, i)
    ensures Behind(v.t, i)
  {
  }

  lemma StaysOvertaken(s: Service, move: Move, r: nat, id: nat)
    requires Sound(s.w) && Overtaken(s.w, r, id) && Leaves(move, r)
    ensures Overtaken(LeasedNext(s, move).w, r, id)
  {
    MoveIsStep(s, move);
    var v := LeasedNext(s, move).w;
    if r in v.requests && v.requests[r].seen.Some? && move.Act? && Admitted(s, move.step) {
      if !move.step.Restore? {
        NextKeeps(s.w, move.step);
        SameEpoch(s.w, move.step);
        RequestAfter(s.w, move.step, r);
        hide LeasedNext, Next, Sound, Progress, Behind;
        var q := s.w.requests[r];
        if q.seen.value.account == id {
          BehindKept(s.w, v, q.seen.value);
        }
        if q.data.identity.Some? && q.data.identity.value.account == id {
          BehindKept(s.w, v, q.data.identity.value);
        }
      }
    }
  }

  lemma {:induction false} RevokedIsOvertaken(s: Service, moves: seq<Move>, r: nat, id: nat)
    requires Live(s.w) && AllLeave(moves, r) && (RevokedAlong(s, moves, id) || Overtaken(s.w, r, id))
    ensures Overtaken(LeasedRun(s, moves).w, r, id)
    decreases |moves|
  {
    hide LeasedNext, Sound, AllPresent, Progress, Overtaken, RevokedBy, Leaves;
    if moves != [] {
      MoveKeeps(s, moves[0]);
      MoveKeepsPresent(s, moves[0]);
      if Overtaken(s.w, r, id) {
        StaysOvertaken(s, moves[0], r, id);
      } else if RevokedBy(s, moves[0], id) {
        RevocationOvertakes(s, moves[0], r, id);
      }
      RevokedIsOvertaken(LeasedNext(s, moves[0]), moves[1..], r, id);
    }
  }

  // ----- from staging on

  lemma FewerKeepsBarred(w: World, v: World, token: Token)
    requires Fewer(w, v) && TokenBarred(w, token)
    ensures TokenBarred(v, token)
  {
    forall r | r in v.requests && v.requests[r].token == token ensures DataStale(v, v.requests[r].data) {
      assert DataStale(w, w.requests[r].data);
    }
  }

  lemma MoveKeepsBarred(s: Service, move: Move, token: Token)
    requires Sound(s.w) && TokenBarred(s.w, token)
    ensures TokenBarred(LeasedNext(s, move).w, token)
  {
    MoveIsStep(s, move);
    hide Sound, LeasedNext, Next, TokenBarred, Fewer;
    if move.Act? && Admitted(s, move.step) {
      TokenBarredKept(s.w, move.step, token);
    }
    FewerKeepsBarred(Base(s, move), LeasedNext(s, move).w, token);
  }

  lemma {:induction false} BarredStaysBarred(s: Service, moves: seq<Move>, token: Token)
    requires Sound(s.w) && TokenBarred(s.w, token)
    ensures token !in LeasedRun(s, moves).w.t.sessions
    decreases |moves|
  {
    hide LeasedNext, Sound;
    if moves != [] {
      MoveKeeps(s, moves[0]);
      MoveKeepsBarred(s, moves[0], token);
      BarredStaysBarred(LeasedNext(s, moves[0]), moves[1..], token);
    }
  }

  /** A token speaks for no account but the one it was issued to. */
  lemma NotIssuedNotBound(s: Service, moves: seq<Move>, token: Token, id: nat)
    requires Live(s.w) && token in s.w.used && !IssuedTo(s.w, token, id)
    ensures !Bound(LeasedRun(s, moves).w.t, token, id)
  {
    LeasedRunKeeps(s, moves);
    var v := LeasedRun(s, moves).w;
    assert OwnerOf(v, token) == OwnerOf(s.w, token);
    if token in v.t.sessions {
      assert OwnerKnown(v.owner, token, v.t.sessions[token].data);
    }
  }

  lemma OvertakenIsBarred(w: World, r: nat, token: Token, id: nat)
    requires Sound(w) && MayStage(w, r, token) && Overtaken(w, r, id) && IssuedTo(Next(w, Stage(r, token)), token, id)
    ensures TokenBarred(Next(w, Stage(r, token)), token)
  {
    assert forall x :: x in w.requests ==> RequestRecorded(w, w.requests[x]);
    hide TablesSound, OwnersKnown, Progress;
  }

  lemma PresentIsSane(w: World, token: Token)
    requires Live(w) && token in w.used && token !in w.t.sessions
    ensures TokenSane(w, token)
  {
    hide TablesSound, OwnersKnown;
    forall r | r in w.requests && w.requests[r].token == token ensures DataSane(w, w.requests[r].data) {
      assert Present(w.t, w.requests[r]);
    }
  }

  /** A revocation while nothing is stored yet under the token. */
  lemma RevokedBeforeCommit(s: Service, move: Move, token: Token, id: nat, after: seq<Move>)
    requires Live(s.w) && token in s.w.used && token !in s.w.t.sessions && RevokedBy(s, move, id)
    ensures !Bound(LeasedRun(LeasedNext(s, move), after).w.t, token, id)
  {
    var s' := LeasedNext(s, move);
    MoveKeeps(s, move);
    MoveKeepsPresent(s, move);
    MoveIsStep(s, move);
    hide LeasedRun, LeasedNext, Next, Sound, AllPresent, Revokes, Fewer, TokenSane, TokenBarred, Admitted, Bound;
    if IssuedTo(s.w, token, id) {
      PresentIsSane(s.w, token);
      RevokedTokenIsBarred(s.w, move.step, token, id);
      FewerKeepsBarred(Next(s.w, move.step), s'.w, token);
      BarredStaysBarred(s', after, token);
      NotStoredNotBound(LeasedRun(s', after).w.t, token, id);
    } else {
      assert token in s'.w.used && OwnerOf(s'.w, token) == OwnerOf(s.w, token);
      NotIssuedNotBound(s', after, token, id);
    }
  }

  /** From a fresh installation on: once a login has read its account, it never obtains a session for
      it if the account is revoked before the login is staged, or after that but before anything is
      stored; whatever else happens before, between and after, restores included. */
  lemma EveryRevokedLoginFails(start: seq<Move>, r: nat, id: nat, early: seq<Move>, token: Token,
                               mid: seq<Move>, move: Move, after: seq<Move>)
    requires var s := LeasedRun(LeasedNext(LeasedRun(START, start), Act(ReadAccount(r, id))), early);
             AllLeave(early, r) && r in s.leases && MayStage(s.w, r, token)
    ensures var read := LeasedNext(LeasedRun(START, start), Act(ReadAccount(r, id)));
            var staged := LeasedNext(LeasedRun(read, early), Act(Stage(r, token)));
            var middle := LeasedRun(staged, mid);
            && (RevokedAlong(read, early, id) ==> !Bound(LeasedRun(staged, after).w.t, token, id))
            && (RevokedBy(middle, move, id) && token !in middle.w.t.sessions ==>
                  !Bound(LeasedRun(LeasedNext(middle, move), after).w.t, token, id))
  {
    var begun := LeasedRun(START, start);
    var read := LeasedNext(begun, Act(ReadAccount(r, id)));
    var ready := LeasedRun(read, early);
    var staged := LeasedNext(ready, Act(Stage(r, token)));
    var middle := LeasedRun(staged, mid);
    hide LeasedRun, LeasedNext, Next, Sound, AllPresent, Progress, RevokedAlong, RevokedBy, Bound, MayStage, AllLeave, Overtaken, TokenBarred;
    EveryServiceStateIsLive(start);
    MoveKeeps(begun, Act(ReadAccount(r, id)));
    MoveKeepsPresent(begun, Act(ReadAccount(r, id)));
    LeasedRunKeeps(read, early);
    MoveKeeps(ready, Act(Stage(r, token)));
    MoveKeepsPresent(ready, Act(Stage(r, token)));
    ActIsStep(ready, Stage(r, token));
    StagedIsUsed(ready.w, r, token);
    LeasedRunKeeps(staged, mid);
    if RevokedAlong(read, early, id) {
      RevokedIsOvertaken(read, early, r, id);
      if IssuedTo(staged.w, token, id) {
        OvertakenIsBarred(ready.w, r, token, id);
        BarredStaysBarred(staged, after, token);
        NotStoredNotBound(LeasedRun(staged, after).w.t, token, id);
      } else {
        NotIssuedNotBound(staged, after, token, id);
      }
    }
    if RevokedBy(middle, move, id) && token !in middle.w.t.sessions {
      UsedGrows(staged.w, middle.w);
      RevokedBeforeCommit(middle, move, token, id, after);
    }
  }

  // ----- logins under their lease

  /** The move concerns neither account `id` nor request `r`; restores may be tried. */
  predicate Aside(move: Move, id: nat, r: nat) {
    match move
    case Leave(x) => x != r
    case Act(step) => step.Restore? || Elsewhere(step, id, r)
    case Restart => false
    case _ => true
  }

  predicate AllAside(moves: seq<Move>, id: nat, r: nat) {
    forall i :: 0 <= i < |moves| ==> Aside(moves[i], id, r)
  }

  lemma AsideLeavesAlone(s: Service, move: Move, id: nat, r: nat)
    requires Sound(s.w) && id in s.w.t.users && r in s.w.requests && r in s.leases && Aside(move, id, r)
    ensures SameAccount(s.w, LeasedNext(s, move).w, id, r) && r in LeasedNext(s, move).leases
  {
    hide Next, Sound, Elsewhere;
    if move.Act? && !move.step.Restore? {
      ElsewhereLeavesAlone(s.w, move.step, id, r);
    }
  }

  lemma {:induction false} AllAsideLeaveAlone(s: Service, moves: seq<Move>, id: nat, r: nat)
    requires Sound(s.w) && id in s.w.t.users && r in s.w.requests && r in s.leases && AllAside(moves, id, r)
    ensures var v := LeasedRun(s, moves); Sound(v.w) && SameAccount(s.w, v.w, id, r) && r in v.leases
    decreases |moves|
  {
    hide Sound, LeasedNext, Aside;
    if moves != [] {
      MoveKeeps(s, moves[0]);
      AsideLeavesAlone(s, moves[0], id, r);
      AllAsideLeaveAlone(LeasedNext(s, moves[0]), moves[1..], id, r);
    }
  }

  /** Under its lease a login is not cost its session by changes to other accounts, nor by restores
      that are tried meanwhile. */
  lemma LeasedLoginSucceeds(s: Service, r: nat, id: nat, early: seq<Move>, token: Token, late: seq<Move>)
    requires Sound(s.w) && r in s.leases && r in s.w.requests && Complete(s.w.requests[r], id)
    requires Unchanged(s.w.t, s.w.requests[r].seen.value) && s.w.requests[r].epoch.value == s.w.t.epoch
    requires AllAside(early, id, r) && AllAside(late, id, r) && token !in LeasedRun(s, early).w.used
    ensures var done := LeasedRun(LeasedNext(LeasedRun(s, early), Act(Stage(r, token))), late);
            token !in done.w.t.tombstones ==> Bound(LeasedNext(done, Act(Commit(r))).w.t, token, id)
  {
    hide LeasedRun, LeasedNext, Next, Sound, Progress, AllAside, Bound;
    AllAsideLeaveAlone(s, early, id, r);
    var ready := LeasedRun(s, early);
    var staged := LeasedNext(ready, Act(Stage(r, token)));
    ActIsStep(ready, Stage(r, token));
    StagingAccepts(ready.w, r, id, token);
    MoveKeeps(ready, Act(Stage(r, token)));
    AllAsideLeaveAlone(staged, late, id, r);
    ActIsStep(LeasedRun(staged, late), Commit(r));
    CommitAccepts(LeasedRun(staged, late).w, r, id, token);
  }

  /** The handler enters and reads what a login reads. */
  function Read(s: Service, r: nat, id: nat): Service {
    LeasedNext(LeasedNext(LeasedNext(LeasedNext(s, Enter(r)), Act(ReadAccount(r, id))), Act(ReadGuard(r))), Act(ReadEpoch(r)))
  }

  lemma ReadingIsComplete(s: Service, r: nat, id: nat)
    requires r in s.w.requests && id in s.w.t.users && !s.w.t.users[id].disabled
    ensures var v := Read(s, r, id);
            && v.w.t == s.w.t && v.w.used == s.w.used && r in v.leases && r in v.w.requests && Complete(v.w.requests[r], id)
            && Unchanged(v.w.t, v.w.requests[r].seen.value) && v.w.requests[r].epoch.value == v.w.t.epoch
            && v.w.requests[r].token == s.w.requests[r].token
  {
  }

  /** From any state of the service, a request that enters, reads, stages and commits signs in to any
      enabled account; once it has left, a restore is admitted. */
  lemma LoginGoesThrough(s: Service, r: nat, id: nat, token: Token)
    requires Sound(s.w) && r in s.w.requests && id in s.w.t.users && !s.w.t.users[id].disabled && token !in s.w.used
    ensures var staged := LeasedNext(Read(s, r, id), Act(Stage(r, token)));
            Bound(LeasedNext(staged, Act(Commit(r))).w.t, token, id)
    ensures s.leases == {} ==> LeasedNext(LeasedNext(Read(s, r, id), Act(Stage(r, token))), Leave(r)).leases == {}
  {
    ReadingIsComplete(s, r, id);
    assert RequestRecorded(s.w, s.w.requests[r]);
    assert s.w.t.tombstones <= s.w.used;
    hide Sound;
    var ready := Read(s, r, id);
    ActIsStep(ready, Stage(r, token));
    StagingAccepts(ready.w, r, id, token);
    var staged := LeasedNext(ready, Act(Stage(r, token)));
    assert staged.w.t.tombstones <= ready.w.t.tombstones + {s.w.requests[r].token};
    ActIsStep(staged, Commit(r));
    hide LeasedNext, Next;
    CommitAccepts(staged.w, r, id, token);
    LeasesOfLogin(s, r, id, token);
  }

  lemma LeasesOfLogin(s: Service, r: nat, id: nat, token: Token)
    ensures s.leases == {} ==> LeasedNext(LeasedNext(Read(s, r, id), Act(Stage(r, token))), Leave(r)).leases == {}
  {
    hide Next, AccountsSound;
  }
}
