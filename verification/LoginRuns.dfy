/**
  Logins in flight. A login reads its account, the login generation and the installation epoch
  before the password check, stages a session under a fresh token, and commits it later. In between
  the account may change in any way, and the whole database may be replaced: this is what the epoch
  and the generations give by themselves, without the maintenance leases of LeasedRuns.
 */
module LoginRuns {
  import opened Common
  import opened Sessions
  import opened SessionRuns

  /** The account has moved past this identity. */
  predicate Behind(t: Tables, i: Identity) {
    && i.account in t.users
    && (t.users[i.account].generation > i.generation || t.users[i.account].loginGeneration > i.loginGeneration)
  }

  /** The account is at this identity or past it. */
  predicate Level(t: Tables, i: Identity) {
    && i.account in t.users
    && i.generation <= t.users[i.account].generation && i.loginGeneration <= t.users[i.account].loginGeneration
  }

  /** An identity of epoch `e` that no commit can bring in: its epoch is over, or its account has
      moved on. */
  predicate Stale(w: World, e: nat, i: Identity) {
    e in w.epochs && (e != w.t.epoch || Behind(w.t, i))
  }

  lemma StaleForever(w: World, v: World, e: nat, i: Identity)
    requires Progress(w, v) && Stale(w, e, i)
    ensures Stale(v, e, i)
  {
  }

  /** Not stale perhaps, but the account cannot catch up with it either. */
  predicate Sane(w: World, e: nat, i: Identity) {
    e in w.epochs && (e != w.t.epoch || Behind(w.t, i) || Level(w.t, i))
  }

  lemma SaneForever(w: World, v: World, e: nat, i: Identity)
    requires Progress(w, v) && Sane(w, e, i)
    ensures Sane(v, e, i)
  {
  }

  /** The step takes away what a login of account `id` prepared before it could have obtained. */
  predicate Revokes(w: World, step: Step, id: nat) {
    && id in w.t.users
    && var u := w.t.users[id];
       match step
       case Password(i) => i == id
       case Clear(i, _) => i == id
       case ChangeRole(i, role, disabled) =>
         i == id && !LastAdminAborts(w.t, i, role, disabled) && (u.role != role || u.disabled != disabled)
       case Confirm(i, _) => i == id && !u.disabled && u.secret.None? && u.pending.Some?
       case DisableFactor(i) => i == id
       case Reset(i, password, factor) => i == id && (password || factor)
       case Restore(archived, _, epoch) => MayRestore(w, archived, epoch)
       case _ => false
  }

  predicate RevokedDuring(w: World, steps: seq<Step>, id: nat)
    decreases |steps|
  {
    steps != [] && (Revokes(w, steps[0], id) || RevokedDuring(Next(w, steps[0]), steps[1..], id))
  }

  predicate MovedOn(a: User, b: User) {
    b.generation >= a.generation && b.loginGeneration >= a.loginGeneration
    && (b.generation > a.generation || b.loginGeneration > a.loginGeneration)
  }

  /** Within one epoch, a revocation moves the account on. */
  lemma RevokingMovesOn(w: World, step: Step, id: nat)
    requires Revokes(w, step, id) && !step.Restore?
    ensures var t := Next(w, step).t;
            t.epoch == w.t.epoch && id in t.users && MovedOn(w.t.users[id], t.users[id]) && Next(w, step).requests == w.requests
  {
    hide LocallyReset;
    if step.Reset? {
      ResetIsOneTouch(w.t, id, step.password, step.factor);
    }
  }

  /** A revocation makes every sane identity of the account stale. */
  lemma RevokedIsStale(w: World, step: Step, id: nat, e: nat, i: Identity)
    requires Sound(w) && Revokes(w, step, id) && i.account == id && Sane(w, e, i)
    ensures Stale(Next(w, step), e, i)
  {
    NextKeeps(w, step);
    EpochOnRecord(w);
    hide Sound, AccountsSound;
    if !step.Restore? {
      RevokingMovesOn(w, step, id);
      hide Revokes, Next;
    }
  }

  // ----- from the readings to staging

  /** Whatever identity of `id` the request could stage satisfies `p`, at the epoch it has read. */
  predicate Candidates(q: Request, id: nat, p: (nat, Identity) -> bool) {
    && q.epoch.Some?
    && (q.seen.Some? && q.seen.value.account == id ==> p(q.epoch.value, q.seen.value))
    && (q.data.identity.Some? && q.data.identity.value.account == id ==> p(q.epoch.value, q.data.identity.value))
  }

  ghost predicate RequestSane(w: World, r: nat, id: nat) {
    r in w.requests && Candidates(w.requests[r], id, (e: nat, i: Identity) => Sane(w, e, i))
  }

  ghost predicate RequestStale(w: World, r: nat, id: nat) {
    r in w.requests && Candidates(w.requests[r], id, (e: nat, i: Identity) => Stale(w, e, i))
  }

  /** The step leaves request `r` to what it has read. */
  predicate Spares(step: Step, r: nat) {
    match step
    case OpenAnonymous(x, _) => x != r
    case Open(x, _) => x != r
    case ReadAccount(x, _) => x != r
    case ReadEpoch(x) => x != r
    case Stage(x, _) => x != r
    case _ => true
  }

  lemma SparedRequest(w: World, step: Step, r: nat)
    requires r in w.requests && Spares(step, r)
    ensures var v := Next(w, step);
            r in v.requests && v.requests[r].(guard := None) == w.requests[r].(guard := None)
  {
    hide Transact, AccountsSound;
  }

  lemma SpareKeeps(w: World, step: Step, r: nat, id: nat)
    requires Sound(w) && Spares(step, r)
    ensures RequestSane(w, r, id) ==> RequestSane(Next(w, step), r, id)
    ensures RequestStale(w, r, id) ==> RequestStale(Next(w, step), r, id)
    ensures RequestSane(w, r, id) && Revokes(w, step, id) ==> RequestStale(Next(w, step), r, id)
  {
    NextKeeps(w, step);
    var v := Next(w, step);
    if r in w.requests {
      SparedRequest(w, step, r);
      hide Sound, Next, Sane, Stale, Progress, Revokes, Spares;
      var q := w.requests[r];
      if RequestSane(w, r, id) {
        if q.seen.Some? && q.seen.value.account == id {
          Carried(w, step, id, q.epoch.value, q.seen.value);
        }
        if q.data.identity.Some? && q.data.identity.value.account == id {
          Carried(w, step, id, q.epoch.value, q.data.identity.value);
        }
      }
      if RequestStale(w, r, id) {
        if q.seen.Some? && q.seen.value.account == id {
          StaleForever(w, v, q.epoch.value, q.seen.value);
        }
        if q.data.identity.Some? && q.data.identity.value.account == id {
          StaleForever(w, v, q.epoch.value, q.data.identity.value);
        }
      }
    }
  }

  lemma Carried(w: World, step: Step, id: nat, e: nat, i: Identity)
    requires Sound(w) && Progress(w, Next(w, step)) && i.account == id && Sane(w, e, i)
    ensures Sane(Next(w, step), e, i)
    ensures Revokes(w, step, id) ==> Stale(Next(w, step), e, i)
  {
    hide Sound, Next, Sane, Stale, Progress, Revokes;
    SaneForever(w, Next(w, step), e, i);
    if Revokes(w, step, id) {
      RevokedIsStale(w, step, id, e, i);
    }
  }

  predicate AllSpare(steps: seq<Step>, r: nat) {
    forall i :: 0 <= i < |steps| ==> Spares(steps[i], r)
  }

  lemma {:induction false} SpareRunKeeps(w: World, steps: seq<Step>, r: nat, id: nat)
    requires Sound(w) && AllSpare(steps, r)
    ensures RequestSane(w, r, id) ==> RequestSane(Run(w, steps), r, id)
    ensures RequestStale(w, r, id) ==> RequestStale(Run(w, steps), r, id)
    ensures RequestSane(w, r, id) && RevokedDuring(w, steps, id) ==> RequestStale(Run(w, steps), r, id)
    decreases |steps|
  {
    hide Sound, Next, RequestSane, RequestStale, Spares, Revokes;
    if steps != [] {
      NextKeeps(w, steps[0]);
      SpareKeeps(w, steps[0], r, id);
      SpareRunKeeps(Next(w, steps[0]), steps[1..], r, id);
    }
  }

  // ----- from staging to the commit

  predicate DataSane(w: World, d: Data) {
    d.identity.Some? ==> Sane(w, d.epoch, d.identity.value)
  }

  predicate DataStale(w: World, d: Data) {
    d.identity.Some? && Stale(w, d.epoch, d.identity.value)
  }

  /** Every copy of the session under `token` is sane. */
  ghost predicate TokenSane(w: World, token: Token) {
    && token in w.used
    && (token in w.t.sessions ==> DataSane(w, w.t.sessions[token].data))
    && forall r :: r in w.requests && w.requests[r].token == token ==> DataSane(w, w.requests[r].data)
  }

  /** Nothing is stored under `token`, and every copy still in flight is stale. */
  ghost predicate TokenBarred(w: World, token: Token) {
    && token in w.used && token !in w.t.sessions
    && forall r :: r in w.requests && w.requests[r].token == token ==> DataStale(w, w.requests[r].data)
  }

  lemma TokenSaneKept(w: World, step: Step, token: Token)
    requires Sound(w) && TokenSane(w, token)
    ensures TokenSane(Next(w, step), token)
  {
    NextKeeps(w, step);
    var v := Next(w, step);
    hide Sound, Next, Sane, Progress;
    forall r | r in v.requests && v.requests[r].token == token ensures DataSane(v, v.requests[r].data) {
      Holders(w, step, token, r);
      DataSaneForever(w, v, v.requests[r].data);
    }
    if token in v.t.sessions {
      Stored(w, step, token);
      DataSaneForever(w, v, v.t.sessions[token].data);
    }
    UsedGrows(w, v);
  }

  lemma UsedGrows(w: World, v: World)
    requires Progress(w, v)
    ensures w.used <= v.used
  {
  }

  lemma DataSaneForever(w: World, v: World, d: Data)
    requires Progress(w, v) && DataSane(w, d)
    ensures DataSane(v, d)
  {
    if d.identity.Some? {
      SaneForever(w, v, d.epoch, d.identity.value);
    }
  }

  lemma {:induction false} TokenSaneAlong(w: World, steps: seq<Step>, token: Token)
    requires Sound(w) && TokenSane(w, token)
    ensures TokenSane(Run(w, steps), token)
    decreases |steps|
  {
    hide Sound, Next, TokenSane;
    if steps != [] {
      NextKeeps(w, steps[0]);
      TokenSaneKept(w, steps[0], token);
      TokenSaneAlong(Next(w, steps[0]), steps[1..], token);
    }
  }

  lemma StaleIsRefused(w: World, token: Token, d: Data)
    requires DataStale(w, d) && token !in w.t.sessions
    ensures !Affects(w.t, token, d)
  {
  }

  lemma TokenBarredKept(w: World, step: Step, token: Token)
    requires Sound(w) && TokenBarred(w, token)
    ensures TokenBarred(Next(w, step), token)
  {
    NextKeeps(w, step);
    var v := Next(w, step);
    hide Sound, Next, Stale, Progress, Affects;
    forall r | r in v.requests && v.requests[r].token == token ensures DataStale(v, v.requests[r].data) {
      Holders(w, step, token, r);
      StaleForever(w, v, v.requests[r].data.epoch, v.requests[r].data.identity.value);
    }
    if token in v.t.sessions {
      Stored(w, step, token);
      StaleIsRefused(w, token, v.t.sessions[token].data);
    }
    UsedGrows(w, v);
  }

  lemma {:induction false} TokenBarredForever(w: World, steps: seq<Step>, token: Token)
    requires Sound(w) && TokenBarred(w, token)
    ensures token !in Run(w, steps).t.sessions
    decreases |steps|
  {
    hide Sound, Next;
    if steps != [] {
      NextKeeps(w, steps[0]);
      TokenBarredKept(w, steps[0], token);
      TokenBarredForever(Next(w, steps[0]), steps[1..], token);
    }
  }

  // ----- a revoked login

  predicate Bound(t: Tables, token: Token, id: nat) {
    && token in t.sessions
    && t.sessions[token].data.identity.Some? && t.sessions[token].data.identity.value.account == id
  }

  ghost predicate IssuedTo(w: World, token: Token, id: nat) {
    OwnerOf(w, token).Some? && OwnerOf(w, token).value.account == id
  }

  /** A token speaks for no account but the one it was issued to. */
  lemma BoundToOwner(w: World, steps: seq<Step>, token: Token, id: nat)
    requires Sound(w) && token in w.used && !IssuedTo(w, token, id)
    ensures !Bound(Run(w, steps).t, token, id)
  {
    RunKeeps(w, steps);
    var v := Run(w, steps);
    assert OwnerOf(v, token) == OwnerOf(w, token);
    if token in v.t.sessions {
      assert OwnerKnown(v.owner, token, v.t.sessions[token].data);
    }
  }

  lemma StagedToken(w: World, r: nat, token: Token, id: nat)
    requires Sound(w) && MayStage(w, r, token) && IssuedTo(Next(w, Stage(r, token)), token, id)
    ensures RequestSane(w, r, id) ==> TokenSane(Next(w, Stage(r, token)), token)
    ensures RequestStale(w, r, id) ==> TokenBarred(Next(w, Stage(r, token)), token)
  {
    assert forall x :: x in w.requests ==> RequestRecorded(w, w.requests[x]);
    hide TablesSound, OwnersKnown, Progress;
  }

  lemma RevokedTokenIsBarred(w: World, step: Step, token: Token, id: nat)
    requires Sound(w) && TokenSane(w, token) && IssuedTo(w, token, id) && token !in w.t.sessions && Revokes(w, step, id)
    ensures TokenBarred(Next(w, step), token)
  {
    NextKeeps(w, step);
    var v := Next(w, step);
    UsedGrows(w, v);
    assert forall x :: x in w.requests ==> OwnerKnown(w.owner, w.requests[x].token, w.requests[x].data);
    hide Sound, Next, Sane, Stale, Progress, OwnersKnown;
    assert !step.Commit?;
    forall r | r in v.requests && v.requests[r].token == token ensures DataStale(v, v.requests[r].data) {
      Holders(w, step, token, r);
      RevokedIsStale(w, step, id, w.requests[r].data.epoch, w.requests[r].data.identity.value);
    }
    if token in v.t.sessions {
      Stored(w, step, token);
    }
  }

  /** A login whose readings are sane, and whose account is then revoked by any event, a restore
      included, never obtains a session for that account: not if the revocation comes before
      staging, and not if it comes between staging and the commit, whatever else happens before,
      between and after. */
  lemma RevokedLoginNeverInserts(w: World, r: nat, id: nat, early: seq<Step>, token: Token,
                                 mid: seq<Step>, step: Step, after: seq<Step>)
    requires Sound(w) && RequestSane(w, r, id) && AllSpare(early, r) && MayStage(Run(w, early), r, token)
    ensures var staged := Next(Run(w, early), Stage(r, token));
            RevokedDuring(w, early, id) ==> !Bound(Run(staged, after).t, token, id)
    ensures var staged := Next(Run(w, early), Stage(r, token));
            var middle := Run(staged, mid);
            (Revokes(middle, step, id) && token !in middle.t.sessions) ==> !Bound(Run(Next(middle, step), after).t, token, id)
  {
    hide Sound, Next, Run, Progress, RequestSane, RequestStale, Revokes, RevokedDuring, Bound, TokenSane, TokenBarred, IssuedTo, MayStage;
    var w1 := Run(w, early);
    RunKeeps(w, early);
    SpareRunKeeps(w, early, r, id);
    var staged := Next(w1, Stage(r, token));
    NextKeeps(w1, Stage(r, token));
    StagedIsUsed(w1, r, token);
    var middle := Run(staged, mid);
    RunKeeps(staged, mid);
    if !IssuedTo(staged, token, id) {
      BoundToOwner(staged, after, token, id);
      LaterElsewhere(staged, mid, step, token, id);
      NextKeeps(middle, step);
      BoundToOwner(Next(middle, step), after, token, id);
    } else {
      StagedToken(w1, r, token, id);
      if RevokedDuring(w, early, id) {
        TokenBarredForever(staged, after, token);
        NotStoredNotBound(Run(staged, after).t, token, id);
      }
      if Revokes(middle, step, id) && token !in middle.t.sessions {
        TokenSaneAlong(staged, mid, token);
        LaterIssued(staged, mid, token, id);
        RevokedTokenIsBarred(middle, step, token, id);
        NextKeeps(middle, step);
        TokenBarredForever(Next(middle, step), after, token);
        NotStoredNotBound(Run(Next(middle, step), after).t, token, id);
      }
    }
  }

  lemma NotStoredNotBound(t: Tables, token: Token, id: nat)
    requires token !in t.sessions
    ensures !Bound(t, token, id)
  {
  }

  lemma StagedIsUsed(w: World, r: nat, token: Token)
    requires MayStage(w, r, token)
    ensures token in Next(w, Stage(r, token)).used
  {
  }

  lemma LaterIssued(w: World, steps: seq<Step>, token: Token, id: nat)
    requires Sound(w) && token in w.used && IssuedTo(w, token, id)
    ensures IssuedTo(Run(w, steps), token, id)
  {
    RunKeeps(w, steps);
  }

  lemma LaterElsewhere(w: World, mid: seq<Step>, step: Step, token: Token, id: nat)
    requires Sound(w) && token in w.used && !IssuedTo(w, token, id)
    ensures var v := Next(Run(w, mid), step); Sound(v) && token in v.used && !IssuedTo(v, token, id)
  {
    RunKeeps(w, mid);
    NextKeeps(Run(w, mid), step);
    hide Sound, Next, Run, Advances;
  }

  // ----- which logins are sane

  /** Everything the request holds is of this epoch and not ahead of its account. */
  predicate Settled(w: World, r: nat) {
    && r in w.requests
    && var q := w.requests[r];
       && (q.data.identity.Some? ==> Level(w.t, q.data.identity.value))
       && (q.seen.Some? ==> Level(w.t, q.seen.value))
       && (q.epoch.Some? ==> q.epoch.value == w.t.epoch)
  }

  /** The step neither restores a database nor gives `r` another session. */
  predicate Continues(step: Step, r: nat) {
    match step
    case Restore(_, _, _) => false
    case OpenAnonymous(x, _) => x != r
    case Open(x, _) => x != r
    case Stage(x, _) => x != r
    case _ => true
  }

  lemma SameEpoch(w: World, step: Step)
    requires Sound(w) && !step.Restore?
    ensures Next(w, step).t.epoch == w.t.epoch
  {
    SoundTables(w);
    hide Transact, AccountsSound, Sound, TablesSound;
    if !step.Commit? && !step.Stage? {
      TransactKeeps(w.t, step);
    }
  }

  lemma SettledKept(w: World, step: Step, r: nat)
    requires Sound(w) && Settled(w, r) && Continues(step, r)
    ensures Settled(Next(w, step), r)
  {
    NextKeeps(w, step);
    SameEpoch(w, step);
    ContinuedRequest(w, step, r);
    hide Sound, Next, Continues;
  }

  lemma ContinuedRequest(w: World, step: Step, r: nat)
    requires r in w.requests && Continues(step, r)
    ensures var v := Next(w, step);
            && r in v.requests && v.requests[r].data == w.requests[r].data && v.requests[r].token == w.requests[r].token
            && (v.requests[r].seen == w.requests[r].seen || (v.requests[r].seen.Some? && v.t == w.t && Level(w.t, v.requests[r].seen.value)))
            && (v.requests[r].epoch == w.requests[r].epoch || v.requests[r].epoch == Some(w.t.epoch))
  {
    hide Transact, AccountsSound;
  }

  predicate AllContinue(steps: seq<Step>, r: nat) {
    forall i :: 0 <= i < |steps| ==> Continues(steps[i], r)
  }

  lemma {:induction false} SettledAlong(w: World, steps: seq<Step>, r: nat)
    requires Sound(w) && Settled(w, r) && AllContinue(steps, r)
    ensures Settled(Run(w, steps), r)
    decreases |steps|
  {
    hide Sound, Next, Settled, Continues;
    if steps != [] {
      NextKeeps(w, steps[0]);
      SettledKept(w, steps[0], r);
      SettledAlong(Next(w, steps[0]), steps[1..], r);
    }
  }

  lemma OpenedIsSettled(w: World, open: Step, r: nat)
    requires Sound(w)
    requires (open.Open? && open.r == r && open.token in w.t.sessions) || (open.OpenAnonymous? && open.r == r && open.token !in w.used)
    ensures Settled(Next(w, open), r)
  {
    if open.Open? {
      assert RowCurrent(w.t, w.t.sessions[open.token]);
    }
  }

  /** A login is sane if its session was opened and its readings were made with no restore between
      them, whatever else went on: restores before the request and after its readings included. */
  lemma LoginIsSane(w: World, open: Step, r: nat, steps: seq<Step>, id: nat)
    requires Sound(w) && AllContinue(steps, r)
    requires (open.Open? && open.r == r && open.token in w.t.sessions) || (open.OpenAnonymous? && open.r == r && open.token !in w.used)
    ensures var v := Run(Next(w, open), steps);
            r in v.requests && (v.requests[r].epoch.Some? ==> RequestSane(v, r, id))
  {
    hide Next, Run, TablesSound, OwnersKnown;
    NextKeeps(w, open);
    OpenedIsSettled(w, open, r);
    SettledAlong(Next(w, open), steps, r);
    RunKeeps(Next(w, open), steps);
    EpochOnRecord(Run(Next(w, open), steps));
  }

  /** From a fresh installation on, also without leases: a login whose session was opened and whose
      readings were made with no restore between them never obtains a session for its account once
      that is revoked. */
  lemma UnleasedRevokedLoginFails(start: seq<Step>, open: Step, r: nat, readings: seq<Step>, id: nat, early: seq<Step>,
                                  token: Token, mid: seq<Step>, step: Step, after: seq<Step>)
    requires var w := Run(GENESIS, start);
             (open.Open? && open.r == r && open.token in w.t.sessions) || (open.OpenAnonymous? && open.r == r && open.token !in w.used)
    requires var v := Run(Next(Run(GENESIS, start), open), readings);
             AllContinue(readings, r) && r in v.requests && v.requests[r].epoch.Some? && AllSpare(early, r) && MayStage(Run(v, early), r, token)
    ensures var v := Run(Next(Run(GENESIS, start), open), readings);
            var staged := Next(Run(v, early), Stage(r, token));
            var middle := Run(staged, mid);
            && (RevokedDuring(v, early, id) ==> !Bound(Run(staged, after).t, token, id))
            && (Revokes(middle, step, id) && token !in middle.t.sessions ==> !Bound(Run(Next(middle, step), after).t, token, id))
  {
    hide Sound, Next, Run, RequestSane, Progress, Revokes, RevokedDuring, Bound, MayStage, AllSpare, AllContinue;
    var w := Run(GENESIS, start);
    GenesisIsSound();
    RunKeeps(GENESIS, start);
    NextKeeps(w, open);
    RunKeeps(Next(w, open), readings);
    LoginIsSane(w, open, r, readings, id);
    RevokedLoginNeverInserts(Run(Next(w, open), readings), r, id, early, token, mid, step, after);
  }

  // ----- the others

  function Repeated(step: Step, n: nat): seq<Step> {
    if n == 0 then [] else [step] + Repeated(step, n - 1)
  }

  lemma {:induction false} RunAppend(w: World, a: seq<Step>, b: seq<Step>)
    ensures Run(w, a + b) == Run(Run(w, a), b)
    decreases |a|
  {
    hide Next;
    if a == [] {
      assert a + b == b;
    } else {
      assert (a + b)[1..] == a[1..] + b;
      RunAppend(Next(w, a[0]), a[1..], b);
    }
  }

  /** The account after so many revocations: nothing but its generations matters here. */
  predicate Raised(w: World, v: World, id: nat, g: nat, l: nat) {
    && v.requests == w.requests && v.used == w.used && v.epochs == w.epochs && v.t.epoch == w.t.epoch
    && id in w.t.users && id in v.t.users && v.t.users[id].disabled == w.t.users[id].disabled
    && v.t.users[id].generation == w.t.users[id].generation + g
    && v.t.users[id].loginGeneration == w.t.users[id].loginGeneration + l
  }

  lemma {:induction false} RaiseGeneration(w: World, id: nat, n: nat)
    requires id in w.t.users
    ensures Raised(w, Run(w, Repeated(DisableFactor(id), n)), id, n, 0)
    ensures n > 0 ==> RevokedDuring(w, Repeated(DisableFactor(id), n), id)
    decreases n
  {
    if n > 0 {
      var step := DisableFactor(id);
      assert Repeated(step, n)[1..] == Repeated(step, n - 1);
      RaiseGeneration(Next(w, step), id, n - 1);
    }
  }

  lemma {:induction false} RaiseLoginGeneration(w: World, id: nat, n: nat)
    requires id in w.t.users
    ensures Raised(w, Run(w, Repeated(Password(id), n)), id, 0, n)
    ensures n > 0 ==> RevokedDuring(w, Repeated(Password(id), n), id)
    decreases n
  {
    if n > 0 {
      var step := Password(id);
      assert Repeated(step, n)[1..] == Repeated(step, n - 1);
      RaiseLoginGeneration(Next(w, step), id, n - 1);
    }
  }

  lemma {:induction false} RevokedInParts(w: World, a: seq<Step>, b: seq<Step>, id: nat)
    ensures RevokedDuring(w, a + b, id) <==> RevokedDuring(w, a, id) || RevokedDuring(Run(w, a), b, id)
    decreases |a|
  {
    hide Next, Revokes;
    if a == [] {
      assert a + b == b;
    } else {
      assert (a + b)[1..] == a[1..] + b;
      RevokedInParts(Next(w, a[0]), a[1..], b, id);
    }
  }

  lemma {:induction false} RepeatedSpares(step: Step, n: nat, r: nat)
    requires Spares(step, r)
    ensures AllSpare(Repeated(step, n), r)
  {
    if n > 0 {
      RepeatedSpares(step, n - 1, r);
    }
  }

  /** A run of revocations that brings the account to a given reading ahead of it. */
  lemma CatchUp(w: World, r: nat, i: Identity) returns (steps: seq<Step>)
    requires i.account in w.t.users && !Behind(w.t, i) && !Level(w.t, i)
    ensures AllSpare(steps, r) && RevokedDuring(w, steps, i.account)
    ensures var u := w.t.users[i.account];
            Raised(w, Run(w, steps), i.account, i.generation - u.generation, i.loginGeneration - u.loginGeneration)
  {
    var id, u := i.account, w.t.users[i.account];
    var g, l := i.generation - u.generation, i.loginGeneration - u.loginGeneration;
    var a, b := Repeated(DisableFactor(id), g), Repeated(Password(id), l);
    RaiseGeneration(w, id, g);
    RaiseLoginGeneration(Run(w, a), id, l);
    RepeatedSpares(DisableFactor(id), g, r);
    RepeatedSpares(Password(id), l, r);
    hide Run, RevokedDuring, Spares, Repeated;
    RunAppend(w, a, b);
    RevokedInParts(w, a, b, id);
    steps := a + b;
  }

  predicate Complete(q: Request, id: nat) {
    q.seen.Some? && q.seen.value.account == id && q.guard.Some? && q.epoch.Some?
  }

  /** Staging and committing an identity the account has just reached stores a session for it. */
  lemma CaughtUpInserts(w: World, r: nat, id: nat, i: Identity, token: Token)
    requires Recorded(w) && r in w.requests && Complete(w.requests[r], id) && token !in w.used
    requires i.account == id && (w.requests[r].seen == Some(i) || w.requests[r].data.identity == Some(i))
    requires id in w.t.users && Reading(w.t, id) == i && !w.t.users[id].disabled && w.requests[r].epoch.value == w.t.epoch
    ensures Bound(Next(Next(w, Stage(r, token)), Commit(r)).t, token, id)
  {
  }

  /** Without leases the condition is exact: a complete login of an enabled account that is not sane
      could still get a session after a revocation. Such a login holds, from before a restore, a
      reading ahead of the restored account. */
  lemma AheadLoginInserts(w: World, r: nat, id: nat, token: Token) returns (steps: seq<Step>)
    requires Sound(w) && r in w.requests && Complete(w.requests[r], id) && token !in w.used
    requires id in w.t.users && !w.t.users[id].disabled && !RequestSane(w, r, id)
    ensures AllSpare(steps, r) && RevokedDuring(w, steps, id)
    ensures Bound(Next(Next(Run(w, steps), Stage(r, token)), Commit(r)).t, token, id)
  {
    var q := w.requests[r];
    assert RequestRecorded(w, q);
    var i := if !Sane(w, q.epoch.value, q.seen.value) then q.seen.value else q.data.identity.value;
    assert i.account == id && !Behind(w.t, i) && !Level(w.t, i) && q.epoch.value == w.t.epoch;
    steps := CatchUp(w, r, i);
    RunKeeps(w, steps);
    hide Run, Next, RevokedDuring, TablesSound, OwnersKnown, Spares, Progress;
    CaughtUpInserts(Run(w, steps), r, id, i, token);
  }

  /** The live account is ahead of what the archived one becomes when it is restored. */
  predicate AheadOf(live: User, archived: User) {
    && live.generation >= archived.generation + 1 && live.loginGeneration >= archived.loginGeneration
    && (live.generation > archived.generation + 1 || live.loginGeneration > archived.loginGeneration)
  }

  /** How a login without a lease would get ahead: it reads its account, an older database is
      restored, and it reads the epoch. */
  lemma RestoreBetweenReadings(w: World, r: nat, id: nat, archived: Tables, step: int, epoch: nat)
    requires r in w.requests && w.requests[r].guard.Some? && id in w.t.users && id in archived.users && MayRestore(w, archived, epoch)
    ensures var v := Next(Next(Next(w, ReadAccount(r, id)), Restore(archived, step, epoch)), ReadEpoch(r));
            var live, past := w.t.users[id], archived.users[id];
            && r in v.requests && Complete(v.requests[r], id)
            && (AheadOf(live, past) ==> !RequestSane(v, r, id))
  {
    hide AccountsSound;
  }

  // ----- an undisturbed login

  /** The step concerns neither account `id` nor the whole installation nor request `r`. */
  predicate Elsewhere(step: Step, id: nat, r: nat) {
    && Spares(step, r)
    && match step
       case Password(i) => i != id
       case Clear(i, _) => i != id
       case ChangeRole(i, _, _) => i != id
       case Confirm(i, _) => i != id
       case DisableFactor(i) => i != id
       case Reset(i, _, _) => i != id
       case Enroll(i, _) => i != id
       case Restore(_, _, _) => false
       case _ => true
  }

  predicate AllElsewhere(steps: seq<Step>, id: nat, r: nat) {
    forall i :: 0 <= i < |steps| ==> Elsewhere(steps[i], id, r)
  }

  lemma TransactElsewhere(t: Tables, step: Step, id: nat, r: nat)
    requires AccountsSound(t) && id in t.users && Elsewhere(step, id, r)
    ensures var u := Transact(t, step); id in u.users && u.users[id] == t.users[id] && u.epoch == t.epoch
  {
    hide LocallyReset, ActiveAdmins;
    if step.Reset? && step.id in t.users && (step.password || step.factor) {
      ResetIsOneTouch(t, step.id, step.password, step.factor);
    } else {
      ResetOfNobody(t, step);
    }
  }

  predicate SameAccount(w: World, v: World, id: nat, r: nat) {
    && id in w.t.users && id in v.t.users && v.t.users[id] == w.t.users[id] && v.t.epoch == w.t.epoch
    && r in w.requests && r in v.requests && v.requests[r].(guard := None) == w.requests[r].(guard := None)
    && (w.requests[r].guard.Some? ==> v.requests[r].guard.Some?)
  }

  lemma ElsewhereLeavesAlone(w: World, step: Step, id: nat, r: nat)
    requires Sound(w) && id in w.t.users && r in w.requests && Elsewhere(step, id, r)
    ensures SameAccount(w, Next(w, step), id, r)
  {
    SoundTables(w);
    TransactElsewhere(w.t, step, id, r);
    SparedRequest(w, step, r);
    hide Transact, AccountsSound, Sound, TablesSound, Admits;
  }

  lemma {:induction false} RunElsewhereLeavesAlone(w: World, steps: seq<Step>, id: nat, r: nat)
    requires Sound(w) && id in w.t.users && r in w.requests && AllElsewhere(steps, id, r)
    ensures SameAccount(w, Run(w, steps), id, r)
    decreases |steps|
  {
    hide Sound, Next, Elsewhere;
    if steps != [] {
      NextKeeps(w, steps[0]);
      ElsewhereLeavesAlone(w, steps[0], id, r);
      RunElsewhereLeavesAlone(Next(w, steps[0]), steps[1..], id, r);
    }
  }

  /** Changes to other accounts never cost a login: it stages, and its commit stores the session. */
  lemma UndisturbedLoginSucceeds(w: World, r: nat, id: nat, early: seq<Step>, token: Token, late: seq<Step>)
    requires Sound(w) && r in w.requests && Complete(w.requests[r], id)
    requires Unchanged(w.t, w.requests[r].seen.value) && w.requests[r].epoch.value == w.t.epoch
    requires AllElsewhere(early, id, r) && AllElsewhere(late, id, r) && token !in Run(w, early).used
    ensures var done := Run(Next(Run(w, early), Stage(r, token)), late);
            token !in done.t.tombstones ==> Bound(Next(done, Commit(r)).t, token, id)
  {
    var w1 := Run(w, early);
    var staged := Next(w1, Stage(r, token));
    RunKeeps(w, early);
    RunElsewhereLeavesAlone(w, early, id, r);
    NextKeeps(w1, Stage(r, token));
    hide Run, Next, Sound, Progress, AllElsewhere, Bound;
    StagingAccepts(w1, r, id, token);
    RunElsewhereLeavesAlone(staged, late, id, r);
    CommitAccepts(Run(staged, late), r, id, token);
  }

  predicate Waiting(w: World, r: nat, id: nat, token: Token) {
    && r in w.requests && w.requests[r].token == token && id in w.t.users && !w.t.users[id].disabled
    && w.requests[r].data.identity == Some(Reading(w.t, id)) && w.requests[r].data.epoch == w.t.epoch
  }

  lemma StagingAccepts(w: World, r: nat, id: nat, token: Token)
    requires r in w.requests && Complete(w.requests[r], id) && token !in w.used
    requires Unchanged(w.t, w.requests[r].seen.value) && w.requests[r].epoch.value == w.t.epoch
    ensures Waiting(Next(w, Stage(r, token)), r, id, token)
  {
  }

  lemma CommitAccepts(w: World, r: nat, id: nat, token: Token)
    requires Waiting(w, r, id, token)
    ensures token !in w.t.tombstones ==> Bound(Next(w, Commit(r)).t, token, id)
  {
  }
}
