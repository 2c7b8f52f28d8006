/**
  What the tables alone guarantee over every interleaving of logins, requests, account changes and
  restores. A restore replaces the whole database, so generations and tombstones may go back, and
  here requests in flight outlive it; the leases that keep them from doing so are in LeasedRuns.
 */
module SessionRuns {
  import opened Common
  import opened Sessions

  /** A request in flight: the token it will commit, its copy of the session, and what a login has
      read so far of the account, the login generation and the installation epoch. */
  datatype Request = Request(token: Token, data: Data, seen: Option<Identity>, guard: Option<nat>, epoch: Option<nat>)

  /** `owner` is the identity a token was issued to; `used` are all tokens ever handed out and
      `epochs` all epochs ever drawn. */
  datatype World = World(
    t: Tables, requests: map<nat, Request>, owner: map<Token, Identity>, used: set<Token>, epochs: set<nat>)

  const GENESIS: World := World(EMPTY, map[], map[], {}, {0, 1})

  datatype Step =
    | Password(id: nat)
    | Clear(id: nat, spared: set<Token>)
    | Revoke(id: nat, token: Token)
    | ChangeRole(id: nat, role: Role, disabled: bool)
    | Confirm(id: nat, step: int)
    | DisableFactor(id: nat)
    | Reset(id: nat, password: bool, factor: bool)
    | Create(name: string, role: Role)
    | Setup(name: string)
    | Enroll(id: nat, secret: string)
    | Drop(token: Token)
    | Restore(archived: Tables, step: int, epoch: nat)
    | OpenAnonymous(r: nat, token: Token)
    | Open(r: nat, token: Token)
    | ReadAccount(r: nat, id: nat)
    | ReadGuard(r: nat)
    | ReadEpoch(r: nat)
    | Stage(r: nat, token: Token)
    | Commit(r: nat)

  /** The transactions on the live tables; none issues a session. */
  function Transact(t: Tables, step: Step): Tables {
    match step
    case Password(id) => PasswordStored(t, id)
    case Clear(id, spared) => SessionsCleared(t, id, spared)
    case Revoke(id, token) => Deleted(t, OfAccount(t, id) * {token})
    case ChangeRole(id, role, disabled) => if id in t.users then RoleStored(t, id, role, disabled) else t
    case Confirm(id, at) => FactorConfirmed(t, id, at)
    case DisableFactor(id) => FactorDisabled(t, id)
    case Reset(id, password, factor) => LocallyReset(t, id, password, factor)
    case Create(name, role) => AccountCreated(t, name, role)
    case Setup(name) => InitialUserCreated(t, name)
    case Enroll(id, secret) => EnrollmentBegun(t, id, secret)
    case Drop(token) => Deleted(t, {token})
    case _ => t
  }

  function Owned(owner: map<Token, Identity>, token: Token, d: Data): map<Token, Identity> {
    if d.identity.Some? then owner[token := d.identity.value] else owner
  }

  /** The session a login stages. A refused login keeps whatever identity the session had. */
  function StagedData(t: Tables, q: Request): Data
    requires q.seen.Some? && q.guard.Some? && q.epoch.Some?
  {
    Data(q.guard, q.epoch.value, if Unchanged(t, q.seen.value) then q.seen else q.data.identity)
  }

  predicate MayStage(w: World, r: nat, token: Token) {
    && r in w.requests && token !in w.used
    && w.requests[r].seen.Some? && w.requests[r].guard.Some? && w.requests[r].epoch.Some?
  }

  /** Staging renews the token: the old one is deleted, the session moves to a fresh one. */
  function StageStep(w: World, r: nat, token: Token): World {
    if !MayStage(w, r, token) then w
    else
      var q := w.requests[r];
      var d := StagedData(w.t, q);
      w.(t := Deleted(w.t, {q.token}), requests := w.requests[r := Request(token, d, None, None, None)],
         owner := Owned(w.owner, token, d), used := w.used + {token})
  }

  /** Ids count up and names are unique: the database's own constraints. */
  predicate AccountsSound(t: Tables) {
    && (forall id :: id in t.users ==> id < t.nextId)
    && (forall i, j :: i in t.users && j in t.users && i != j ==> t.users[i].name != t.users[j].name)
  }

  /** Any database may be restored; the epoch drawn for it is new. */
  predicate MayRestore(w: World, archived: Tables, epoch: nat) {
    AccountsSound(archived) && epoch !in w.epochs
  }

  function RestoreStep(w: World, archived: Tables, step: int, epoch: nat): World {
    if !MayRestore(w, archived, epoch) then w
    else w.(t := Readied(archived, step, epoch), epochs := w.epochs + {epoch},
            used := w.used + archived.sessions.Keys + archived.tombstones)
  }

  function Updated(w: World, r: nat, q: Request): World {
    w.(requests := w.requests[r := q])
  }

  function Next(w: World, step: Step): World {
    match step
    case Restore(archived, at, epoch) => RestoreStep(w, archived, at, epoch)
    case OpenAnonymous(r, token) =>
      if token in w.used then w
      else Updated(w, r, Request(token, Data(None, 0, None), None, None, None)).(used := w.used + {token})
    case Open(r, token) =>
      if token !in w.t.sessions then w
      else Updated(w, r, Request(token, w.t.sessions[token].data, None, None, None))
    case ReadAccount(r, id) =>
      if r !in w.requests || id !in w.t.users then w
      else Updated(w, r, w.requests[r].(seen := Some(Reading(w.t, id))))
    case ReadGuard(r) =>
      if r !in w.requests then w else Updated(w, r, w.requests[r].(guard := Some(w.t.loginGeneration)))
    case ReadEpoch(r) =>
      if r !in w.requests then w else Updated(w, r, w.requests[r].(epoch := Some(w.t.epoch)))
    case Stage(r, token) => StageStep(w, r, token)
    case Commit(r) =>
      if r !in w.requests then w else w.(t := Committed(w.t, w.requests[r].token, w.requests[r].data))
    case _ => w.(t := Transact(w.t, step))
  }

  function Run(w: World, steps: seq<Step>): World
    decreases |steps|
  {
    if steps == [] then w else Run(Next(w, steps[0]), steps[1..])
  }

  // ----- the invariant

  /** The identity is that of an enabled account at its current generation and epoch, not ahead of
      the account's login generation. */
  predicate Current(t: Tables, d: Data) {
    d.identity.Some? ==>
      var i := d.identity.value;
      i.account in t.users && t.users[i.account].generation == i.generation && !t.users[i.account].disabled
      && i.loginGeneration <= t.users[i.account].loginGeneration && d.epoch == t.epoch
  }

  predicate RowCurrent(t: Tables, row: Row) {
    Current(t, row.data) && (row.data.identity.Some? ==> row.data.identity.value.account == row.account)
  }

  ghost predicate SessionsCurrent(t: Tables) {
    forall k :: k in t.sessions ==> RowCurrent(t, t.sessions[k])
  }

  /** Live tokens and tombstones are disjoint, and every identity-bound session is current. */
  ghost predicate TablesSound(t: Tables) {
    t.sessions.Keys !! t.tombstones && SessionsCurrent(t) && AccountsSound(t)
  }

  predicate OwnerKnown(owner: map<Token, Identity>, token: Token, d: Data) {
    if d.identity.Some? then token in owner && owner[token] == d.identity.value else token !in owner
  }

  /** Everything drawn at random is on record. */
  ghost predicate Recorded(w: World) {
    && w.t.sessions.Keys + w.t.tombstones + w.owner.Keys <= w.used
    && {0, w.t.epoch} <= w.epochs
    && (forall k :: k in w.t.sessions ==> w.t.sessions[k].data.epoch in w.epochs)
    && (forall r :: r in w.requests ==> RequestRecorded(w, w.requests[r]))
  }

  predicate RequestRecorded(w: World, q: Request) {
    q.token in w.used && q.data.epoch in w.epochs && (q.epoch.Some? ==> q.epoch.value in w.epochs)
  }

  ghost predicate OwnersKnown(w: World) {
    && (forall k :: k in w.t.sessions ==> OwnerKnown(w.owner, k, w.t.sessions[k].data))
    && (forall r :: r in w.requests ==> OwnerKnown(w.owner, w.requests[r].token, w.requests[r].data))
  }

  ghost predicate Sound(w: World) {
    TablesSound(w.t) && Recorded(w) && OwnersKnown(w)
  }

  /** Between two tables: sessions only disappear, and each leaves a tombstone. */
  ghost predicate OnlyDeletes(t: Tables, u: Tables) {
    && u.sessions.Keys <= t.sessions.Keys
    && (forall k :: k in u.sessions ==> u.sessions[k] == t.sessions[k])
    && t.tombstones <= u.tombstones <= t.tombstones + t.sessions.Keys
    && t.sessions.Keys <= u.sessions.Keys + u.tombstones
  }

  predicate UserAdvances(a: User, b: User) {
    a.name == b.name && a.generation <= b.generation && a.loginGeneration <= b.loginGeneration
  }

  /** Accounts keep their names and their generations never go back. */
  ghost predicate Advances(t: Tables, u: Tables) {
    && t.nextId <= u.nextId
    && (forall id :: id in t.users ==> id in u.users && UserAdvances(t.users[id], u.users[id]))
  }

  ghost predicate Keeps(t: Tables, u: Tables) {
    TablesSound(u) && OnlyDeletes(t, u) && Advances(t, u) && u.epoch == t.epoch
  }

  /** Changing one account, deleting some sessions: every session of the account must go if its
      generation moves or it is disabled. */
  lemma TouchKeeps(t: Tables, id: nat, u: User, gone: set<Token>, g: nat)
    requires TablesSound(t) && id in t.users && UserAdvances(t.users[id], u)
    requires (u.generation == t.users[id].generation && u.disabled == t.users[id].disabled) || OfAccount(t, id) <= gone
    ensures Keeps(t, Deleted(WithUser(t, id, u), gone).(loginGeneration := g))
  {
    var t' := Deleted(WithUser(t, id, u), gone).(loginGeneration := g);
    forall k | k in t'.sessions ensures RowCurrent(t', t'.sessions[k]) {
      assert RowCurrent(t, t.sessions[k]);
      assert t.sessions[k].account == id ==> k in OfAccount(t, id);
    }
  }

  /** Deleting sessions alone. */
  lemma DeleteKeeps(t: Tables, gone: set<Token>, g: nat)
    requires TablesSound(t)
    ensures Keeps(t, Deleted(t, gone).(loginGeneration := g))
  {
    var t' := Deleted(t, gone).(loginGeneration := g);
    forall k | k in t'.sessions ensures RowCurrent(t', t'.sessions[k]) {
      assert RowCurrent(t, t.sessions[k]);
    }
  }

  lemma UntouchedKeeps(t: Tables)
    requires TablesSound(t)
    ensures Keeps(t, t)
  {
  }

  lemma DeletedNothing(t: Tables)
    ensures Deleted(t, {}) == t
  {
    assert t.sessions - {} == t.sessions;
  }

  /** Updating an account without moving its generation or disabling it. */
  lemma RefreshKeeps(t: Tables, id: nat, u: User, g: nat)
    requires TablesSound(t) && id in t.users && UserAdvances(t.users[id], u)
    requires u.generation == t.users[id].generation && u.disabled == t.users[id].disabled
    ensures Keeps(t, WithUser(t, id, u).(loginGeneration := g))
  {
    TouchKeeps(t, id, u, {}, g);
    DeletedNothing(WithUser(t, id, u));
  }

  lemma ClearKeeps(t: Tables, id: nat, spared: set<Token>)
    requires TablesSound(t)
    ensures Keeps(t, SessionsCleared(t, id, spared))
  {
    hide TablesSound, Keeps;
    if id in t.users {
      var u := t.users[id];
      TouchKeeps(t, id, u.(loginGeneration := u.loginGeneration + 1), OfAccount(t, id) - spared, t.loginGeneration + 1);
    } else {
      DeleteKeeps(t, OfAccount(t, id) - spared, t.loginGeneration + 1);
    }
  }

  lemma RoleKeeps(t: Tables, id: nat, role: Role, disabled: bool)
    requires TablesSound(t) && id in t.users
    ensures Keeps(t, RoleStored(t, id, role, disabled))
  {
    hide TablesSound, Keeps, ActiveAdmins;
    var u := t.users[id];
    UntouchedKeeps(t);
    TouchKeeps(t, id, u.(role := role, disabled := disabled, generation := u.generation + 1,
                         loginGeneration := u.loginGeneration + 1), OfAccount(t, id), t.loginGeneration + 1);
  }

  /** Moving an account's generation and invalidating it in the same transaction. */
  lemma InvalidateKeeps(t: Tables, id: nat, u: User)
    requires TablesSound(t) && id in t.users && UserAdvances(t.users[id], u)
    ensures Keeps(t, Invalidated(WithUser(t, id, u), id))
    ensures Keeps(t, Deleted(WithUser(t, id, u), OfAccount(WithUser(t, id, u), id)))
  {
    hide TablesSound, Keeps;
    assert OfAccount(WithUser(t, id, u), id) == OfAccount(t, id);
    TouchKeeps(t, id, u, OfAccount(t, id), t.loginGeneration + 1);
    TouchKeeps(t, id, u, OfAccount(t, id), t.loginGeneration);
  }

  lemma ResetKeeps(t: Tables, id: nat, password: bool, factor: bool)
    requires TablesSound(t)
    ensures Keeps(t, LocallyReset(t, id, password, factor))
  {
    hide TablesSound, Keeps, FactorCleared;
    UntouchedKeeps(t);
    if id in t.users && (password || factor) {
      var u := ResetUser(t.users[id], password, factor);
      TouchKeeps(t, id, u, OfAccount(t, id), t.loginGeneration + 1);
      ResetIsOneTouch(t, id, password, factor);
    }
  }

  function ResetUser(u: User, password: bool, factor: bool): (r: User)
    ensures UserAdvances(u, r)
  {
    var a := if password then u.(loginGeneration := u.loginGeneration + 1) else u;
    if factor then FactorCleared(a) else a
  }

  lemma ResetIsOneTouch(t: Tables, id: nat, password: bool, factor: bool)
    requires id in t.users && (password || factor)
    ensures LocallyReset(t, id, password, factor) ==
            Deleted(WithUser(t, id, ResetUser(t.users[id], password, factor)), OfAccount(t, id))
              .(loginGeneration := t.loginGeneration + 1)
  {
    hide FactorCleared;
    var u := ResetUser(t.users[id], password, factor);
    var a := if password then PasswordStored(t, id) else t;
    var b := if factor then WithUser(a, id, FactorCleared(a.users[id])) else a;
    assert b.users == t.users[id := u];
    assert OfAccount(b, id) == OfAccount(t, id);
  }

  lemma CreateKeeps(t: Tables, name: string, role: Role)
    requires TablesSound(t)
    ensures Keeps(t, AccountCreated(t, name, role))
  {
    var u := AccountCreated(t, name, role);
    forall k | k in u.sessions ensures RowCurrent(u, u.sessions[k]) {
      assert RowCurrent(t, t.sessions[k]);
    }
  }

  lemma SetupKeeps(t: Tables, name: string)
    requires TablesSound(t)
    ensures Keeps(t, InitialUserCreated(t, name))
  {
    var u := InitialUserCreated(t, name);
    forall k | k in u.sessions ensures RowCurrent(u, u.sessions[k]) {
      assert RowCurrent(t, t.sessions[k]);
    }
  }

  lemma TransactKeeps(t: Tables, step: Step)
    requires TablesSound(t)
    ensures Keeps(t, Transact(t, step))
  {
    hide TablesSound, Keeps, LocallyReset, RoleStored, SessionsCleared, AccountCreated, InitialUserCreated;
    UntouchedKeeps(t);
    match step
    case Password(id) =>
      if id in t.users {
        RefreshKeeps(t, id, t.users[id].(loginGeneration := t.users[id].loginGeneration + 1), t.loginGeneration + 1);
      }
    case Clear(id, spared) => ClearKeeps(t, id, spared);
    case Revoke(id, token) => DeleteKeeps(t, OfAccount(t, id) * {token}, t.loginGeneration);
    case ChangeRole(id, role, disabled) =>
      if id in t.users {
        RoleKeeps(t, id, role, disabled);
      }
    case Confirm(id, at) =>
      if id in t.users {
        var u := t.users[id];
        InvalidateKeeps(t, id, u.(secret := u.pending, pending := None, lastStep := at, generation := u.generation + 1));
      }
    case DisableFactor(id) =>
      DeleteKeeps(t, OfAccount(t, id), t.loginGeneration + 1);
      if id in t.users {
        InvalidateKeeps(t, id, FactorCleared(t.users[id]));
      }
    case Reset(id, password, factor) => ResetKeeps(t, id, password, factor);
    case Create(name, role) => CreateKeeps(t, name, role);
    case Setup(name) => SetupKeeps(t, name);
    case Enroll(id, secret) =>
      if id in t.users {
        RefreshKeeps(t, id, t.users[id].(pending := Some(secret)), t.loginGeneration);
      }
    case Drop(token) => DeleteKeeps(t, {token}, t.loginGeneration);
    case _ =>
  }

  // ----- every step of every run

  function OwnerOf(w: World, token: Token): Option<Identity> {
    if token in w.owner then Some(w.owner[token]) else None
  }

  /** Under one epoch accounts only advance; an epoch once left never returns; no token changes
      hands. */
  ghost predicate Progress(w: World, v: World) {
    && w.epochs <= v.epochs && w.used <= v.used
    && (v.t.epoch == w.t.epoch ==> Advances(w.t, v.t))
    && (v.t.epoch != w.t.epoch ==> v.t.epoch !in w.epochs)
    && (forall k :: k in w.used ==> OwnerOf(v, k) == OwnerOf(w, k))
  }

  lemma ProgressItself(w: World)
    ensures Progress(w, w)
  {
  }

  lemma ProgressComposes(u: World, v: World, w: World)
    requires Progress(u, v) && Progress(v, w) && u.t.epoch in u.epochs
    ensures Progress(u, w)
  {
  }

  ghost predicate StepKeeps(w: World, v: World) {
    Sound(v) && Progress(w, v)
  }

  lemma CommitKeepsTables(w: World, r: nat)
    requires Sound(w) && r in w.requests
    ensures TablesSound(Next(w, Commit(r)).t)
  {
    var q := w.requests[r];
    var w' := Next(w, Commit(r));
    assert OwnerKnown(w.owner, q.token, q.data);
    forall k | k in w'.t.sessions ensures RowCurrent(w'.t, w'.t.sessions[k]) {
      if k in w.t.sessions {
        assert RowCurrent(w.t, w.t.sessions[k]) && OwnerKnown(w.owner, k, w.t.sessions[k].data);
      }
    }
  }

  lemma CommitKeepsRecords(w: World, r: nat)
    requires Recorded(w) && r in w.requests
    ensures Recorded(Next(w, Commit(r)))
  {
    hide Admits;
    assert forall x :: x in w.requests ==> RequestRecorded(w, w.requests[x]);
  }

  lemma CommitKeepsOwners(w: World, r: nat)
    requires OwnersKnown(w) && r in w.requests
    ensures OwnersKnown(Next(w, Commit(r)))
  {
    hide Admits;
    assert OwnerKnown(w.owner, w.requests[r].token, w.requests[r].data);
  }

  lemma CommitKeeps(w: World, r: nat)
    requires Sound(w) && r in w.requests
    ensures StepKeeps(w, Next(w, Commit(r)))
  {
    CommitKeepsTables(w, r);
    CommitKeepsRecords(w, r);
    CommitKeepsOwners(w, r);
    hide TablesSound, Recorded, OwnersKnown, Admits;
  }

  /** Transactions leave requests and ownership alone. */
  lemma TransactStepKeeps(w: World, t: Tables)
    requires Sound(w) && Keeps(w.t, t)
    ensures StepKeeps(w, w.(t := t))
  {
    hide TablesSound, Advances;
    forall k | k in t.sessions ensures OwnerKnown(w.owner, k, t.sessions[k].data) && t.sessions[k].data.epoch in w.epochs {
      assert OwnerKnown(w.owner, k, w.t.sessions[k].data);
    }
    assert forall x :: x in w.requests ==> RequestRecorded(w, w.requests[x]);
  }

  /** A new token for a request. */
  lemma IssueKeeps(w: World, r: nat, token: Token, d: Data)
    requires Sound(w) && token !in w.used && d.epoch in w.epochs
    ensures StepKeeps(w, w.(requests := w.requests[r := Request(token, d, None, None, None)],
                            owner := Owned(w.owner, token, d), used := w.used + {token}))
  {
    hide TablesSound;
    var owner := Owned(w.owner, token, d);
    forall k | k in w.t.sessions ensures OwnerKnown(owner, k, w.t.sessions[k].data) {
      assert OwnerKnown(w.owner, k, w.t.sessions[k].data);
    }
    forall x | x in w.requests && x != r
      ensures OwnerKnown(owner, w.requests[x].token, w.requests[x].data) && RequestRecorded(w, w.requests[x])
    {
      assert OwnerKnown(w.owner, w.requests[x].token, w.requests[x].data);
    }
  }

  /** A request that keeps its token and its session's identity. */
  lemma UpdateKeeps(w: World, r: nat, q: Request)
    requires Sound(w) && RequestRecorded(w, q) && OwnerKnown(w.owner, q.token, q.data)
    ensures StepKeeps(w, Updated(w, r, q))
  {
    hide TablesSound;
    assert forall x :: x in w.requests ==> RequestRecorded(w, w.requests[x]);
  }

  lemma StageKeeps(w: World, r: nat, token: Token)
    requires Sound(w)
    ensures StepKeeps(w, StageStep(w, r, token))
  {
    ProgressItself(w);
    if MayStage(w, r, token) {
      var q := w.requests[r];
      assert RequestRecorded(w, q);
      var d := StagedData(w.t, q);
      hide Sound, TablesSound, Progress, StagedData;
      SoundTables(w);
      DeleteKeeps(w.t, {q.token}, w.t.loginGeneration);
      var v := w.(t := Deleted(w.t, {q.token}));
      TransactStepKeeps(w, v.t);
      IssueKeeps(v, r, token, d);
      EpochOnRecord(w);
      ProgressComposes(w, v, StageStep(w, r, token));
    }
  }

  lemma EpochOnRecord(w: World)
    requires Sound(w)
    ensures w.t.epoch in w.epochs
  {
  }

  lemma ZeroOnRecord(w: World)
    requires Sound(w)
    ensures 0 in w.epochs
  {
  }

  lemma SoundTables(w: World)
    requires Sound(w)
    ensures TablesSound(w.t)
  {
  }

  lemma RestoreKeeps(w: World, archived: Tables, step: int, epoch: nat)
    requires Sound(w)
    ensures StepKeeps(w, RestoreStep(w, archived, step, epoch))
  {
    if MayRestore(w, archived, epoch) {
      var t := Readied(archived, step, epoch);
      assert t.sessions == map[];
      assert forall x :: x in w.requests ==> RequestRecorded(w, w.requests[x]);
    } else {
      ProgressItself(w);
    }
  }

  predicate Serves(step: Step) {
    step.OpenAnonymous? || step.Open? || step.ReadAccount? || step.ReadGuard? || step.ReadEpoch?
  }

  lemma ReadKeeps(w: World, r: nat, seen: Option<Identity>, guard: Option<nat>, epoch: Option<nat>)
    requires Sound(w) && r in w.requests && (epoch.Some? ==> epoch.value in w.epochs)
    ensures StepKeeps(w, Updated(w, r, w.requests[r].(seen := seen, guard := guard, epoch := epoch)))
  {
    assert RequestRecorded(w, w.requests[r]) && OwnerKnown(w.owner, w.requests[r].token, w.requests[r].data);
    hide Sound, Progress;
    UpdateKeeps(w, r, w.requests[r].(seen := seen, guard := guard, epoch := epoch));
  }

  lemma OpenKeeps(w: World, r: nat, token: Token)
    requires Sound(w) && token in w.t.sessions
    ensures StepKeeps(w, Updated(w, r, Request(token, w.t.sessions[token].data, None, None, None)))
  {
    assert OwnerKnown(w.owner, token, w.t.sessions[token].data);
    hide TablesSound, Progress;
    UpdateKeeps(w, r, Request(token, w.t.sessions[token].data, None, None, None));
  }

  lemma ServeKeeps(w: World, step: Step)
    requires Sound(w) && Serves(step)
    ensures StepKeeps(w, Next(w, step))
  {
    ProgressItself(w);
    EpochOnRecord(w);
    hide StepKeeps, Sound, Progress;
    Unmoved(w);
    if step.OpenAnonymous? {
      if step.token !in w.used {
        ZeroOnRecord(w);
        IssueKeeps(w, step.r, step.token, Data(None, 0, None));
      }
    } else if step.Open? {
      if step.token in w.t.sessions {
        OpenKeeps(w, step.r, step.token);
      }
    } else if step.r in w.requests {
      var q := w.requests[step.r];
      if step.ReadGuard? {
        ReadKeeps(w, step.r, q.seen, Some(w.t.loginGeneration), q.epoch);
      } else if step.ReadEpoch? {
        ReadKeeps(w, step.r, q.seen, q.guard, Some(w.t.epoch));
      } else if step.id in w.t.users {
        ReadKeeps(w, step.r, Some(Reading(w.t, step.id)), q.guard, q.epoch);
      }
    }
  }

  lemma Unmoved(w: World)
    requires Sound(w)
    ensures StepKeeps(w, w)
  {
    ProgressItself(w);
  }

  lemma NextKeeps(w: World, step: Step)
    requires Sound(w)
    ensures StepKeeps(w, Next(w, step))
  {
    SoundTables(w);
    Unmoved(w);
    hide StepKeeps, Sound, TablesSound, Transact, RestoreStep, StageStep;
    if Serves(step) {
      ServeKeeps(w, step);
    } else {
      match step
      case Restore(archived, at, epoch) => RestoreKeeps(w, archived, at, epoch);
      case Stage(r, token) => StageKeeps(w, r, token);
      case Commit(r) =>
        if r in w.requests {
          CommitKeeps(w, r);
        }
      case _ =>
        TransactKeeps(w.t, step);
        TransactStepKeeps(w, Transact(w.t, step));
    }
  }

  // ----- where tables and copies come from

  /** What each step does to the tables. */
  function TablesAfter(w: World, step: Step): Tables {
    match step
    case Restore(archived, at, epoch) => if MayRestore(w, archived, epoch) then Readied(archived, at, epoch) else w.t
    case Stage(r, token) => if MayStage(w, r, token) then Deleted(w.t, {w.requests[r].token}) else w.t
    case Commit(r) => if r in w.requests then Committed(w.t, w.requests[r].token, w.requests[r].data) else w.t
    case _ => Transact(w.t, step)
  }

  lemma NextTables(w: World, step: Step)
    ensures Next(w, step).t == TablesAfter(w, step)
  {
    hide AccountsSound, Readied, Committed, Deleted;
  }

  /** A request that holds `token` after a step held it before, or has just loaded it. */
  lemma Holders(w: World, step: Step, token: Token, r: nat)
    requires token in w.used && r in Next(w, step).requests && Next(w, step).requests[r].token == token
    ensures var d := Next(w, step).requests[r].data;
            || (r in w.requests && w.requests[r].token == token && w.requests[r].data == d)
            || (token in w.t.sessions && w.t.sessions[token].data == d)
  {
    hide Transact, AccountsSound;
  }

  /** A session stored after a step was stored before, or is that of a request that holds it. */
  lemma Stored(w: World, step: Step, token: Token)
    requires Sound(w) && token in Next(w, step).t.sessions
    ensures var d := Next(w, step).t.sessions[token].data;
            || (token in w.t.sessions && w.t.sessions[token].data == d)
            || (step.Commit? && step.r in w.requests && w.requests[step.r].token == token && w.requests[step.r].data == d
                && Affects(w.t, token, d))
  {
    SoundTables(w);
    NextTables(w, step);
    hide Next, Sound, TablesSound, Transact, Admits, AccountsSound;
    if step.Restore? {
      assert MayRestore(w, step.archived, step.epoch) ==> Readied(step.archived, step.step, step.epoch).sessions == map[];
    } else if !step.Commit? && !step.Stage? {
      TransactKeeps(w.t, step);
    }
  }

  /** From a sound world, every run stays sound and makes progress. */
  lemma {:induction false} RunKeeps(w: World, steps: seq<Step>)
    requires Sound(w)
    ensures StepKeeps(w, Run(w, steps))
    decreases |steps|
  {
    hide Sound, Progress, Next;
    if steps == [] {
      ProgressItself(w);
    } else {
      var w' := Next(w, steps[0]);
      NextKeeps(w, steps[0]);
      RunKeeps(w', steps[1..]);
      EpochOnRecord(w);
      ProgressComposes(w, w', Run(w', steps[1..]));
    }
  }

  lemma GenesisIsSound()
    ensures Sound(GENESIS)
  {
  }

  /** In every reachable state, restores of any archives included, live tokens and tombstones are
      disjoint, and every identity-bound session speaks for an enabled account at its current
      generation and epoch. */
  lemma EveryReachableStateIsSound(steps: seq<Step>)
    ensures TablesSound(Run(GENESIS, steps).t)
    ensures var t := Run(GENESIS, steps).t;
            forall k :: k in t.sessions && t.sessions[k].data.identity.Some? ==>
              SessionAccount(t, t.sessions[k].data) == Some(t.sessions[k].account)
  {
    GenesisIsSound();
    RunKeeps(GENESIS, steps);
    var t := Run(GENESIS, steps).t;
    forall k | k in t.sessions && t.sessions[k].data.identity.Some?
      ensures SessionAccount(t, t.sessions[k].data) == Some(t.sessions[k].account)
    {
      assert RowCurrent(t, t.sessions[k]);
    }
  }

  // ----- deleted tokens

  /** The archive remembers the token, live or deleted. */
  predicate Knows(archived: Tables, token: Token) {
    token in archived.sessions || token in archived.tombstones
  }

  /** Every restore that takes effect brings an archive that knows the token. */
  predicate AlwaysKnown(w: World, steps: seq<Step>, token: Token)
    decreases |steps|
  {
    steps == [] ||
    ((steps[0].Restore? && MayRestore(w, steps[0].archived, steps[0].epoch) ==> Knows(steps[0].archived, token))
     && AlwaysKnown(Next(w, steps[0]), steps[1..], token))
  }

  lemma TombstoneKept(w: World, step: Step, token: Token)
    requires Sound(w) && token in w.t.tombstones
    requires step.Restore? && MayRestore(w, step.archived, step.epoch) ==> Knows(step.archived, token)
    ensures token in Next(w, step).t.tombstones
  {
    SoundTables(w);
    NextTables(w, step);
    hide Next, Sound, TablesSound, Transact, AccountsSound, Admits;
    if !step.Restore? && !step.Commit? && !step.Stage? {
      TransactKeeps(w.t, step);
    }
  }

  /** A deleted token never returns while every archive restored knows it, whatever requests are
      still in flight. */
  lemma {:induction false} KnownTokenNeverReturns(w: World, steps: seq<Step>, token: Token)
    requires Sound(w) && token in w.t.tombstones && AlwaysKnown(w, steps, token)
    ensures token in Run(w, steps).t.tombstones && token !in Run(w, steps).t.sessions
    decreases |steps|
  {
    SoundTables(w);
    hide Sound, Next;
    if steps != [] {
      TombstoneKept(w, steps[0], token);
      NextKeeps(w, steps[0]);
      KnownTokenNeverReturns(Next(w, steps[0]), steps[1..], token);
    }
  }

  /** Without the leases, a request that still held the token after a restore would bring it back
      exactly when the archive does not know the token and the session it carries is anonymous and
      unguarded, or guarded by the archive's own login generation. */
  lemma TokenReturnsExactlyWhen(w: World, r: nat, archived: Tables, step: int, epoch: nat)
    requires Sound(w) && r in w.requests && MayRestore(w, archived, epoch)
    ensures var q := w.requests[r];
            q.token in Next(Next(w, Restore(archived, step, epoch)), Commit(r)).t.sessions <==>
            !Knows(archived, q.token) && q.data.identity.None?
            && (q.data.guard.None? || q.data.guard.value == archived.loginGeneration)
  {
    hide TablesSound, OwnersKnown, AccountsSound;
    assert RequestRecorded(w, w.requests[r]);
    assert Readied(archived, step, epoch).sessions == map[];
  }

  /** A token that spoke for an account never does again once it is deleted, whatever is restored. */
  lemma {:induction false} DeletedSessionNeverReturns(w: World, steps: seq<Step>, token: Token)
    requires Sound(w) && token in w.owner && token in w.t.tombstones
    ensures token !in Run(w, steps).t.sessions
  {
    SoundTables(w);
    GoneStaysGone(w, steps, token);
  }

  /** The token has no session and cannot get one: it has a tombstone, or all its copies are of
      epochs gone by. */
  ghost predicate Gone(w: World, token: Token) {
    && token in w.used && token in w.owner && token !in w.t.sessions
    && (token in w.t.tombstones || forall r :: r in w.requests && w.requests[r].token == token ==> w.requests[r].data.epoch != w.t.epoch)
  }

  lemma GoneKept(w: World, step: Step, token: Token)
    requires Sound(w) && Gone(w, token)
    ensures Gone(Next(w, step), token)
  {
    NextKeeps(w, step);
    var v := Next(w, step);
    assert OwnerOf(v, token) == OwnerOf(w, token);
    assert forall r :: r in w.requests ==> RequestRecorded(w, w.requests[r]) && OwnerKnown(w.owner, w.requests[r].token, w.requests[r].data);
    assert v.t.epoch == w.t.epoch || v.t.epoch !in w.epochs;
    hide Next, Sound, Progress, OwnersKnown, Recorded;
    if token in v.t.sessions {
      Stored(w, step, token);
    }
    forall r | r in v.requests && v.requests[r].token == token && (token !in w.t.tombstones || v.t.epoch != w.t.epoch)
      ensures v.requests[r].data.epoch != v.t.epoch
    {
      Holders(w, step, token, r);
    }
    if token in w.t.tombstones && v.t.epoch == w.t.epoch {
      SameEpochNoRestore(w, step);
      TombstoneKept(w, step, token);
    }
  }

  lemma SameEpochNoRestore(w: World, step: Step)
    requires Sound(w) && Next(w, step).t.epoch == w.t.epoch
    ensures !(step.Restore? && MayRestore(w, step.archived, step.epoch))
  {
    EpochOnRecord(w);
    hide Sound, AccountsSound;
  }

  lemma {:induction false} GoneStaysGone(w: World, steps: seq<Step>, token: Token)
    requires Sound(w) && Gone(w, token)
    ensures Gone(Run(w, steps), token)
    decreases |steps|
  {
    hide Sound, Next, Gone;
    if steps != [] {
      GoneKept(w, steps[0], token);
      NextKeeps(w, steps[0]);
      GoneStaysGone(Next(w, steps[0]), steps[1..], token);
    }
  }

  // ----- the last administrator

  lemma AnotherAdminRemains(t: Tables, id: nat)
    requires |ActiveAdmins(t)| > 1
    ensures exists other :: other in ActiveAdmins(t) && other != id
  {
    var others := ActiveAdmins(t) - {id};
    assert |others| >= |ActiveAdmins(t)| - 1;
    var other :| other in others;
  }

  lemma RoleKeepsAdmin(t: Tables, id: nat, role: Role, disabled: bool)
    requires id in t.users && ActiveAdmins(t) != {}
    ensures ActiveAdmins(RoleStored(t, id, role, disabled)) != {}
  {
    var t' := RoleStored(t, id, role, disabled);
    if t' != t {
      if ActiveAdmin(t.users[id]) && (!role.Admin? || disabled) {
        assert id in ActiveAdmins(t) && |ActiveAdmins(t)| > 1;
        AnotherAdminRemains(t, id);
        var other :| other in ActiveAdmins(t) && other != id;
        assert other in ActiveAdmins(t');
      } else {
        var some :| some in ActiveAdmins(t);
        assert some in ActiveAdmins(t');
      }
    }
  }

  lemma ResetOfNobody(t: Tables, step: Step)
    requires step.Reset? ==> step.id !in t.users || (!step.password && !step.factor)
    ensures step.Reset? ==> Transact(t, step) == t
  {
  }

  lemma TransactKeepsRole(t: Tables, step: Step, id: nat)
    requires AccountsSound(t) && id in t.users && !step.ChangeRole?
    ensures var u := Transact(t, step).users;
            id in u && u[id].role == t.users[id].role && u[id].disabled == t.users[id].disabled
  {
    hide LocallyReset;
    if step.Reset? && step.id in t.users && (step.password || step.factor) {
      ResetIsOneTouch(t, step.id, step.password, step.factor);
    } else {
      ResetOfNobody(t, step);
    }
  }

  lemma TransactKeepsAdmin(t: Tables, step: Step)
    requires AccountsSound(t) && ActiveAdmins(t) != {}
    ensures ActiveAdmins(Transact(t, step)) != {}
  {
    var some :| some in ActiveAdmins(t);
    if step.ChangeRole? {
      hide RoleStored;
      if step.id in t.users {
        RoleKeepsAdmin(t, step.id, step.role, step.disabled);
      }
    } else {
      hide Transact;
      TransactKeepsRole(t, step, some);
      assert some in ActiveAdmins(Transact(t, step));
    }
  }

  /** A restore brings the archive's administrators and no others. */
  lemma RestoredAdmins(archived: Tables, step: int, epoch: nat)
    ensures ActiveAdmins(Readied(archived, step, epoch)) == ActiveAdmins(archived)
  {
  }

  predicate TakesAdmins(w: World, step: Step) {
    step.Restore? && MayRestore(w, step.archived, step.epoch) && ActiveAdmins(step.archived) == {}
  }

  lemma StepKeepsAdmin(w: World, step: Step)
    requires Sound(w) && ActiveAdmins(w.t) != {}
    ensures ActiveAdmins(Next(w, step).t) != {} <==> !TakesAdmins(w, step)
  {
    SoundTables(w);
    assert AccountsSound(w.t);
    NextTables(w, step);
    hide Next, Transact, ActiveAdmins, Sound, AccountsSound, Admits;
    match step
    case Restore(archived, at, epoch) => RestoredAdmins(archived, at, epoch);
    case Stage(r, token) =>
      if MayStage(w, r, token) {
        SameAdmins(w.t, Deleted(w.t, {w.requests[r].token}));
      }
    case Commit(r) =>
      if r in w.requests {
        SameAdmins(w.t, Committed(w.t, w.requests[r].token, w.requests[r].data));
      }
    case _ => TransactKeepsAdmin(w.t, step);
  }

  lemma SameAdmins(t: Tables, u: Tables)
    requires t.users == u.users
    ensures ActiveAdmins(t) == ActiveAdmins(u)
  {
  }

  /** Some restore on the way brings a database without an enabled administrator. */
  predicate AdminsTaken(w: World, steps: seq<Step>)
    decreases |steps|
  {
    steps != [] && (TakesAdmins(w, steps[0]) || AdminsTaken(Next(w, steps[0]), steps[1..]))
  }

  predicate AlwaysAdministered(w: World, steps: seq<Step>)
    decreases |steps|
  {
    ActiveAdmins(w.t) != {} && (steps != [] ==> AlwaysAdministered(Next(w, steps[0]), steps[1..]))
  }

  /** Once an enabled administrator exists, one does in every later state, exactly unless a database
      without one is restored. */
  lemma {:induction false} AdministratorRemains(w: World, steps: seq<Step>)
    requires Sound(w) && ActiveAdmins(w.t) != {}
    ensures AlwaysAdministered(w, steps) <==> !AdminsTaken(w, steps)
    decreases |steps|
  {
    hide Sound, Next, ActiveAdmins, TakesAdmins;
    if steps != [] {
      NextKeeps(w, steps[0]);
      StepKeepsAdmin(w, steps[0]);
      if !TakesAdmins(w, steps[0]) {
        AdministratorRemains(Next(w, steps[0]), steps[1..]);
      }
    }
  }

  /** Such a database can be restored over any installation. */
  lemma RestoreMayTakeAdmins(w: World, epoch: nat)
    requires epoch !in w.epochs
    ensures TakesAdmins(w, Restore(EMPTY, 0, epoch)) && ActiveAdmins(Next(w, Restore(EMPTY, 0, epoch)).t) == {}
  {
  }
}
