/**
  What each account transaction does, session by session and account by account, and that sessions
  once taken away stay away.
 */
module Revocations {
  import opened Common
  import opened Sessions
  import opened SessionRuns
  import opened LeasedRuns

  predicate EnabledAdmin(t: Tables, id: nat) {
    id in t.users && t.users[id].role.Admin? && !t.users[id].disabled
  }

  /** There is no enabled administrator but `id`. */
  ghost predicate OnlyAdmin(t: Tables, id: nat) {
    EnabledAdmin(t, id) && forall other :: EnabledAdmin(t, other) ==> other == id
  }

  /** The change is one, and does not take the last enabled administrator away. */
  ghost predicate RoleChanges(t: Tables, id: nat, role: Role, disabled: bool) {
    && id in t.users && (t.users[id].role != role || t.users[id].disabled != disabled)
    && !(OnlyAdmin(t, id) && (role != Admin || disabled))
  }

  predicate FactorConfirms(t: Tables, id: nat) {
    id in t.users && !t.users[id].disabled && t.users[id].secret.None? && t.users[id].pending.Some?
  }

  /** The session of `row` under `token` is one the step takes away. */
  ghost predicate Takes(t: Tables, step: Step, token: Token, row: Row) {
    match step
    case Clear(id, spared) => row.account == id && token !in spared
    case Revoke(id, k) => row.account == id && token == k
    case ChangeRole(id, role, disabled) => row.account == id && RoleChanges(t, id, role, disabled)
    case Confirm(id, _) => row.account == id && FactorConfirms(t, id)
    case DisableFactor(id) => row.account == id
    case Reset(id, password, factor) => row.account == id && id in t.users && (password || factor)
    case Drop(k) => token == k
    case _ => false
  }

  predicate Transacts(step: Step) {
    !step.Restore? && !step.Stage? && !step.Commit? && !Serves(step)
  }

  /** Every session the step takes is gone and has a tombstone; every other row is as it was, and
      nothing else gets a tombstone. */
  ghost predicate TakesExactly(t: Tables, u: Tables, step: Step) {
    && (forall k :: k in u.sessions ==> k in t.sessions)
    && (forall k :: k in t.sessions ==>
          if Takes(t, step, k, t.sessions[k]) then k !in u.sessions && k in u.tombstones
          else k in u.sessions && u.sessions[k] == t.sessions[k])
    && (forall k :: k in u.tombstones ==> k in t.tombstones || (k in t.sessions && Takes(t, step, k, t.sessions[k])))
    && t.tombstones <= u.tombstones
  }

  lemma SingleMember(s: set<nat>, x: nat)
    requires x in s
    ensures |s| == 1 <==> forall y :: y in s ==> y == x
  {
    if |s| == 1 {
      assert |s - {x}| == 0;
    } else {
      assert s == {x} <==> forall y :: y in s ==> y == x;
    }
  }

  lemma AbortsForTheLastAdmin(t: Tables, id: nat, role: Role, disabled: bool)
    requires id in t.users
    ensures LastAdminAborts(t, id, role, disabled) <==> OnlyAdmin(t, id) && (role != Admin || disabled)
  {
    if EnabledAdmin(t, id) {
      SingleMember(ActiveAdmins(t), id);
      assert forall x :: x in ActiveAdmins(t) <==> EnabledAdmin(t, x);
    }
  }

  lemma RoleStoredTakes(t: Tables, id: nat, role: Role, disabled: bool)
    ensures TakesExactly(t, Transact(t, ChangeRole(id, role, disabled)), ChangeRole(id, role, disabled))
  {
    if id in t.users {
      AbortsForTheLastAdmin(t, id, role, disabled);
      hide LastAdminAborts, OnlyAdmin;
    }
  }

  lemma ResetTakes(t: Tables, id: nat, password: bool, factor: bool)
    ensures TakesExactly(t, Transact(t, Reset(id, password, factor)), Reset(id, password, factor))
  {
    if id in t.users && (password || factor) {
      ResetIsOneTouch(t, id, password, factor);
      hide LocallyReset, ResetUser;
    }
  }

  /** Exactly which sessions each account transaction takes away. */
  lemma TransactionTakesExactly(w: World, step: Step)
    requires Transacts(step)
    ensures TakesExactly(w.t, Next(w, step).t, step)
  {
    if step.ChangeRole? {
      RoleStoredTakes(w.t, step.id, step.role, step.disabled);
    } else if step.Reset? {
      ResetTakes(w.t, step.id, step.password, step.factor);
    } else {
      hide RoleStored, LocallyReset, OnlyAdmin;
    }
  }

  /** A session that is taken away is gone for good, whatever happens afterwards. */
  lemma TakenSessionIsGone(start: seq<Move>, step: Step, token: Token, after: seq<Move>)
    requires var s := LeasedRun(START, start);
             Transacts(step) && token in s.w.t.sessions && Takes(s.w.t, step, token, s.w.t.sessions[token])
    ensures token !in LeasedRun(LeasedNext(LeasedRun(START, start), Act(step)), after).w.t.sessions
  {
    var s := LeasedRun(START, start);
    TransactionTakesExactly(s.w, step);
    ActIsStep(s, step);
    EveryServiceStateIsLive(start);
    hide LeasedRun, LeasedNext, Next, Takes;
    MoveKeeps(s, Act(step));
    var v := LeasedNext(s, Act(step));
    hide TakesExactly;
    TombstonedIsDead(v.w, token);
    DeadStaysDead(v, after, token);
  }

  lemma TombstonedIsDead(w: World, token: Token)
    requires Sound(w) && token in w.t.tombstones
    ensures Dead(w, token)
  {
  }

  /** After an account's sessions were cleared, it has none but the spared ones, and the others are as
      they were. */
  lemma ClearedAccountHasNoOther(w: World, id: nat, spared: set<Token>, token: Token)
    ensures var t := Next(w, Clear(id, spared)).t;
            && (token in t.sessions && t.sessions[token].account == id ==> token in spared)
            && (token in w.t.sessions && (token in spared || w.t.sessions[token].account != id) ==>
                  token in t.sessions && t.sessions[token] == w.t.sessions[token])
  {
    TransactionTakesExactly(w, Clear(id, spared));
    hide Next;
  }

  // ----- accounts

  /** The step clears or replaces the enrolled factor of account `id`. */
  predicate DropsFactor(step: Step, id: nat) {
    (step.DisableFactor? && step.id == id) || (step.Reset? && step.id == id && step.factor)
  }

  predicate Confirms(t: Tables, step: Step, id: nat) {
    step.Confirm? && step.id == id && FactorConfirms(t, id)
  }

  ghost predicate ChangesRole(t: Tables, step: Step, id: nat) {
    step.ChangeRole? && step.id == id && RoleChanges(t, id, step.role, step.disabled)
  }

  predicate Enrolls(t: Tables, step: Step, id: nat) {
    step.Enroll? && step.id == id && id in t.users && !t.users[id].disabled && t.users[id].secret.None?
  }

  /** Logins of the account in flight are turned away. */
  ghost predicate TurnsAway(t: Tables, step: Step, id: nat) {
    || ((step.Password? || step.Clear?) && step.id == id) || (step.Reset? && step.id == id && step.password)
    || ChangesRole(t, step, id)
  }

  /** What becomes of each field of an account. */
  ghost predicate AccountBecomes(t: Tables, step: Step, id: nat, a: User, b: User) {
    && b.name == a.name
    && (if ChangesRole(t, step, id) then b.role == step.role && b.disabled == step.disabled else b.role == a.role && b.disabled == a.disabled)
    && b.secret == (if Confirms(t, step, id) then a.pending else if DropsFactor(step, id) then None else a.secret)
    && b.pending == (if Confirms(t, step, id) || DropsFactor(step, id) then None
                     else if Enrolls(t, step, id) then Some(step.secret) else a.pending)
    && b.lastStep == (if Confirms(t, step, id) then step.step else if DropsFactor(step, id) then -1 else a.lastStep)
    && b.generation == a.generation + (if ChangesRole(t, step, id) || Confirms(t, step, id) || DropsFactor(step, id) then 1 else 0)
    && b.loginGeneration == a.loginGeneration + if TurnsAway(t, step, id) then 1 else 0
  }

  lemma RoleBecomes(t: Tables, step: Step, id: nat)
    requires id in t.users && step.ChangeRole?
    ensures id in Transact(t, step).users && AccountBecomes(t, step, id, t.users[id], Transact(t, step).users[id])
  {
    if step.id in t.users {
      AbortsForTheLastAdmin(t, step.id, step.role, step.disabled);
    }
    hide LastAdminAborts, OnlyAdmin;
  }

  lemma ResetBecomes(t: Tables, step: Step, id: nat)
    requires id in t.users && step.Reset?
    ensures id in Transact(t, step).users && AccountBecomes(t, step, id, t.users[id], Transact(t, step).users[id])
  {
    if step.id in t.users && (step.password || step.factor) {
      ResetIsOneTouch(t, step.id, step.password, step.factor);
      hide LocallyReset;
    }
  }

  /** Every account, field by field, after every transaction: a role changes unless it would take the
      last enabled administrator, a factor is enrolled from the pending one and dropped only by a
      reset, and the generations move exactly with these. */
  lemma AccountAfter(w: World, step: Step, id: nat)
    requires Transacts(step) && AccountsSound(w.t) && id in w.t.users
    ensures id in Next(w, step).t.users && AccountBecomes(w.t, step, id, w.t.users[id], Next(w, step).t.users[id])
  {
    assert Next(w, step).t == Transact(w.t, step);
    if step.ChangeRole? {
      RoleBecomes(w.t, step, id);
    } else if step.Reset? {
      ResetBecomes(w.t, step, id);
    } else if step.Create? || step.Setup? || step.Drop? || step.Revoke? {
      hide RoleStored, LocallyReset, OnlyAdmin, Next;
    } else {
      hide Next;
      OneAccountBecomes(w.t, step, id);
    }
  }

  lemma OneAccountBecomes(t: Tables, step: Step, id: nat)
    requires id in t.users && (step.Password? || step.Clear? || step.Confirm? || step.DisableFactor? || step.Enroll?)
    ensures id in Transact(t, step).users && AccountBecomes(t, step, id, t.users[id], Transact(t, step).users[id])
  {
    hide RoleStored, LocallyReset, OnlyAdmin, AccountCreated, InitialUserCreated, OfAccount;
  }

  /** Accounts appear only by creation, under a name not taken and an id never used, enabled and
      without a factor; the first one is an administrator. */
  lemma NewAccounts(w: World, step: Step, id: nat)
    requires Transacts(step) && AccountsSound(w.t) && id !in w.t.users
    ensures var u := Next(w, step).t.users;
            && (id in u <==> (step.Create? && id == w.t.nextId && !NameTaken(w.t, step.name)) || (step.Setup? && id == 1 && w.t.users == map[]))
            && (id in u ==> u[id] == User(step.name, if step.Create? then step.role else Admin, false, 0, 0, None, None, -1))
  {
    assert Next(w, step).t == Transact(w.t, step);
    hide Next, RoleStored, OnlyAdmin, LocallyReset;
    if step.ChangeRole? {
      RoleUsers(w.t, step.id, step.role, step.disabled);
    } else if step.Reset? {
      ResetUsers(w.t, step.id, step.password, step.factor);
    }
  }

  lemma RoleUsers(t: Tables, id: nat, role: Role, disabled: bool)
    ensures Transact(t, ChangeRole(id, role, disabled)).users.Keys == t.users.Keys
  {
    hide LastAdminAborts;
  }

  lemma ResetUsers(t: Tables, id: nat, password: bool, factor: bool)
    ensures Transact(t, Reset(id, password, factor)).users.Keys == t.users.Keys
  {
    if id in t.users && (password || factor) {
      ResetIsOneTouch(t, id, password, factor);
      hide LocallyReset, ResetUser;
    }
  }

  /** A restore brings every archived account back as it was, at its next generation, without a pending
      enrollment and with every step up to the given one used; no session comes with them, and every
      archived token is barred. */
  lemma RestoredAccounts(archived: Tables, step: int, epoch: nat, id: nat)
    ensures var t := Readied(archived, step, epoch);
            && (id in t.users <==> id in archived.users)
            && (id in t.users ==>
                  var a, b := archived.users[id], t.users[id];
                  && b.name == a.name && b.role == a.role && b.disabled == a.disabled && b.secret == a.secret && b.pending.None?
                  && b.generation == a.generation + 1 && b.loginGeneration == a.loginGeneration
                  && b.lastStep >= a.lastStep && b.lastStep >= step && (b.lastStep == a.lastStep || b.lastStep == step))
            && t.sessions == map[] && t.tombstones == archived.tombstones + archived.sessions.Keys
            && t.epoch == epoch && t.nextId == archived.nextId && t.loginGeneration == archived.loginGeneration
  {
  }

  // ----- commits

  /** Exactly when a commit stores what it carries: the token has no tombstone, the identity is that of
      an enabled account at its generation and epoch, and a session not yet stored is still wanted. */
  lemma CommitStoresExactlyWhen(t: Tables, token: Token, d: Data)
    ensures var u := Committed(t, token, d);
            var wanted := token in t.sessions
                          || (if d.identity.None? then d.guard.None? || d.guard.value == t.loginGeneration
                              else d.identity.value.account in t.users
                                   && t.users[d.identity.value.account].loginGeneration == d.identity.value.loginGeneration);
            if token !in t.tombstones && (d.identity.None? || SessionAccount(t, d).Some?) && wanted
            then && token in u.sessions && u.sessions[token].data == d
                 && (token in t.sessions ==> u.sessions[token].account == t.sessions[token].account)
                 && (token !in t.sessions && d.identity.Some? ==> u.sessions[token].account == d.identity.value.account)
                 && u == t.(sessions := t.sessions[token := u.sessions[token]])
            else u == t
  {
  }
}
