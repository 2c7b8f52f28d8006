/**
  Accounts, sessions and their revocation: the tables, the schema triggers that run inside every
  statement, and the transactions that change them.

  The tables are one value so that runs can be reasoned about; the store class updates the same
  tables in place, statement by statement, as the transactions do.
 */
module Sessions {
  import opened Common

  type Token = string

  datatype Role = Reader | Operator | Admin

  /** One account row. `secret` and `pending` stand for the enrolled and the unconfirmed factor. */
  datatype User = User(
    name: string, role: Role, disabled: bool, generation: nat, loginGeneration: nat,
    secret: Option<string>, pending: Option<string>, lastStep: int)

  datatype Identity = Identity(account: nat, generation: nat, loginGeneration: nat)

  /** The values a session carries that the store looks at. Epochs are the installation's random
      identifiers; 0 stands for none. */
  datatype Data = Data(guard: Option<nat>, epoch: nat, identity: Option<Identity>)

  datatype Row = Row(account: nat, data: Data)

  datatype Tables = Tables(
    users: map<nat, User>, nextId: nat, sessions: map<Token, Row>, tombstones: set<Token>,
    loginGeneration: nat, epoch: nat)

  const EMPTY: Tables := Tables(map[], 1, map[], {}, 0, 1)

  function OfAccount(t: Tables, id: nat): set<Token> {
    set k | k in t.sessions && t.sessions[k].account == id
  }

  // ----- single statements, triggers included

  /** DELETE FROM sessions: each deleted token leaves a tombstone. */
  function Deleted(t: Tables, tokens: set<Token>): Tables {
    t.(sessions := t.sessions - tokens, tombstones := t.tombstones + (t.sessions.Keys * tokens))
  }

  function LoginGenerationBumped(t: Tables): Tables {
    t.(loginGeneration := t.loginGeneration + 1)
  }

  function WithUser(t: Tables, id: nat, u: User): Tables {
    t.(users := t.users[id := u])
  }

  /** UPDATE of the password hash advances both login generations. */
  function PasswordStored(t: Tables, id: nat): Tables {
    if id !in t.users then t
    else
      LoginGenerationBumped(WithUser(t, id, t.users[id].(loginGeneration := t.users[id].loginGeneration + 1)))
  }

  predicate ActiveAdmin(u: User) {
    u.role.Admin? && !u.disabled
  }

  function ActiveAdmins(t: Tables): set<nat> {
    set id | id in t.users && ActiveAdmin(t.users[id])
  }

  /** The trigger that refuses to take away the last enabled administrator. */
  predicate LastAdminAborts(t: Tables, id: nat, role: Role, disabled: bool)
    requires id in t.users
  {
    ActiveAdmin(t.users[id]) && (!role.Admin? || disabled) && |ActiveAdmins(t)| == 1
  }

  /** UPDATE of role and disabled; a change revokes the account's sessions and pending logins. */
  function RoleStored(t: Tables, id: nat, role: Role, disabled: bool): Tables
    requires id in t.users
  {
    var u := t.users[id];
    if LastAdminAborts(t, id, role, disabled) then t
    else if u.role == role && u.disabled == disabled then t
    else
      var changed := u.(role := role, disabled := disabled, generation := u.generation + 1,
                        loginGeneration := u.loginGeneration + 1);
      LoginGenerationBumped(Deleted(WithUser(t, id, changed), OfAccount(t, id)))
  }

  /** The WHERE clause of the conditional insert. */
  predicate Admits(t: Tables, token: Token, d: Data) {
    var i := d.identity;
    && (token in t.sessions
        || (i.Some? && i.value.account in t.users
            && t.users[i.value.account].loginGeneration == i.value.loginGeneration)
        || (i.None? && (d.guard.None? || d.guard.value == t.loginGeneration)))
    && (i.Some? ==> i.value.account in t.users && t.users[i.value.account].generation == i.value.generation
                    && !t.users[i.value.account].disabled)
    && (i.Some? ==> d.epoch == t.epoch)
  }

  predicate Affects(t: Tables, token: Token, d: Data) {
    Admits(t, token, d) && token !in t.tombstones
  }

  /** The conditional upsert; the insert guard silently drops a revoked token. */
  function Committed(t: Tables, token: Token, d: Data): Tables {
    if !Affects(t, token, d) then t
    else if token in t.sessions then t.(sessions := t.sessions[token := t.sessions[token].(data := d)])
    else t.(sessions := t.sessions[token := Row(if d.identity.Some? then d.identity.value.account else 1, d)])
  }

  // ----- transactions

  function SessionsCleared(t: Tables, id: nat, spared: set<Token>): Tables {
    var bumped := LoginGenerationBumped(t);
    var u := if id in t.users
             then WithUser(bumped, id, t.users[id].(loginGeneration := t.users[id].loginGeneration + 1)) else bumped;
    Deleted(u, OfAccount(t, id) - spared)
  }

  /** Clearing deletes as many rows as the account has sessions that are not spared. */
  lemma ClearedCount(t: Tables, id: nat, spared: set<Token>)
    ensures |SessionsCleared(t, id, spared).sessions| == |t.sessions| - |OfAccount(t, id) - spared|
  {
    var gone := OfAccount(t, id) - spared;
    assert SessionsCleared(t, id, spared).sessions == t.sessions - gone;
    assert (t.sessions - gone).Keys == t.sessions.Keys - gone;
  }

  /** Deletes the account's sessions and invalidates logins in flight. */
  function Invalidated(t: Tables, id: nat): Tables {
    LoginGenerationBumped(Deleted(t, OfAccount(t, id)))
  }

  function FactorConfirmed(t: Tables, id: nat, step: int): Tables {
    if id !in t.users || t.users[id].disabled || t.users[id].secret.Some? || t.users[id].pending.None? then t
    else
      var u := t.users[id];
      Invalidated(WithUser(t, id, u.(secret := u.pending, pending := None, lastStep := step,
                                     generation := u.generation + 1)), id)
  }

  function FactorCleared(u: User): User {
    u.(secret := None, pending := None, lastStep := -1, generation := u.generation + 1)
  }

  function FactorDisabled(t: Tables, id: nat): Tables {
    Invalidated(if id in t.users then WithUser(t, id, FactorCleared(t.users[id])) else t, id)
  }

  /** Local recovery: resets the chosen factors and revokes the account's sessions. */
  function LocallyReset(t: Tables, id: nat, password: bool, factor: bool): Tables {
    if id !in t.users || (!password && !factor) then t
    else
      var a := if password then PasswordStored(t, id) else t;
      var b := if factor then WithUser(a, id, FactorCleared(a.users[id])) else a;
      var c := Deleted(b, OfAccount(b, id));
      if password then c else LoginGenerationBumped(c)
  }

  /** An archived database made ready to replace the live one: no session survives, every account
      moves on, and the installation gets a new epoch. */
  function Readied(archived: Tables, step: int, epoch: nat): Tables {
    Deleted(archived, archived.sessions.Keys).(
      users := map id | id in archived.users :: archived.users[id].(
        pending := None, lastStep := if archived.users[id].lastStep < step then step else archived.users[id].lastStep,
        generation := archived.users[id].generation + 1),
      epoch := epoch)
  }

  predicate NameTaken(t: Tables, name: string) {
    exists id :: id in t.users && t.users[id].name == name
  }

  function AccountCreated(t: Tables, name: string, role: Role): Tables {
    if NameTaken(t, name) then t
    else t.(users := t.users[t.nextId := User(name, role, false, 0, 0, None, None, -1)], nextId := t.nextId + 1)
  }

  function InitialUserCreated(t: Tables, name: string): Tables {
    if t.users != map[] then t
    else t.(users := map[1 := User(name, Admin, false, 0, 0, None, None, -1)],
            nextId := if t.nextId <= 1 then 2 else t.nextId)
  }

  function EnrollmentBegun(t: Tables, id: nat, secret: string): Tables {
    if id !in t.users || t.users[id].secret.Some? || t.users[id].disabled then t
    else WithUser(t, id, t.users[id].(pending := Some(secret)))
  }

  // ----- signing in

  /** The account as it stands, as a login reads it before the password check. */
  function Reading(t: Tables, id: nat): Identity
    requires id in t.users
  {
    Identity(id, t.users[id].generation, t.users[id].loginGeneration)
  }

  /** The account is enabled and still what the login has read. */
  predicate Unchanged(t: Tables, seen: Identity) {
    seen.account in t.users && !t.users[seen.account].disabled && Reading(t, seen.account) == seen
  }

  /** The account a stored session speaks for, if it still may. */
  function SessionAccount(t: Tables, d: Data): Option<nat> {
    if d.identity.None? then None
    else
      var i := d.identity.value;
      if i.account in t.users && !t.users[i.account].disabled && t.users[i.account].generation == i.generation
         && d.epoch == t.epoch
      then Some(i.account) else None
  }

  class Store {
    var users: map<nat, User>
    var nextId: nat
    var sessions: map<Token, Row>
    var tombstones: set<Token>
    var loginGeneration: nat
    var epoch: nat

    function View(): Tables
      reads this
    {
      Tables(users, nextId, sessions, tombstones, loginGeneration, epoch)
    }

    constructor ()
      ensures View() == EMPTY
    {
      users, nextId, sessions, tombstones, loginGeneration, epoch := map[], 1, map[], {}, 0, 1;
    }

    /** Statement with the tombstone trigger. */
    method DeleteSessions(tokens: set<Token>)
      modifies this
      ensures View() == Deleted(old(View()), tokens)
    {
      tombstones := tombstones + (sessions.Keys * tokens);
      sessions := sessions - tokens;
    }

    method BumpLoginGeneration()
      modifies this
      ensures View() == LoginGenerationBumped(old(View()))
    {
      loginGeneration := loginGeneration + 1;
    }

    /** Inserts or refreshes a session; `false` reports that authentication changed meanwhile. */
    method Commit(token: Token, d: Data) returns (ok: bool)
      modifies this
      ensures View() == Committed(old(View()), token, d)
      ensures ok <==> d.guard.None? || Affects(old(View()), token, d)
    {
      var affected := 0;
      if Admits(View(), token, d) && token !in tombstones {
        affected := 1;
        if token in sessions {
          sessions := sessions[token := sessions[token].(data := d)];
        } else {
          var account := if d.identity.Some? then d.identity.value.account else 1;
          sessions := sessions[token := Row(account, d)];
        }
      }
      ok := d.guard.None? || affected != 0;
    }

    method UpdatePasswordHash(id: nat)
      modifies this
      ensures View() == PasswordStored(old(View()), id)
    {
      if id in users {
        BumpLoginGeneration();
        users := users[id := users[id].(loginGeneration := users[id].loginGeneration + 1)];
      }
    }

    method ClearSessions(id: nat, spared: set<Token>) returns (removed: nat)
      modifies this
      ensures View() == SessionsCleared(old(View()), id, spared)
      ensures removed == |OfAccount(old(View()), id) - spared| && removed == |old(sessions)| - |sessions|
    {
      ghost var before := View();
      ClearedCount(before, id, spared);
      hide OfAccount, Deleted;
      var doomed := OfAccount(View(), id) - spared;
      removed := |doomed|;
      BumpLoginGeneration();
      if id in users {
        users := users[id := users[id].(loginGeneration := users[id].loginGeneration + 1)];
      }
      DeleteSessions(doomed);
      assert View() == SessionsCleared(before, id, spared);
    }

    method RevokeSession(id: nat, token: Token) returns (found: bool)
      modifies this
      ensures found <==> token in OfAccount(old(View()), id)
      ensures View() == Deleted(old(View()), OfAccount(old(View()), id) * {token})
    {
      found := token in sessions && sessions[token].account == id;
      var doomed := OfAccount(View(), id) * {token};
      DeleteSessions(doomed);
    }

    method UpdateAccount(id: nat, role: Role, disabled: bool) returns (ok: bool)
      modifies this
      ensures id !in old(users) ==> !ok && View() == old(View())
      ensures id in old(users) ==> View() == RoleStored(old(View()), id, role, disabled)
      ensures id in old(users) ==> (ok <==> !LastAdminAborts(old(View()), id, role, disabled))
    {
      if id !in users || LastAdminAborts(View(), id, role, disabled) {
        return false;
      }
      var before := users[id];
      var doomed := OfAccount(View(), id);
      users := users[id := before.(role := role, disabled := disabled)];
      if before.role != role || before.disabled != disabled {
        users := users[id := users[id].(generation := before.generation + 1,
                                        loginGeneration := before.loginGeneration + 1)];
        DeleteSessions(doomed);
        BumpLoginGeneration();
      } else {
        assert users == old(users);
      }
      ok := true;
    }

    method InvalidateIdentity(id: nat)
      modifies this
      ensures View() == Invalidated(old(View()), id)
    {
      DeleteSessions(OfAccount(View(), id));
      BumpLoginGeneration();
    }

    /** Enrolls the pending factor once its first code has been accepted for time step `step`. */
    method ConfirmMfa(id: nat, step: int) returns (ok: bool)
      modifies this
      ensures View() == FactorConfirmed(old(View()), id, step)
      ensures ok <==> id in old(users) && !old(users)[id].disabled && old(users)[id].secret.None? && old(users)[id].pending.Some?
    {
      if id !in users || users[id].disabled || users[id].secret.Some? || users[id].pending.None? {
        return false;
      }
      users := users[id := users[id].(secret := users[id].pending)];
      users := users[id := users[id].(pending := None, lastStep := step)];
      users := users[id := users[id].(generation := users[id].generation + 1)];
      assert users == old(users)[id := users[id]];
      InvalidateIdentity(id);
      ok := true;
    }

    method DisableMfa(id: nat)
      modifies this
      ensures View() == FactorDisabled(old(View()), id)
    {
      if id in users {
        users := users[id := FactorCleared(users[id])];
      }
      InvalidateIdentity(id);
    }

    method ResetLocalFactors(id: nat, password: bool, factor: bool) returns (ok: bool)
      modifies this
      ensures View() == LocallyReset(old(View()), id, password, factor)
      ensures ok <==> id in old(users) && (password || factor)
    {
      ok := id in users && (password || factor);
      if !ok {
        return;
      }
      if password {
        UpdatePasswordHash(id);
      }
      if factor {
        users := users[id := FactorCleared(users[id])];
      }
      DeleteSessions(OfAccount(View(), id));
      if !password {
        BumpLoginGeneration();
      }
    }

    /** Clears an archived database of everything that could still sign someone in. */
    method ClearDatabaseSessions(step: int, epoch: nat)
      modifies this
      ensures View() == Readied(old(View()), step, epoch)
    {
      DeleteSessions(sessions.Keys);
      users := map id | id in users :: users[id].(
        pending := None, lastStep := if users[id].lastStep < step then step else users[id].lastStep,
        generation := users[id].generation + 1);
      this.epoch := epoch;
    }
  }

  /** The running installation: a restore puts a readied archive in the place of its database. */
  class Installation {
    var database: Store

    constructor (database: Store)
      ensures this.database == database
    {
      this.database := database;
    }

    method ReplaceDatabase(archived: Store, step: int, epoch: nat)
      modifies this, archived
      ensures database == archived && database.View() == Readied(old(archived.View()), step, epoch)
    {
      archived.ClearDatabaseSessions(step, epoch);
      database := archived;
    }
  }
}
