/**
  Second factors of one account: time-based codes that cannot be replayed (section 5.2 of
  RFC 6238), single-use recovery codes, single-use login challenges and the durable attempt limit.

  Times are whole seconds. The code computed for a secret and a time step is a parameter, as are
  random values; a fresh random value is one never handed out before.
 */
module Factors {
  import opened Common
  import opened Windows

  const STEP_SECONDS: int := 30
  const ATTEMPT_WINDOW: int := 600
  const MAX_ATTEMPTS: nat := 10

  /** The one-time password of a secret at a time step (section 5.3 of RFC 4226). */
  type Hotp = (string, int) -> string

  datatype Challenge = Challenge(generation: nat, loginGeneration: nat, expires: int)

  datatype Attempts = Attempts(count: nat, windowUntil: int)

  /** One account's row with its codes, attempts and challenges, and the installation's epoch. */
  datatype Account = Account(
    epoch: nat, enabled: bool, generation: nat, loginGeneration: nat, secret: Option<string>, pending: Option<string>,
    pendingUntil: int, lastStep: int, codes: set<string>, attempts: Option<Attempts>,
    challenges: map<string, Challenge>)

  datatype Verdict = RateLimited | Invalid | NoFactor | ByStep(step: int) | ByCode(code: string)

  predicate Accepted(v: Verdict) {
    v.NoFactor? || v.ByStep? || v.ByCode?
  }

  // ----- time steps

  predicate StepMatches(hotp: Hotp, secret: string, code: string, last: int, step: int) {
    step > last && step >= 0 && hotp(secret, step) == code
  }

  /** The step a code is good for: the earliest unused one within one step of now, or -1. */
  method TotpStep(hotp: Hotp, secret: string, code: string, at: nat, last: int) returns (step: int)
    ensures step == AcceptedStep(hotp, secret, code, at, last)
  {
    if |code| != 6 {
      return -1;
    }
    var delta := -1;
    while delta <= 1
      invariant -1 <= delta <= 2
      invariant forall s :: at / STEP_SECONDS - 1 <= s < at / STEP_SECONDS + delta ==> !StepMatches(hotp, secret, code, last, s)
    {
      var candidate := at / STEP_SECONDS + delta;
      if StepMatches(hotp, secret, code, last, candidate) {
        return candidate;
      }
      delta := delta + 1;
    }
    step := -1;
  }

  function AcceptedStep(hotp: Hotp, secret: string, code: string, at: nat, last: int): (step: int)
    ensures step >= 0 ==> StepMatches(hotp, secret, code, last, step) && -1 <= step - at / STEP_SECONDS <= 1
    ensures forall s :: at / STEP_SECONDS - 1 <= s <= at / STEP_SECONDS + 1 && StepMatches(hotp, secret, code, last, s) && |code| == 6
              ==> 0 <= step <= s
    ensures step >= 0 ==> |code| == 6
  {
    var now := at / STEP_SECONDS;
    if |code| != 6 then -1
    else if StepMatches(hotp, secret, code, last, now - 1) then now - 1
    else if StepMatches(hotp, secret, code, last, now) then now
    else if StepMatches(hotp, secret, code, last, now + 1) then now + 1
    else -1
  }

  // ----- transactions

  function CountAttempt(a: Account, now: int): Account {
    var before := a.attempts;
    a.(attempts := Some(
      if before.None? || before.value.windowUntil <= now then Attempts(1, now + ATTEMPT_WINDOW)
      else before.value.(count := before.value.count + 1)))
  }

  function Judge(a: Account, hotp: Hotp, code: string, now: nat): Verdict {
    if CountAttempt(a, now).attempts.value.count > MAX_ATTEMPTS then RateLimited
    else if !a.enabled then Invalid
    else if a.secret.None? then NoFactor
    else
      var trimmed := TrimSpace(code);
      var step := AcceptedStep(hotp, a.secret.value, trimmed, now, a.lastStep);
      if step >= 0 then ByStep(step) else if trimmed in a.codes then ByCode(trimmed) else Invalid
  }

  /** The code is the one-time password of an unused step within one of now. */
  ghost predicate CurrentCode(a: Account, hotp: Hotp, code: string, now: nat) {
    && a.secret.Some? && |code| == 6
    && exists step :: 0 <= step && now / 30 - 1 <= step <= now / 30 + 1 && step > a.lastStep && hotp(a.secret.value, step) == code
  }

  /** The account may be asked: this is one of the first ten attempts in its window, and it is enabled. */
  predicate MayBeAsked(a: Account, now: nat) {
    a.enabled && (a.attempts.None? || a.attempts.value.windowUntil <= now || a.attempts.value.count < 10)
  }

  /** What gets a caller past the second factor. */
  ghost predicate Passes(a: Account, hotp: Hotp, code: string, now: nat) {
    MayBeAsked(a, now) && (a.secret.None? || CurrentCode(a, hotp, TrimSpace(code), now) || TrimSpace(code) in a.codes)
  }

  /** Exactly which codes are accepted, and what each is used up as. */
  lemma AcceptedExactlyWhen(a: Account, hotp: Hotp, code: string, now: nat)
    ensures var v := Judge(a, hotp, code, now);
            && (Accepted(v) <==> Passes(a, hotp, code, now))
            && (v.NoFactor? <==> MayBeAsked(a, now) && a.secret.None?)
            && (v.ByStep? <==> MayBeAsked(a, now) && CurrentCode(a, hotp, TrimSpace(code), now))
            && (v.ByCode? <==> Passes(a, hotp, code, now) && a.secret.Some? && !CurrentCode(a, hotp, TrimSpace(code), now))
            && (v.ByCode? ==> v.code == TrimSpace(code))
            && (v.RateLimited? <==> a.attempts.Some? && a.attempts.value.windowUntil > now && a.attempts.value.count >= 10)
  {
    hide TrimSpace, AcceptedStep;
    if a.secret.Some? {
      StepAcceptedExactlyWhen(a, hotp, TrimSpace(code), now);
    }
  }

  lemma StepAcceptedExactlyWhen(a: Account, hotp: Hotp, code: string, now: nat)
    requires a.secret.Some?
    ensures AcceptedStep(hotp, a.secret.value, code, now, a.lastStep) >= 0 <==> CurrentCode(a, hotp, code, now)
  {
    if CurrentCode(a, hotp, code, now) {
      var s :| 0 <= s && now / 30 - 1 <= s <= now / 30 + 1 && s > a.lastStep && hotp(a.secret.value, s) == code;
      assert StepMatches(hotp, a.secret.value, code, a.lastStep, s);
    }
  }

  /** A factor check: counted first, then the code is used up if it is good. */
  function Consumed(a: Account, hotp: Hotp, code: string, now: nat): Account {
    var counted := CountAttempt(a, now);
    match Judge(a, hotp, code, now)
    case ByStep(step) => counted.(lastStep := step)
    case ByCode(c) => counted.(codes := counted.codes - {c})
    case _ => counted
  }

  predicate MayConfirm(a: Account, hotp: Hotp, code: string, now: nat) {
    a.enabled && a.secret.None? && a.pending.Some? && a.pendingUntil >= now
    && AcceptedStep(hotp, a.pending.value, code, now, -1) >= 0
  }

  function Confirmed(a: Account, hotp: Hotp, code: string, now: nat, codes: set<string>): Account {
    if !MayConfirm(a, hotp, code, now) then a
    else
      a.(secret := a.pending, pending := None, pendingUntil := 0,
         lastStep := AcceptedStep(hotp, a.pending.value, code, now, -1),
         generation := a.generation + 1, codes := codes, challenges := map[])
  }

  function Disabled(a: Account): Account {
    a.(secret := None, pending := None, pendingUntil := 0, lastStep := -1, generation := a.generation + 1,
       codes := {}, challenges := map[])
  }

  function Begun(a: Account, secret: string, now: int): Account {
    if !a.enabled || a.secret.Some? then a else a.(pending := Some(secret), pendingUntil := now + 600)
  }

  /** A challenge is stored only while the account and the installation are still what the login
      has read. */
  predicate MayIssue(a: Account, generation: nat, loginGeneration: nat, epoch: nat) {
    a.enabled && a.secret.Some? && a.generation == generation && a.loginGeneration == loginGeneration && a.epoch == epoch
  }

  function Issued(a: Account, hash: string, generation: nat, loginGeneration: nat, epoch: nat, now: int): Account {
    if !MayIssue(a, generation, loginGeneration, epoch) then a
    else
      var added := a.challenges[hash := Challenge(generation, loginGeneration, now + 300)];
      a.(challenges := map h | h in added && added[h].expires >= now :: added[h])
  }

  predicate Answerable(a: Account, hash: string, now: int) {
    hash in a.challenges && a.challenges[hash].expires > now
    && a.challenges[hash].generation == a.generation && a.challenges[hash].loginGeneration == a.loginGeneration
    && a.enabled && a.secret.Some?
  }

  /** The challenge was issued for the account as it is now, and has not expired. */
  predicate LiveChallenge(a: Account, hash: string, now: int) {
    && hash in a.challenges && now < a.challenges[hash].expires && a.enabled && a.secret.Some?
    && a.challenges[hash].generation == a.generation && a.challenges[hash].loginGeneration == a.loginGeneration
  }

  /** A challenge is issued exactly to a login that has read the account and the epoch as they are;
      it can be answered for five minutes, unless it is answered or the account moves on. */
  lemma IssuedChallengeIsLive(a: Account, hash: string, generation: nat, loginGeneration: nat, epoch: nat, now: int, later: int)
    requires hash !in a.challenges && now <= later
    ensures LiveChallenge(Issued(a, hash, generation, loginGeneration, epoch, now), hash, later) <==>
              a.enabled && a.secret.Some? && a.generation == generation && a.loginGeneration == loginGeneration && a.epoch == epoch && later < now + 300
    ensures forall h :: h != hash && now <= later ==>
              (LiveChallenge(Issued(a, hash, generation, loginGeneration, epoch, now), h, later) <==> LiveChallenge(a, h, later))
  {
  }

  /** A factor is enrolled exactly by a current code of the pending secret, within its ten minutes, on an
      enabled account that has none yet; every earlier code and challenge is then void. */
  lemma EnrolledExactlyWhen(a: Account, hotp: Hotp, code: string, now: nat, codes: set<string>)
    ensures var b := Confirmed(a, hotp, code, now, codes);
            if a.enabled && a.secret.None? && a.pending.Some? && now <= a.pendingUntil
               && CurrentCode(a.(secret := a.pending, lastStep := -1), hotp, code, now)
            then && b.secret == a.pending && b.pending.None? && b.codes == codes && b.challenges == map[]
                 && b.generation == a.generation + 1 && b.attempts == a.attempts && b.enabled
                 && hotp(a.pending.value, b.lastStep) == code && now / 30 - 1 <= b.lastStep <= now / 30 + 1 && b.lastStep >= 0
            else b == a
  {
    if a.pending.Some? {
      StepAcceptedExactlyWhen(a.(secret := a.pending, lastStep := -1), hotp, code, now);
    }
  }

  /** Starting an enrollment offers its secret for ten minutes and changes nothing that is enrolled. */
  lemma EnrollmentIsOffered(a: Account, secret: string, now: int)
    ensures var b := Begun(a, secret, now);
            if a.enabled && a.secret.None? then b == a.(pending := Some(secret), pendingUntil := now + 600) else b == a
  {
  }

  /** Without its factor an account has no codes, no challenges and nothing pending. */
  lemma DisabledFactorIsGone(a: Account, hotp: Hotp, code: string, now: nat, hash: string)
    ensures var b := Disabled(a);
            && b.secret.None? && b.pending.None? && b.codes == {} && b.lastStep == -1 && !LiveChallenge(b, hash, now)
            && b.generation == a.generation + 1 && b.enabled == a.enabled && b.attempts == a.attempts
            && (Passes(b, hotp, code, now) <==> MayBeAsked(a, now))
  {
  }

  /** Answering a challenge uses it up whether or not the code is right. */
  function Answered(a: Account, hotp: Hotp, hash: string, code: string, now: nat): Account {
    if !Answerable(a, hash, now) then a
    else Consumed(a.(challenges := a.challenges - {hash}), hotp, code, now)
  }

  /** What an archived account is when its database replaces the live one: codes and challenges are
      gone and every step up to the next is used. Its attempts come back as they were archived. */
  function Restored(archived: Account, now: nat, epoch: nat): Account {
    var floor := now / STEP_SECONDS + 1;
    archived.(epoch := epoch, pending := None, pendingUntil := 0,
      lastStep := if archived.lastStep < floor then floor else archived.lastStep,
      generation := archived.generation + 1, codes := {}, challenges := map[])
  }

  /** A restored account keeps its factor, but no code that is current at the restore passes it, no recovery
      code and no challenge comes back, and it belongs to the new epoch. */
  lemma RestoredFactorIsFenced(archived: Account, hotp: Hotp, code: string, now: nat, epoch: nat, hash: string)
    ensures var b := Restored(archived, now, epoch);
            && b.secret == archived.secret && b.enabled == archived.enabled && b.attempts == archived.attempts && b.epoch == epoch
            && b.generation == archived.generation + 1 && b.pending.None? && !LiveChallenge(b, hash, now)
            && (Passes(b, hotp, code, now) ==> archived.secret.None?)
  {
    hide TrimSpace;
  }

  class Store {
    var row: Account

    constructor (a: Account)
      ensures row == a
    {
      row := a;
    }

    method ConsumeFactor(hotp: Hotp, code: string, now: nat) returns (v: Verdict)
      modifies this
      ensures row == Consumed(old(row), hotp, code, now) && v == Judge(old(row), hotp, code, now)
      ensures Accepted(v) <==> Passes(old(row), hotp, code, now)
    {
      AcceptedExactlyWhen(row, hotp, code, now);
      hide Passes, Accepted, TrimSpace;
      if row.attempts.None? || row.attempts.value.windowUntil <= now {
        row := row.(attempts := Some(Attempts(1, now + ATTEMPT_WINDOW)));
      } else {
        row := row.(attempts := Some(row.attempts.value.(count := row.attempts.value.count + 1)));
      }
      if row.attempts.value.count > MAX_ATTEMPTS {
        return RateLimited;
      }
      if !row.enabled {
        return Invalid;
      }
      if row.secret.None? {
        return NoFactor;
      }
      var trimmed := TrimSpace(code);
      var step := TotpStep(hotp, row.secret.value, trimmed, now, row.lastStep);
      if step >= 0 {
        row := row.(lastStep := step);
        return ByStep(step);
      }
      if trimmed !in row.codes {
        return Invalid;
      }
      row := row.(codes := row.codes - {trimmed});
      v := ByCode(trimmed);
    }

    method ConfirmMfa(hotp: Hotp, code: string, now: nat, codes: set<string>) returns (ok: bool)
      modifies this
      ensures row == Confirmed(old(row), hotp, code, now, codes) && ok == MayConfirm(old(row), hotp, code, now)
    {
      if !row.enabled || row.secret.Some? || row.pending.None? || row.pendingUntil < now {
        return false;
      }
      var step := TotpStep(hotp, row.pending.value, code, now, -1);
      if step < 0 {
        return false;
      }
      row := row.(secret := row.pending);
      row := row.(pending := None, pendingUntil := 0, lastStep := step, generation := row.generation + 1);
      row := row.(codes := codes);
      row := row.(challenges := map[]);
      ok := true;
    }

    method NewLoginChallenge(hash: string, generation: nat, loginGeneration: nat, epoch: nat, now: int) returns (ok: bool)
      modifies this
      ensures row == Issued(old(row), hash, generation, loginGeneration, epoch, now)
      ensures ok == MayIssue(old(row), generation, loginGeneration, epoch)
    {
      ok := row.enabled && row.secret.Some? && row.generation == generation && row.loginGeneration == loginGeneration
            && row.epoch == epoch;
      if ok {
        var added := row.challenges[hash := Challenge(row.generation, row.loginGeneration, now + 300)];
        row := row.(challenges := map h | h in added && added[h].expires >= now :: added[h]);
      }
    }

    method CompleteLoginChallenge(hotp: Hotp, hash: string, code: string, now: nat) returns (v: Verdict)
      modifies this
      ensures row == Answered(old(row), hotp, hash, code, now)
      ensures v == if Answerable(old(row), hash, now) then Judge(old(row), hotp, code, now) else Invalid
      ensures Accepted(v) <==> LiveChallenge(old(row), hash, now) && Passes(old(row), hotp, code, now)
    {
      AcceptedExactlyWhen(row, hotp, code, now);
      if !Answerable(row, hash, now) {
        return Invalid;
      }
      row := row.(challenges := row.challenges - {hash});
      v := ConsumeFactor(hotp, code, now);
    }

    /** The statements that ready an archived account for service. */
    method ClearArchived(now: nat, epoch: nat)
      modifies this
      ensures row == Restored(old(row), now, epoch)
    {
      row := row.(challenges := map[], codes := {});
      var floor := now / STEP_SECONDS + 1;
      row := row.(pending := None, pendingUntil := 0, lastStep := if row.lastStep < floor then floor else row.lastStep,
                  generation := row.generation + 1);
      row := row.(epoch := epoch);
    }
  }
}
