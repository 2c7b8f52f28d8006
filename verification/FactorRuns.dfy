/**
  Replay protection over every run of one account's second-factor operations, restores included.
 */
module FactorRuns {
  import opened Common
  import opened Windows
  import opened Factors
  import opened Tallies

  datatype Op =
    | Begin(secret: string, now: nat)
    | Confirm(code: string, now: nat, codes: set<string>)
    | Disable(now: nat)
    | Check(code: string, now: nat)
    | Issue(hash: string, generation: nat, loginGeneration: nat, epoch: nat, now: nat)
    | Answer(hash: string, code: string, now: nat)
    | Revise(enabled: bool, moves: bool, now: nat)
    | Restore(archived: Account, epoch: nat, now: nat)

  /** A time step accepted for a secret. */
  datatype Use = Use(secret: string, step: int)

  /** The account together with what has happened to it: the time steps accepted, per secret, the
      recovery codes accepted, the challenges answered, the checks that reached verification, and the
      random values handed out. */
  datatype World = World(
    row: Account, uses: seq<Use>, accepted: seq<string>, answered: seq<string>, tally: Tally,
    usedSecrets: set<string>, usedCodes: set<string>, usedHashes: set<string>, usedEpochs: set<nat>)

  function Opening(enabled: bool): World {
    World(Account(0, enabled, 0, 0, None, None, 0, -1, {}, None, map[]), [], [], [], BLANK, {}, {}, {}, {0})
  }

  function Logged(t: Tally, row: Account, v: Verdict, now: nat): Tally {
    if v.RateLimited? || row.attempts.None? then t
    else t.(log := t.log + [Entry(now, row.attempts.value.windowUntil - ATTEMPT_WINDOW)])
  }

  /** A verdict reached at `now` on a row that then became `row`. */
  function Noted(w: World, row: Account, v: Verdict, now: nat): World {
    w.(row := row,
       uses := if v.ByStep? && row.secret.Some? then w.uses + [Use(row.secret.value, v.step)] else w.uses,
       accepted := if v.ByCode? then w.accepted + [v.code] else w.accepted,
       tally := Logged(w.tally, row, v, now))
  }

  // ----- restores

  /** The archive is of the past, and the epoch drawn for it is new. */
  predicate MayRestore(w: World, archived: Account, epoch: nat, now: nat) {
    epoch !in w.usedEpochs && (archived.attempts.Some? ==> archived.attempts.value.windowUntil <= now + ATTEMPT_WINDOW)
  }

  function RestoreRow(w: World, archived: Account, epoch: nat, now: nat): World {
    if !MayRestore(w, archived, epoch, now) then w
    else
      w.(row := Restored(archived, now, epoch), usedEpochs := w.usedEpochs + {epoch},
         usedSecrets := w.usedSecrets + if archived.secret.Some? then {archived.secret.value} else {},
         tally := AfterRestore(w.tally, archived.attempts, now))
  }

  function Next(w: World, hotp: Hotp, op: Op): World {
    match op
    case Begin(secret, now) =>
      if secret in w.usedSecrets then w
      else w.(row := Begun(w.row, secret, now), usedSecrets := w.usedSecrets + {secret})
    case Confirm(code, now, codes) =>
      if !MayConfirm(w.row, hotp, code, now) || !(codes !! w.usedCodes) then w
      else
        var row := Confirmed(w.row, hotp, code, now, codes);
        w.(row := row, uses := w.uses + [Use(w.row.pending.value, row.lastStep)], usedCodes := w.usedCodes + codes)
    case Disable(_) => w.(row := Disabled(w.row))
    case Check(code, now) => Noted(w, Consumed(w.row, hotp, code, now), Judge(w.row, hotp, code, now), now)
    case Issue(hash, generation, loginGeneration, epoch, now) =>
      if hash in w.usedHashes then w
      else w.(row := Issued(w.row, hash, generation, loginGeneration, epoch, now), usedHashes := w.usedHashes + {hash})
    case Answer(hash, code, now) =>
      if !Answerable(w.row, hash, now) then w
      else
        Noted(w.(answered := w.answered + [hash]), Answered(w.row, hotp, hash, code, now),
              Judge(w.row, hotp, code, now), now)
    case Revise(enabled, moves, _) =>
      w.(row := w.row.(enabled := enabled, generation := w.row.generation + if moves then 1 else 0,
                       loginGeneration := w.row.loginGeneration + 1))
    case Restore(archived, epoch, now) => RestoreRow(w, archived, epoch, now)
  }

  function Run(w: World, hotp: Hotp, ops: seq<Op>): World
    decreases |ops|
  {
    if ops == [] then w else Run(Next(w, hotp, ops[0]), hotp, ops[1..])
  }

  ghost predicate Chronological(ops: seq<Op>) {
    forall i, j :: 0 <= i < j < |ops| ==> ops[i].now <= ops[j].now
  }

  // ----- the invariant, one clause per promise

  /** For each secret, accepted time steps strictly increase. */
  ghost predicate Increasing(uses: seq<Use>) {
    forall i, j :: 0 <= i < j < |uses| && uses[i].secret == uses[j].secret ==> uses[i].step < uses[j].step
  }

  ghost predicate NoRepeats(s: seq<string>) {
    forall i, j :: 0 <= i < j < |s| ==> s[i] != s[j]
  }

  /** Steps used lie at most one past the clock; none of the current secret past the last one
      recorded; none at all of a pending secret. */
  ghost predicate StepsSound(w: World, clock: nat) {
    && Increasing(w.uses)
    && (forall i :: 0 <= i < |w.uses| ==> w.uses[i].step <= clock / STEP_SECONDS + 1 && w.uses[i].secret in w.usedSecrets)
    && (w.row.secret.Some? ==> forall i :: 0 <= i < |w.uses| && w.uses[i].secret == w.row.secret.value ==> w.uses[i].step <= w.row.lastStep)
    && (w.row.secret.Some? ==> w.row.secret.value in w.usedSecrets && w.row.pending.None?)
    && (w.row.pending.Some? ==> w.row.pending.value in w.usedSecrets)
    && (w.row.pending.Some? ==> forall i :: 0 <= i < |w.uses| ==> w.uses[i].secret != w.row.pending.value)
  }

  ghost predicate CodesSound(w: World) {
    && NoRepeats(w.accepted) && w.row.codes <= w.usedCodes
    && (forall i :: 0 <= i < |w.accepted| ==> w.accepted[i] in w.usedCodes && w.accepted[i] !in w.row.codes)
  }

  ghost predicate ChallengesSound(w: World) {
    && NoRepeats(w.answered) && w.row.challenges.Keys <= w.usedHashes
    && (forall i :: 0 <= i < |w.answered| ==> w.answered[i] in w.usedHashes && w.answered[i] !in w.row.challenges)
  }

  ghost predicate Sound(w: World, clock: nat) {
    StepsSound(w, clock) && CodesSound(w) && ChallengesSound(w) && TallySound(w.tally, w.row.attempts, clock)
  }

  // ----- the attempt counter

  /** A check leaves the attempt counter as counting alone would. */
  lemma CheckCounts(w: World, hotp: Hotp, op: Op)
    requires op.Check? || (op.Answer? && Answerable(w.row, op.hash, op.now))
    ensures var v, a := Next(w, hotp, op), CountAttempt(w.row, op.now).attempts;
            v.row.attempts == a && v.tally == w.tally.(log := Grown(w.tally.log, a.value, op.now))
  {
    hide AcceptedStep, TrimSpace;
  }

  lemma OtherOpsCountNothing(w: World, hotp: Hotp, op: Op)
    requires !op.Check? && !(op.Answer? && Answerable(w.row, op.hash, op.now)) && !op.Restore?
    ensures var v := Next(w, hotp, op); v.row.attempts == w.row.attempts && v.tally == w.tally
  {
    hide AcceptedStep;
  }

  lemma RestoreIsNext(w: World, hotp: Hotp, op: Op)
    requires op.Restore?
    ensures Next(w, hotp, op) == RestoreRow(w, op.archived, op.epoch, op.now)
  {
  }

  lemma TallyKept(w: World, hotp: Hotp, op: Op, clock: nat)
    requires TallySound(w.tally, w.row.attempts, clock) && clock <= op.now
    ensures var v := Next(w, hotp, op); TallySound(v.tally, v.row.attempts, op.now)
  {
    hide TallySound, Next, Answerable;
    LaterTally(w.tally, w.row.attempts, clock, op.now);
    if op.Check? || (op.Answer? && Answerable(w.row, op.hash, op.now)) {
      CountingKeepsTally(w.tally, w.row, op.now, clock);
      CheckCounts(w, hotp, op);
    } else if op.Restore? {
      RestoreIsNext(w, hotp, op);
      if MayRestore(w, op.archived, op.epoch, op.now) {
        RestoringKeepsTally(w.tally, w.row.attempts, op.archived.attempts, op.now);
      }
    } else {
      OtherOpsCountNothing(w, hotp, op);
    }
  }

  // ----- steps, codes, challenges

  /** One more accepted step, past every one of its secret. */
  lemma UseKeeps(w: World, clock: nat, u: Use, v: World, now: nat)
    requires StepsSound(w, clock) && clock <= now && u.secret in w.usedSecrets && u.step <= now / STEP_SECONDS + 1
    requires forall i :: 0 <= i < |w.uses| && w.uses[i].secret == u.secret ==> w.uses[i].step < u.step
    requires v.uses == w.uses + [u] && v.usedSecrets == w.usedSecrets && v.row.pending.None?
    requires v.row.secret == Some(u.secret) && v.row.lastStep == u.step
    ensures StepsSound(v, now)
  {
    assert clock / STEP_SECONDS <= now / STEP_SECONDS;
  }

  /** Nothing accepted: the clock moves on, and the row may change in harmless ways. */
  lemma NoUseKeeps(w: World, clock: nat, v: World, now: nat)
    requires StepsSound(w, clock) && clock <= now && v.uses == w.uses && w.usedSecrets <= v.usedSecrets
    requires v.row.secret.Some? ==> (v.row.secret == w.row.secret && v.row.lastStep == w.row.lastStep) || v.row.lastStep >= now / STEP_SECONDS + 1
    requires v.row.pending.Some? ==> v.row.pending == w.row.pending || (v.row.pending.value !in w.usedSecrets && v.row.pending.value in v.usedSecrets)
    requires v.row.secret.Some? ==> v.row.secret.value in v.usedSecrets && v.row.pending.None?
    ensures StepsSound(v, now)
  {
    assert clock / STEP_SECONDS <= now / STEP_SECONDS;
  }

  lemma CheckUses(w: World, hotp: Hotp, op: Op)
    requires op.Check? || (op.Answer? && Answerable(w.row, op.hash, op.now))
    ensures var v, j := Next(w, hotp, op), Judge(w.row, hotp, op.code, op.now);
            && v.row.secret == w.row.secret && v.row.pending == w.row.pending && v.usedSecrets == w.usedSecrets
            && (!j.ByStep? ==> v.uses == w.uses && v.row.lastStep == w.row.lastStep)
            && (j.ByStep? ==> w.row.secret.Some? && v.uses == w.uses + [Use(w.row.secret.value, j.step)] && v.row.lastStep == j.step
                              && j.step > w.row.lastStep && j.step <= op.now / STEP_SECONDS + 1)
  {
    hide Answerable, TrimSpace;
  }

  /** Replays are impossible: a step once accepted for a secret is never accepted for it again, even
      when a restore brings an older row back, because the restored row starts past the clock. */
  lemma StepsKept(w: World, hotp: Hotp, op: Op, clock: nat)
    requires StepsSound(w, clock) && clock <= op.now
    ensures StepsSound(Next(w, hotp, op), op.now)
  {
    var v := Next(w, hotp, op);
    if op.Check? || (op.Answer? && Answerable(w.row, op.hash, op.now)) {
      var j := Judge(w.row, hotp, op.code, op.now);
      CheckUses(w, hotp, op);
      hide Next, Judge, Answerable;
      if j.ByStep? {
        UseKeeps(w, clock, Use(w.row.secret.value, j.step), v, op.now);
      } else {
        NoUseKeeps(w, clock, v, op.now);
      }
    } else if op.Confirm? && v != w {
      UseKeeps(w, clock, Use(w.row.pending.value, v.row.lastStep), v, op.now);
    } else {
      hide Answerable, TrimSpace, Judge, AcceptedStep;
      NoUseKeeps(w, clock, v, op.now);
    }
  }

  lemma CodesKept(w: World, hotp: Hotp, op: Op)
    requires CodesSound(w)
    ensures CodesSound(Next(w, hotp, op))
  {
    hide Answerable, AcceptedStep, TrimSpace;
  }

  /** A factor check itself leaves the challenges alone. */
  lemma SameChallenges(a: Account, hotp: Hotp, op: Op)
    ensures op.Check? ==> Consumed(a, hotp, op.code, op.now).challenges == a.challenges
    ensures op.Answer? ==>
      Consumed(a.(challenges := a.challenges - {op.hash}), hotp, op.code, op.now).challenges == a.challenges - {op.hash}
  {
  }

  lemma ChallengesKept(w: World, hotp: Hotp, op: Op)
    requires ChallengesSound(w)
    ensures ChallengesSound(Next(w, hotp, op))
  {
    hide Judge, CountAttempt, AcceptedStep;
    SameChallenges(w.row, hotp, op);
  }

  lemma {:induction false} RunKeeps(w: World, hotp: Hotp, ops: seq<Op>, clock: nat)
    requires Sound(w, clock) && Chronological(ops) && (ops != [] ==> clock <= ops[0].now)
    ensures Sound(Run(w, hotp, ops), if ops == [] then clock else ops[|ops| - 1].now)
    decreases |ops|
  {
    hide StepsSound, CodesSound, ChallengesSound, TallySound, Next;
    if ops != [] {
      StepsKept(w, hotp, ops[0], clock);
      CodesKept(w, hotp, ops[0]);
      ChallengesKept(w, hotp, ops[0]);
      TallyKept(w, hotp, ops[0], clock);
      RunKeeps(Next(w, hotp, ops[0]), hotp, ops[1..], ops[0].now);
    }
  }

  /** Over any run, restores of any archived rows included: for each secret the accepted time steps
      strictly increase, the enrollment code's included; no recovery code and no challenge is
      accepted twice; and since the last restore at most twenty checks reach verification in any ten
      minutes. */
  lemma FactorsAreNeverReplayed(hotp: Hotp, enabled: bool, ops: seq<Op>)
    requires Chronological(ops)
    ensures var w := Run(Opening(enabled), hotp, ops);
            Increasing(w.uses) && NoRepeats(w.accepted) && NoRepeats(w.answered) && Limited(Since(w.tally))
  {
    OpeningIsSound(enabled);
    RunKeeps(Opening(enabled), hotp, ops, 0);
    hide Run;
    SinceIsLimited(Run(Opening(enabled), hotp, ops).tally, Run(Opening(enabled), hotp, ops).row.attempts,
                   if ops == [] then 0 else ops[|ops| - 1].now);
  }

  lemma OpeningIsSound(enabled: bool)
    ensures Sound(Opening(enabled), 0)
  {
  }

  /** What a check records and uses up: a step exactly for a current code, a recovery code exactly for one
      that the account has and that is no current code; otherwise only the counter moves. */
  lemma CheckRecordsExactly(w: World, hotp: Hotp, op: Op)
    requires op.Check? || (op.Answer? && LiveChallenge(w.row, op.hash, op.now))
    ensures var v, code := Next(w, hotp, op), TrimSpace(op.code);
            var asked := MayBeAsked(w.row, op.now) && w.row.secret.Some?;
            var current := CurrentCode(w.row, hotp, code, op.now);
            && (v.uses != w.uses <==> asked && current) && (v.row.lastStep != w.row.lastStep <==> asked && current)
            && v.accepted == (if asked && !current && code in w.row.codes then w.accepted + [code] else w.accepted)
            && v.row.codes == (if asked && !current then w.row.codes - {code} else w.row.codes)
            && v.row == w.row.(attempts := v.row.attempts, lastStep := v.row.lastStep, codes := v.row.codes,
                               challenges := if op.Answer? then w.row.challenges - {op.hash} else w.row.challenges)
  {
    AcceptedExactlyWhen(w.row, hotp, op.code, op.now);
    hide CurrentCode, TrimSpace, Passes;
    if op.Answer? {
      AnsweredVerdict(w.row, hotp, op.hash, op.code, op.now);
    }
    if Judge(w.row, hotp, op.code, op.now).ByCode? {
      assert w.accepted + [TrimSpace(op.code)] != w.accepted;
    }
  }

  /** Using a challenge up does not change the verdict. */
  lemma AnsweredVerdict(a: Account, hotp: Hotp, hash: string, code: string, now: nat)
    ensures Judge(a.(challenges := a.challenges - {hash}), hotp, code, now) == Judge(a, hotp, code, now)
  {
    hide TrimSpace, AcceptedStep;
  }

  // ----- restores and the attempt limit

  /** Every restore in the run brings a counter that keeps the limit. */
  predicate LimitAlwaysKept(w: World, hotp: Hotp, ops: seq<Op>)
    decreases |ops|
  {
    ops == [] ||
    ((ops[0].Restore? && MayRestore(w, ops[0].archived, ops[0].epoch, ops[0].now) ==>
        LimitKept(All(w.tally), ops[0].archived.attempts, ops[0].now))
     && LimitAlwaysKept(Next(w, hotp, ops[0]), hotp, ops[1..]))
  }

  /** The checks before the last restore are within the limit and covered by what it restored. */
  ghost predicate Covered(t: Tally) {
    Limited(t.before) && CreditCovers(t)
  }

  lemma CoverKept(w: World, hotp: Hotp, op: Op, clock: nat)
    requires TallySound(w.tally, w.row.attempts, clock) && clock <= op.now && Covered(w.tally)
    requires op.Restore? && MayRestore(w, op.archived, op.epoch, op.now) ==> LimitKept(All(w.tally), op.archived.attempts, op.now)
    ensures Covered(Next(w, hotp, op).tally)
  {
    hide TallySound, Next, Answerable;
    if op.Check? || (op.Answer? && Answerable(w.row, op.hash, op.now)) {
      CheckCounts(w, hotp, op);
    } else if op.Restore? {
      RestoreIsNext(w, hotp, op);
      CoveredIsLimited(w.tally, w.row.attempts, clock);
    } else {
      OtherOpsCountNothing(w, hotp, op);
    }
  }

  lemma {:induction false} CoveredRunIsLimited(w: World, hotp: Hotp, ops: seq<Op>, clock: nat)
    requires TallySound(w.tally, w.row.attempts, clock) && Covered(w.tally) && LimitAlwaysKept(w, hotp, ops)
    requires Chronological(ops) && (ops != [] ==> clock <= ops[0].now)
    ensures Limited(All(Run(w, hotp, ops).tally))
    decreases |ops|
  {
    hide TallySound, Next, LimitKept, Limited;
    if ops == [] {
      CoveredIsLimited(w.tally, w.row.attempts, clock);
    } else {
      TallyKept(w, hotp, ops[0], clock);
      CoverKept(w, hotp, ops[0], clock);
      CoveredRunIsLimited(Next(w, hotp, ops[0]), hotp, ops[1..], ops[0].now);
    }
  }

  /** If every restore keeps the limit, at most twenty checks reach verification in any ten minutes of
      the whole run. */
  lemma ChecksAreLimited(hotp: Hotp, enabled: bool, ops: seq<Op>)
    requires Chronological(ops) && LimitAlwaysKept(Opening(enabled), hotp, ops)
    ensures Limited(All(Run(Opening(enabled), hotp, ops).tally))
  {
    OpeningIsSound(enabled);
    hide Run, LimitAlwaysKept;
    CoveredRunIsLimited(Opening(enabled), hotp, ops, 0);
  }

  /** Counting anew: the checks before the last restore are set aside. */
  function Afresh(w: World): World {
    w.(tally := w.tally.(before := []))
  }

  /** The same but for checks set aside. */
  predicate SameBut(w: World, v: World, aside: seq<Entry>) {
    w == v.(tally := v.tally.(before := aside + v.tally.before))
  }

  lemma SameButKept(w: World, v: World, aside: seq<Entry>, hotp: Hotp, op: Op)
    requires SameBut(w, v, aside)
    ensures SameBut(Next(w, hotp, op), Next(v, hotp, op), aside)
  {
    hide AcceptedStep, TrimSpace, Judge;
    if op.Restore? {
      RestoreIsNext(w, hotp, op);
      RestoreIsNext(v, hotp, op);
      hide Next;
      assert All(w.tally) == aside + All(v.tally);
    }
  }

  lemma {:induction false} SameButAlong(w: World, v: World, aside: seq<Entry>, hotp: Hotp, ops: seq<Op>)
    requires SameBut(w, v, aside)
    ensures SameBut(Run(w, hotp, ops), Run(v, hotp, ops), aside)
    decreases |ops|
  {
    hide Next, SameBut;
    if ops != [] {
      SameButKept(w, v, aside, hotp, ops[0]);
      SameButAlong(Next(w, hotp, ops[0]), Next(v, hotp, ops[0]), aside, hotp, ops[1..]);
    }
  }

  lemma PartsAreChronological(past: seq<Op>, ops: seq<Op>)
    requires Chronological(past + ops)
    ensures Chronological(past) && Chronological(ops)
    ensures past != [] && ops != [] ==> past[|past| - 1].now <= ops[0].now
  {
    var all := past + ops;
    assert forall i :: 0 <= i < |past| ==> all[i] == past[i];
    assert forall i :: 0 <= i < |ops| ==> all[|past| + i] == ops[i];
  }

  lemma AfreshIsCovered(w: World, clock: nat)
    requires TallySound(w.tally, w.row.attempts, clock)
    ensures var v := Afresh(w); TallySound(v.tally, v.row.attempts, clock) && Covered(v.tally) && SameBut(w, v, w.tally.before)
  {
    hide ChecksSound, Shaped;
    assert w.tally.before + [] == w.tally.before;
    assert Shaped(Afresh(w).tally, w.row.attempts, clock) by {
      ShapeOfLog(w.tally, w.row.attempts, clock);
    }
  }

  lemma ShapeOfLog(t: Tally, a: Option<Attempts>, clock: nat)
    ensures Shaped(t, a, clock) == Shaped(t.(before := []), a, clock)
  {
  }

  lemma SetAside(w: World, v: World, aside: seq<Entry>)
    requires SameBut(w, v, aside)
    ensures aside <= All(w.tally) && All(w.tally)[|aside|..] == All(v.tally)
  {
    assert All(w.tally) == aside + All(v.tally);
  }

  /** From any restore on, whatever was lost before it: the checks since then are limited as long as
      every later restore keeps the limit among them. */
  lemma ChecksSinceAreLimited(hotp: Hotp, enabled: bool, past: seq<Op>, ops: seq<Op>)
    requires Chronological(past + ops) && LimitAlwaysKept(Afresh(Run(Opening(enabled), hotp, past)), hotp, ops)
    ensures var aside, all := Run(Opening(enabled), hotp, past).tally.before, All(Run(Opening(enabled), hotp, past + ops).tally);
            aside <= all && Limited(all[|aside|..])
  {
    var opening := Opening(enabled);
    OpeningIsSound(enabled);
    hide Opening, Run, LimitAlwaysKept, TallySound, Covered, Limited, Afresh, SameBut, All, Chronological, StepsSound, CodesSound, ChallengesSound;
    PartsAreChronological(past, ops);
    RunKeeps(opening, hotp, past, 0);
    RunAppend(opening, hotp, past, ops);
    var w, clock := Run(opening, hotp, past), if past == [] then 0 else past[|past| - 1].now;
    AfreshIsCovered(w, clock);
    SameButAlong(w, Afresh(w), w.tally.before, hotp, ops);
    CoveredRunIsLimited(Afresh(w), hotp, ops, clock);
    SetAside(Run(w, hotp, ops), Run(Afresh(w), hotp, ops), w.tally.before);
  }

  predicate RestoreFree(ops: seq<Op>) {
    forall i :: 0 <= i < |ops| ==> !ops[i].Restore?
  }

  /** However the run goes on without another restore, the limit holds. */
  ghost predicate StaysLimited(w: World, hotp: Hotp, now: nat) {
    forall ops: seq<Op> :: Chronological(ops) && RestoreFree(ops) && (ops != [] ==> now <= ops[0].now) ==>
      Limited(All(Run(w, hotp, ops).tally))
  }

  lemma {:induction false} RestoreFreeKeepsLimit(w: World, hotp: Hotp, ops: seq<Op>)
    requires RestoreFree(ops)
    ensures LimitAlwaysKept(w, hotp, ops)
    decreases |ops|
  {
    hide Next;
    if ops != [] {
      RestoreFreeKeepsLimit(Next(w, hotp, ops[0]), hotp, ops[1..]);
    }
  }

  function Checks(code: string, now: nat, n: nat): seq<Op> {
    if n == 0 then [] else [Check(code, now)] + Checks(code, now, n - 1)
  }

  lemma {:induction false} ChecksShape(code: string, now: nat, n: nat)
    ensures |Checks(code, now, n)| == n && forall i :: 0 <= i < n ==> Checks(code, now, n)[i] == Check(code, now)
  {
    if n > 0 {
      ChecksShape(code, now, n - 1);
    }
  }

  /** The counter stands at `count` in the window that ends at `until`, or the next check opens it. */
  predicate StandsAt(a: Option<Attempts>, count: nat, until: int, now: nat) {
    (count == 0 && WindowOver(a, now) && until == now + ATTEMPT_WINDOW) || a == Some(Attempts(count, until))
  }

  /** `b` is `a` with `n` checks at one instant after it. */
  ghost predicate Adds(a: seq<Entry>, b: seq<Entry>, n: nat, at: nat) {
    && |b| == |a| + n && (forall i :: 0 <= i < |a| ==> b[i] == a[i])
    && (forall i :: |a| <= i < |b| ==> b[i].at == at)
  }

  /** One more check within the limit. */
  lemma CheckOne(w: World, hotp: Hotp, code: string, now: nat, count: nat, until: int)
    requires count < MAX_ATTEMPTS && until > now && w.tally.credit <= |w.tally.log|
    requires StandsAt(w.row.attempts, count, until, now)
    ensures var v := Next(w, hotp, Check(code, now));
            && v.tally.credit <= |v.tally.log| && v.row.attempts == Some(Attempts(count + 1, until))
            && Adds(All(w.tally), All(v.tally), 1, now) && v.usedEpochs == w.usedEpochs
  {
    CheckCounts(w, hotp, Check(code, now));
    hide AcceptedStep, TrimSpace;
  }

  lemma AddsMore(a: seq<Entry>, b: seq<Entry>, c: seq<Entry>, n: nat, at: nat)
    requires Adds(a, b, 1, at) && Adds(b, c, n, at)
    ensures Adds(a, c, n + 1, at)
  {
    assert forall i :: 0 <= i < |a| ==> c[i] == b[i];
  }

  lemma RunChecks(w: World, hotp: Hotp, code: string, now: nat, n: nat)
    requires n > 0
    ensures Run(w, hotp, Checks(code, now, n)) == Run(Next(w, hotp, Check(code, now)), hotp, Checks(code, now, n - 1))
  {
    hide Next;
    assert Checks(code, now, n)[1..] == Checks(code, now, n - 1);
  }

  lemma RunNoChecks(w: World, hotp: Hotp, code: string, now: nat)
    ensures Run(w, hotp, Checks(code, now, 0)) == w && Adds(All(w.tally), All(w.tally), 0, now)
  {
  }

  lemma StandsNext(count: nat, until: int, now: nat)
    ensures StandsAt(Some(Attempts(count, until)), count, until, now)
  {
  }

  /** So many checks at one instant, all within the limit. */
  lemma {:induction false} CheckMany(w: World, hotp: Hotp, code: string, now: nat, n: nat, count: nat, until: int)
    requires count + n <= MAX_ATTEMPTS && until > now && w.tally.credit <= |w.tally.log|
    requires n > 0 ==> StandsAt(w.row.attempts, count, until, now)
    ensures var v := Run(w, hotp, Checks(code, now, n));
            && v.tally.credit <= |v.tally.log| && Adds(All(w.tally), All(v.tally), n, now) && v.usedEpochs == w.usedEpochs
            && v.row.attempts == if n == 0 then w.row.attempts else Some(Attempts(count + n, until))
    decreases n
  {
    hide Run, Checks, Next, All, Adds, StandsAt;
    if n == 0 {
      RunNoChecks(w, hotp, code, now);
    } else {
      RunChecks(w, hotp, code, now, n);
      CheckOne(w, hotp, code, now, count, until);
      StandsNext(count + 1, until, now);
      var v := Next(w, hotp, Check(code, now));
      CheckMany(v, hotp, code, now, n - 1, count + 1, until);
      AddsMore(All(w.tally), All(v.tally), All(Run(v, hotp, Checks(code, now, n - 1)).tally), n - 1, now);
    }
  }

  lemma {:induction false} RunAppend(w: World, hotp: Hotp, a: seq<Op>, b: seq<Op>)
    ensures Run(w, hotp, a + b) == Run(Run(w, hotp, a), hotp, b)
    decreases |a|
  {
    hide Next;
    if a == [] {
      assert a + b == b;
    } else {
      assert (a + b)[1..] == a[1..] + b;
      RunAppend(Next(w, hotp, a[0]), hotp, a[1..], b);
    }
  }

  /** What is left of the restored window at once, then a full window as soon as it is over. */
  function Burst(a: Option<Attempts>, code: string, now: nat): seq<Op>
    requires Origin(a, now) + ATTEMPT_WINDOW >= now
  {
    Checks(code, now, MAX_ATTEMPTS - Credit(a, now)) + Checks(code, Origin(a, now) + ATTEMPT_WINDOW, MAX_ATTEMPTS)
  }

  lemma BurstIsARun(a: Option<Attempts>, code: string, now: nat)
    requires Origin(a, now) + ATTEMPT_WINDOW >= now
    ensures var ops := Burst(a, code, now); Chronological(ops) && RestoreFree(ops) && (ops != [] ==> now <= ops[0].now)
  {
    ChecksShape(code, now, MAX_ATTEMPTS - Credit(a, now));
    ChecksShape(code, Origin(a, now) + ATTEMPT_WINDOW, MAX_ATTEMPTS);
    hide Checks, Credit, Origin;
  }

  lemma RoomLeft(a: Option<Attempts>, now: nat)
    requires a.Some? ==> a.value.windowUntil <= now + ATTEMPT_WINDOW
    ensures var c, until := Credit(a, now), Origin(a, now) + ATTEMPT_WINDOW;
            && until > now && (c < MAX_ATTEMPTS ==> StandsAt(a, c, until, now))
            && (a.None? || a.value.windowUntil <= until)
  {
  }

  lemma RoomAgain(a: Option<Attempts>, now: nat)
    requires a.None? || a.value.windowUntil <= now
    ensures StandsAt(a, 0, now + ATTEMPT_WINDOW, now)
  {
  }

  /** First what is left of the window. */
  lemma UsesRoom(v: World, hotp: Hotp, code: string, now: nat)
    requires v.tally.credit <= |v.tally.log|
    requires v.row.attempts.Some? ==> v.row.attempts.value.windowUntil <= now + ATTEMPT_WINDOW
    ensures var left, until := MAX_ATTEMPTS - Credit(v.row.attempts, now), Origin(v.row.attempts, now) + ATTEMPT_WINDOW;
            var w := Run(v, hotp, Checks(code, now, left));
            && w.tally.credit <= |w.tally.log| && Adds(All(v.tally), All(w.tally), left, now)
            && (w.row.attempts.None? || w.row.attempts.value.windowUntil <= until)
  {
    var a := v.row.attempts;
    RoomLeft(a, now);
    hide Run, Checks, All, Adds, Credit, Origin, StandsAt;
    CheckMany(v, hotp, code, now, MAX_ATTEMPTS - Credit(a, now), Credit(a, now), Origin(a, now) + ATTEMPT_WINDOW);
  }

  /** Then all of the next. */
  lemma UsesNextWindow(w: World, hotp: Hotp, code: string, now: nat)
    requires w.tally.credit <= |w.tally.log| && (w.row.attempts.None? || w.row.attempts.value.windowUntil <= now)
    ensures Adds(All(w.tally), All(Run(w, hotp, Checks(code, now, MAX_ATTEMPTS)).tally), MAX_ATTEMPTS, now)
  {
    RoomAgain(w.row.attempts, now);
    hide Run, Checks, All, Adds, StandsAt;
    CheckMany(w, hotp, code, now, MAX_ATTEMPTS, 0, now + ATTEMPT_WINDOW);
  }

  lemma BurstInTwo(v: World, hotp: Hotp, code: string, now: nat)
    requires Origin(v.row.attempts, now) + ATTEMPT_WINDOW >= now
    ensures var left, until := MAX_ATTEMPTS - Credit(v.row.attempts, now), Origin(v.row.attempts, now) + ATTEMPT_WINDOW;
            Run(v, hotp, Burst(v.row.attempts, code, now)) ==
            Run(Run(v, hotp, Checks(code, now, left)), hotp, Checks(code, until, MAX_ATTEMPTS))
  {
    hide Run, Checks, Credit, Origin;
    var left, until := MAX_ATTEMPTS - Credit(v.row.attempts, now), Origin(v.row.attempts, now) + ATTEMPT_WINDOW;
    RunAppend(v, hotp, Checks(code, now, left), Checks(code, until, MAX_ATTEMPTS));
  }

  /** The log after the burst: the earlier checks, then those at `now`, then ten a window later. */
  lemma BurstLog(v: World, hotp: Hotp, code: string, now: nat) returns (middle: seq<Entry>)
    requires v.tally.credit <= |v.tally.log|
    requires v.row.attempts.Some? ==> v.row.attempts.value.windowUntil <= now + ATTEMPT_WINDOW
    ensures var a := v.row.attempts;
            && Origin(a, now) + ATTEMPT_WINDOW >= now && Adds(All(v.tally), middle, MAX_ATTEMPTS - Credit(a, now), now)
            && Adds(middle, All(Run(v, hotp, Burst(a, code, now)).tally), MAX_ATTEMPTS, Origin(a, now) + ATTEMPT_WINDOW)
  {
    hide Run, Checks, Burst, All, Adds, Credit, Origin, StandsAt;
    RoomLeft(v.row.attempts, now);
    BurstInTwo(v, hotp, code, now);
    UsesRoom(v, hotp, code, now);
    var w := Run(v, hotp, Checks(code, now, MAX_ATTEMPTS - Credit(v.row.attempts, now)));
    middle := All(w.tally);
    UsesNextWindow(w, hotp, code, Origin(v.row.attempts, now) + ATTEMPT_WINDOW);
  }

  /** A counter that covers too little lets too many checks through. */
  lemma UncoveredBreaksLimit(v: World, hotp: Hotp, code: string, now: nat)
    requires v.tally.credit <= |v.tally.log|
    requires v.row.attempts.Some? ==> v.row.attempts.value.windowUntil <= now + ATTEMPT_WINDOW
    requires Ordered(All(v.tally)) && Until(All(v.tally), now) && !LimitKept(All(v.tally), v.row.attempts, now)
    ensures Origin(v.row.attempts, now) + ATTEMPT_WINDOW >= now
    ensures !Limited(All(Run(v, hotp, Burst(v.row.attempts, code, now)).tally))
  {
    var a, log := v.row.attempts, All(v.tally);
    var middle := BurstLog(v, hotp, code, now);
    hide Run, Burst, All;
    TooMany(log, middle, All(Run(v, hotp, Burst(a, code, now)).tally), a, now);
  }

  lemma TooMany(log: seq<Entry>, middle: seq<Entry>, after: seq<Entry>, a: Option<Attempts>, now: nat)
    requires Ordered(log) && Until(log, now) && !LimitKept(log, a, now) && Origin(a, now) + ATTEMPT_WINDOW >= now
    requires Adds(log, middle, MAX_ATTEMPTS - Credit(a, now), now)
    requires Adds(middle, after, MAX_ATTEMPTS, Origin(a, now) + ATTEMPT_WINDOW)
    ensures !Limited(after)
  {
    var c, start := Credit(a, now), Origin(a, now);
    CountedAtTheEnd(log, start);
    CountedAtTheEnd(log, now - ATTEMPT_WINDOW);
    hide Credit, Origin, Limited;
    var i := if CountFrom(log, start) > c then |log| - c - 1 else |log| - 11 - c;
    assert after[i] == middle[i] == log[i];
    NotLimited(after, i);
  }

  /** Exactly when a restore keeps the limit: after it, every run without another restore keeps at
      most twenty checks in any ten minutes if and only if the restored counter covers the checks
      since its window began, and with ten more those of the last ten minutes. */
  lemma RestoreKeepsLimitExactlyWhen(w: World, hotp: Hotp, archived: Account, epoch: nat, now: nat)
    requires TallySound(w.tally, w.row.attempts, now) && Limited(All(w.tally)) && MayRestore(w, archived, epoch, now)
    ensures StaysLimited(RestoreRow(w, archived, epoch, now), hotp, now) <==> LimitKept(All(w.tally), archived.attempts, now)
  {
    var v := RestoreRow(w, archived, epoch, now);
    RestoringKeepsTally(w.tally, w.row.attempts, archived.attempts, now);
    TallyIsOrdered(w.tally, w.row.attempts, now);
    hide Limited, Run, RestoreFree, Chronological, All;
    if LimitKept(All(w.tally), archived.attempts, now) {
      forall ops: seq<Op> | Chronological(ops) && RestoreFree(ops) && (ops != [] ==> now <= ops[0].now)
        ensures Limited(All(Run(v, hotp, ops).tally))
      {
        RestoreFreeKeepsLimit(v, hotp, ops);
        CoveredRunIsLimited(v, hotp, ops, now);
      }
    } else {
      UncoveredBreaksLimit(v, hotp, "", now);
      BurstIsARun(archived.attempts, "", now);
    }
  }

  lemma TenAtOnce(log: seq<Entry>)
    requires Adds([], log, MAX_ATTEMPTS, 0)
    ensures Limited(log) && !LimitKept(log, None, 0) && LimitKept(log, None, 1)
  {
    CountedAtTheEnd(log, 0);
    CountedAtTheEnd(log, 1);
    CountedAtTheEnd(log, -599);
    assert log[0].at == log[9].at == 0;
  }

  lemma FullAtOnce(hotp: Hotp, enabled: bool) returns (w: World)
    ensures w == Run(Opening(enabled), hotp, Checks("", 0, MAX_ATTEMPTS)) && TallySound(w.tally, w.row.attempts, 0)
    ensures Adds([], All(w.tally), MAX_ATTEMPTS, 0) && w.usedEpochs == {0}
  {
    var opening, ops := Opening(enabled), Checks("", 0, MAX_ATTEMPTS);
    w := Run(opening, hotp, ops);
    ChecksShape("", 0, MAX_ATTEMPTS);
    OpeningIsSound(enabled);
    hide Run, Checks, TallySound;
    CheckMany(opening, hotp, "", 0, MAX_ATTEMPTS, 0, ATTEMPT_WINDOW);
    RunKeeps(opening, hotp, ops, 0);
  }

  /** For instance, after ten checks at once the restore of an account without a counter loses the
      limit at the same instant, and keeps it one second later. */
  lemma LostCounterExample(hotp: Hotp, enabled: bool)
    ensures var opening := Opening(enabled); var full := Run(opening, hotp, Checks("", 0, MAX_ATTEMPTS));
            && !StaysLimited(RestoreRow(full, opening.row, 1, 0), hotp, 0)
            && StaysLimited(RestoreRow(full, opening.row, 1, 1), hotp, 1)
  {
    hide Run, Checks, StaysLimited, RestoreRow, TallySound, All, Adds, Limited, LimitKept;
    var full := FullAtOnce(hotp, enabled);
    TenAtOnce(All(full.tally));
    LaterTally(full.tally, full.row.attempts, 0, 1);
    RestoreKeepsLimitExactlyWhen(full, hotp, Opening(enabled).row, 1, 0);
    RestoreKeepsLimitExactlyWhen(full, hotp, Opening(enabled).row, 1, 1);
  }

  // ----- challenges carry what a login has read

  /** Whether or not the code is right, answering a live challenge uses it up and counts an attempt. */
  lemma AnswerSpendsChallenge(a: Account, hotp: Hotp, hash: string, code: string, now: nat)
    requires Answerable(a, hash, now)
    ensures var b := Answered(a, hotp, hash, code, now);
            hash !in b.challenges && b.attempts == CountAttempt(a, now).attempts && !Answerable(b, hash, now)
  {
  }

  /** A login that has read an epoch gone by gets no challenge. */
  lemma PastEpochGetsNoChallenge(w: World, hotp: Hotp, op: Op)
    requires op.Issue? && op.epoch != w.row.epoch
    ensures Next(w, hotp, op).row == w.row
  {
  }

  lemma EpochIsKept(a: Account, hotp: Hotp, op: Op)
    ensures op.Check? || op.Answer? ==>
      var b := Consumed(a, hotp, op.code, op.now);
      b.epoch == a.epoch && b.generation == a.generation && b.loginGeneration == a.loginGeneration
  {
    hide AcceptedStep;
  }

  /** A hash that has been handed out is never bound to another challenge, and goes with its epoch. */
  lemma ChallengeIsImmutable(w: World, hotp: Hotp, op: Op, hash: string)
    requires hash in w.usedHashes
    ensures var v := Next(w, hotp, op);
            && hash in v.usedHashes
            && (hash in v.row.challenges ==>
                  hash in w.row.challenges && v.row.challenges[hash] == w.row.challenges[hash] && v.row.epoch == w.row.epoch)
  {
    hide Judge, AcceptedStep, CountAttempt;
    SameChallenges(w.row, hotp, op);
    EpochIsKept(w.row, hotp, op);
    if op.Answer? {
      EpochIsKept(w.row.(challenges := w.row.challenges - {op.hash}), hotp, op);
    }
  }

  /** A challenge issued before its account was revised, or before a restore, can no longer be
      answered: the login it stands for is refused along with every other one prepared before. */
  lemma {:induction false} RevisedAccountRefusesChallenge(w: World, hotp: Hotp, ops: seq<Op>, hash: string, c: Challenge, now: int)
    requires hash in w.usedHashes && (hash in w.row.challenges ==> w.row.challenges[hash] == c)
    requires var end := Run(w, hotp, ops).row;
             end.epoch == w.row.epoch ==> end.generation > c.generation || end.loginGeneration > c.loginGeneration
    ensures !Answerable(Run(w, hotp, ops).row, hash, now)
    decreases |ops|
  {
    ChallengeFollows(w, hotp, ops, hash);
    hide Run;
  }

  lemma {:induction false} ChallengeFollows(w: World, hotp: Hotp, ops: seq<Op>, hash: string)
    requires hash in w.usedHashes
    ensures var v := Run(w, hotp, ops);
            hash in v.row.challenges ==>
              hash in w.row.challenges && v.row.challenges[hash] == w.row.challenges[hash] && v.row.epoch == w.row.epoch
    decreases |ops|
  {
    hide Next;
    if ops != [] {
      ChallengeIsImmutable(w, hotp, ops[0], hash);
      ChallengeFollows(Next(w, hotp, ops[0]), hotp, ops[1..], hash);
    }
  }
}
