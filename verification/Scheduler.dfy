/**
  The durable state machine behind automated backups: claiming an occurrence, exporting it,
  deferring, expiring, recovering after a crash and rebasing on a new time zone.

  A step is described by its effects on the outside world, in order. The stored state is whatever
  was saved last, so a crash part-way through a step is a prefix of the step's effects.
 */
module Scheduler {
  import opened Common
  import opened CivilTime

  const DEFERRAL_WINDOW: int := 3_600_000_000_000
  const RETRY_DELAY: int := 300_000_000_000

  /** A stored timestamp; the empty string is None and reads back as the zero time. */
  type Stamp = Option<int>

  function Parse(stamp: Stamp): int {
    if stamp.None? then ZERO_TIME else stamp.value
  }

  datatype Config = Config(enabled: bool, schedule: Schedule, retain: nat) {
    predicate Valid() {
      && schedule.hour < 24 && schedule.minute < 60 && 1 <= retain <= 100
      && (schedule.cadence.Weekly? ==> schedule.cadence.weekday <= 6)
    }
  }

  datatype Outcome = Disabled | Configured | Suspended | Deferred | Running | Succeeded | Failed

  datatype State = State(
    config: Config, approval: Option<string>, timezone: string, pendingManual: bool,
    occurrenceAt: Stamp, nextAt: Stamp, pendingAt: Stamp, retryAt: Stamp,
    lastAttemptAt: Stamp, lastSuccessAt: Stamp, outcome: Outcome, temporary: Option<string>)

  const INITIAL: State := State(
    Config(false, Schedule(Daily, 2, 0), 7), None, "", false,
    None, None, None, None, None, None, Disabled, None)

  /** A save either succeeds, is lost, or is written although the caller sees an error. */
  datatype SaveResult = Stored | Lost | StoredButReported

  datatype Note = DeferredNote | FailedNote | SucceededNote

  datatype Effect =
    | Saved(state: State)
    | Exported(at: int, occurrence: int, scheduled: bool)
    | Noted(note: Note, at: int)

  /** Everything a step learns from outside: the clock, the zone, the destination check at its two
      call sites, file clean-ups, running work, and how each save and the export turn out. */
  datatype Env = Env(
    manual: bool, now: int, zone: Zone, zoneName: string,
    destination: Option<string>, laterDestination: Option<string>,
    cleans: bool, laterCleans: bool, finallyCleans: bool,
    activeWork: bool, hasEntropy: bool, temporaryName: string,
    published: bool, succeeded: bool, finishedAt: int, leaseCloses: bool, sharedAfterwards: bool,
    rebaseSave: SaveResult, cleanSave: SaveResult, recoverSave: SaveResult, suspendSave: SaveResult,
    endSave: SaveResult, claimSave: SaveResult, ownSave: SaveResult, finalSave: SaveResult,
    closeSave: SaveResult)

  // ----- effects of each part of a step

  function SaveEffects(s: State, result: SaveResult): seq<Effect> {
    if result.Lost? then [] else [Saved(s)]
  }

  /** The stored state after some effects. */
  function LastSaved(effects: seq<Effect>, before: State): State
    decreases |effects|
  {
    if effects == [] then before
    else LastSaved(effects[1..], if effects[0].Saved? then effects[0].state else before)
  }

  lemma {:induction false} LastSavedAppend(a: seq<Effect>, b: seq<Effect>, s: State)
    ensures LastSaved(a + b, s) == LastSaved(b, LastSaved(a, s))
    decreases |a|
  {
    if a == [] {
      assert a + b == b;
    } else {
      assert (a + b)[1..] == a[1..] + b;
      LastSavedAppend(a[1..], b, if a[0].Saved? then a[0].state else s);
    }
  }

  ghost function NextStamp(s: State, e: Env): Stamp {
    Some(Next(e.zone, s.config.schedule, e.now))
  }

  ghost function Rebased(s: State, e: Env): State {
    if s.timezone == e.zoneName then s else s.(timezone := e.zoneName, nextAt := NextStamp(s, e))
  }

  ghost function RebaseEffects(s: State, e: Env): seq<Effect> {
    if s.timezone == e.zoneName then [] else SaveEffects(Rebased(s, e), e.rebaseSave)
  }

  predicate RebaseFails(s: State, e: Env) {
    s.timezone != e.zoneName && !e.rebaseSave.Stored?
  }

  function Recovered(s: State): State {
    s.(outcome := Failed, pendingAt := None, pendingManual := false, retryAt := None)
  }

  /** The early guard that leaves a disabled or unapproved schedule alone. */
  predicate Unattended(s: State, e: Env) {
    !e.manual && ((!s.config.enabled && !s.pendingManual) || s.approval.None?)
  }

  predicate NotYetDue(s: State, e: Env) {
    !e.manual && if s.pendingAt.None? then e.now < Parse(s.nextAt) else e.now < Parse(s.retryAt)
  }

  predicate Approved(s: State, destination: Option<string>) {
    destination.Some? && s.approval == destination
  }

  function Suspend(s: State, e: Env): State {
    var occurrence :=
      if e.manual then Some(e.now) else if s.pendingAt.Some? then s.pendingAt else s.nextAt;
    s.(occurrenceAt := occurrence, lastAttemptAt := Some(e.now), outcome := Suspended, approval := None)
  }

  /** The pending occurrence is given up. */
  ghost function Expire(s: State, e: Env): State {
    s.(occurrenceAt := s.pendingAt, lastAttemptAt := Some(e.now), pendingAt := None,
       pendingManual := false, retryAt := None, nextAt := NextStamp(s, e), outcome := Failed)
  }

  /** A due occurrence found too late is skipped. */
  ghost function Miss(s: State, e: Env): State {
    s.(occurrenceAt := s.nextAt, lastAttemptAt := Some(e.now), nextAt := NextStamp(s, e),
       outcome := Failed)
  }

  ghost function EndEffects(s: State, e: Env): seq<Effect> {
    SaveEffects(s, e.endSave) + if e.endSave.Stored? then [Noted(FailedNote, e.now)] else []
  }

  /** The occurrence being worked on becomes pending if none is. */
  ghost function Pend(s: State, e: Env): State {
    if s.pendingAt.Some? then s
    else s.(pendingManual := e.manual, pendingAt := if e.manual then Some(e.now) else s.nextAt)
  }

  ghost function Postpone(s: State, e: Env): State {
    var p := if s.pendingAt.Some? then s else Pend(s, e).(nextAt := NextStamp(s, e));
    if e.now - Parse(p.pendingAt) >= DEFERRAL_WINDOW then Expire(p, e)
    else p.(occurrenceAt := p.pendingAt, outcome := Deferred,
            retryAt := Some(e.now + RETRY_DELAY), lastAttemptAt := Some(e.now))
  }

  ghost function DeferEffects(s: State, e: Env): seq<Effect> {
    if s.pendingAt.Some? && e.now < Parse(s.retryAt) then []
    else
      var p := Postpone(s, e);
      SaveEffects(p, e.endSave) +
      if e.endSave.Stored? then [Noted(if p.outcome.Deferred? then DeferredNote else FailedNote, e.now)]
      else []
  }

  ghost function Claim(s: State, e: Env): State {
    var p := Pend(s, e);
    p.(nextAt := NextStamp(s, e), occurrenceAt := p.pendingAt, lastAttemptAt := Some(e.now),
       outcome := Running, retryAt := None, temporary := Some(e.temporaryName))
  }

  function Finish(s: State, e: Env): State {
    var t := if e.published then s.(temporary := None) else s;
    var ended := if e.succeeded then t.(outcome := Succeeded, lastSuccessAt := Some(e.finishedAt))
                 else t.(outcome := Failed);
    var cleaned :=
      if ended.temporary.None? then ended
      else if e.finallyCleans then ended.(temporary := None)
      else ended.(outcome := Failed);
    cleaned.(pendingAt := None, pendingManual := false, retryAt := None)
  }

  /** A lease that cannot be closed turns the recorded result into a failure. */
  function CloseEffects(done: State, e: Env): seq<Effect> {
    if e.leaseCloses || !e.sharedAfterwards then []
    else SaveEffects(done.(outcome := Failed), e.closeSave) + [Noted(FailedNote, e.now)]
  }

  function FinalEffects(done: State, e: Env): seq<Effect> {
    if !e.finalSave.Stored? then SaveEffects(done, e.finalSave)
    else
      [Saved(done), Noted(if done.outcome.Succeeded? then SucceededNote else FailedNote, e.now)]
      + CloseEffects(done, e)
  }

  function FinishEffects(claimed: State, e: Env): seq<Effect> {
    (if e.published then SaveEffects(claimed.(temporary := None), e.ownSave) else [])
    + FinalEffects(Finish(claimed, e), e)
  }

  function ExportEffects(claimed: State, e: Env): seq<Effect> {
    [Exported(e.now, Parse(claimed.pendingAt), !claimed.pendingManual)] + FinishEffects(claimed, e)
  }

  ghost function ClaimEffects(s: State, e: Env): seq<Effect> {
    var claimed := Claim(s, e);
    if !e.hasEntropy then []
    else if !e.claimSave.Stored? then SaveEffects(claimed, e.claimSave)
    else [Saved(claimed)] + ExportEffects(claimed, e)
  }

  /** Past the early guards, under the exclusive lease. */
  ghost function DueEffects(s: State, e: Env): seq<Effect> {
    if !Approved(s, e.laterDestination) then
      SaveEffects(Suspend(s, e), e.suspendSave) + [Noted(FailedNote, e.now)]
    else if s.temporary.Some? && !e.laterCleans then []
    else
      var t := s.(temporary := None);
      if t.pendingAt.Some? && e.now - Parse(t.pendingAt) >= DEFERRAL_WINDOW then
        EndEffects(Expire(t, e), e)
      else if !e.manual && t.pendingAt.None? && e.now - Parse(t.nextAt) >= DEFERRAL_WINDOW then
        EndEffects(Miss(t, e), e)
      else if e.activeWork then DeferEffects(t, e)
      else ClaimEffects(t, e)
  }

  ghost function GuardedEffects(s: State, e: Env): seq<Effect> {
    if Unattended(s, e) || NotYetDue(s, e) then [] else DueEffects(s, e)
  }

  ghost function RecoverEffects(s: State, e: Env): seq<Effect> {
    if !s.outcome.Running? then GuardedEffects(s, e)
    else if !e.recoverSave.Stored? then SaveEffects(Recovered(s), e.recoverSave)
    else [Saved(Recovered(s)), Noted(FailedNote, e.now)] + GuardedEffects(Recovered(s), e)
  }

  ghost function CleanEffects(s: State, e: Env): seq<Effect> {
    if s.temporary.None? || e.destination.None? then RecoverEffects(s, e)
    else if Approved(s, e.destination) && !e.cleans then []
    else
      var t := if Approved(s, e.destination) then s.(temporary := None) else s;
      if !e.cleanSave.Stored? then SaveEffects(t, e.cleanSave)
      else [Saved(t)] + RecoverEffects(t, e)
  }

  /** A tick that holds the exclusive lease. */
  ghost function ExclusiveEffects(s: State, e: Env): seq<Effect> {
    RebaseEffects(s, e) + if RebaseFails(s, e) then [] else CleanEffects(Rebased(s, e), e)
  }

  ghost function SharedBody(s: State, e: Env): seq<Effect> {
    if Unattended(s, e) then []
    else if e.manual && !Approved(s, e.destination) then []
    else if RebaseFails(s, e) then RebaseEffects(s, e)
    else
      var r := Rebased(s, e);
      RebaseEffects(s, e) +
      if !e.manual && e.now < Parse(r.nextAt) && r.pendingAt.None? then [] else DeferEffects(r, e)
  }

  /** A tick refused the exclusive lease: it can only recover or defer. */
  ghost function SharedEffects(s: State, e: Env): seq<Effect> {
    if !s.outcome.Running? then SharedBody(s, e)
    else if !e.recoverSave.Stored? then SaveEffects(Recovered(s), e.recoverSave)
    else [Saved(Recovered(s)), Noted(FailedNote, e.now)] + SharedBody(Recovered(s), e)
  }

  datatype Need = Unknown | Needed(needed: bool)

  /** The cheap check under a shared lease. */
  ghost function PrefilterNeed(s: State, e: Env): Need {
    if s.outcome.Running? || s.temporary.Some? then Needed(true)
    else if RebaseFails(s, e) then Unknown
    else
      var r := Rebased(s, e);
      if (!r.config.enabled && !r.pendingManual) || r.approval.None? then Needed(false)
      else if r.pendingAt.Some? then Needed(e.now >= Parse(r.retryAt))
      else Needed(e.now >= Parse(r.nextAt))
  }

  ghost function PrefilterEffects(s: State, e: Env): seq<Effect> {
    if s.outcome.Running? || s.temporary.Some? then [] else RebaseEffects(s, e)
  }

  ghost function Reconfigured(s: State, c: Config, e: Env): State {
    s.(approval := e.destination, config := c, nextAt := Some(Next(e.zone, c.schedule, e.now)),
       timezone := e.zoneName, pendingAt := None, pendingManual := false, retryAt := None,
       outcome := if e.destination.Some? then Configured else Disabled)
  }

  ghost function ConfigureEffects(s: State, c: Config, e: Env): seq<Effect> {
    if !c.Valid() || (e.destination.None? && c.enabled) then []
    else SaveEffects(Reconfigured(s, c, e), e.endSave)
  }

  /** What a restored settings row becomes before anything else may run. */
  function Quarantined(s: State): State {
    s.(approval := None, pendingAt := None, pendingManual := false, retryAt := None,
       temporary := None, outcome := Suspended)
  }

  // ----- runs

  datatype Event =
    | ExclusiveTick(e: Env)
    | SharedTick(e: Env)
    | Prefilter(e: Env)
    | Configure(e: Env, config: Config)
    | Restored(e: Env, archived: State)

  ghost function Effects(s: State, event: Event): seq<Effect> {
    match event
    case ExclusiveTick(e) => ExclusiveEffects(s, e)
    case SharedTick(e) => SharedEffects(s, e)
    case Prefilter(e) => PrefilterEffects(s, e)
    case Configure(e, c) => ConfigureEffects(s, c, e)
    case Restored(e, archived) => [Saved(Quarantined(archived))]
  }

  /** An event cut short after so many effects: a crash, unless the cut lies past the end. */
  datatype Step = Step(event: Event, cut: nat)

  ghost function StepEffects(s: State, step: Step): seq<Effect> {
    var all := Effects(s, step.event);
    if step.cut < |all| then all[..step.cut] else all
  }

  /** Everything that happened in a run. */
  ghost function History(s: State, steps: seq<Step>): seq<Effect>
    decreases |steps|
  {
    if steps == [] then []
    else
      var done := StepEffects(s, steps[0]);
      done + History(LastSaved(done, s), steps[1..])
  }

  /** The clock starts after the first hour of the calendar and never runs backwards. */
  ghost predicate Chronological(steps: seq<Step>) {
    && (forall i :: 0 <= i < |steps| ==> steps[i].event.e.now >= ZERO_TIME + HOUR)
    && (forall i, j :: 0 <= i < j < |steps| ==> steps[i].event.e.now <= steps[j].event.e.now)
  }
}
