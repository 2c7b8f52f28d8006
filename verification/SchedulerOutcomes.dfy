/**
  What a tick leaves behind: the state that is stored when it is over and the records it makes, for
  every way in which it can end.
 */
module SchedulerOutcomes {
  import opened Common
  import opened CivilTime
  import opened Scheduler
  import opened SchedulerAdmission

  /** The tick has something to do and finds nothing left over from before. */
  ghost predicate Due(s: State, e: Env) {
    && s.timezone == e.zoneName && s.temporary.None? && !s.outcome.Running?
    && (e.manual || ((s.config.enabled || s.pendingManual) && s.approval.Some?))
    && (e.manual || e.now >= Parse(if s.pendingAt.Some? then s.retryAt else s.nextAt))
  }

  /** The occurrence a tick works on. */
  function OccurrenceOf(s: State, e: Env): Stamp {
    if s.pendingAt.Some? then s.pendingAt else if e.manual then Some(e.now) else s.nextAt
  }

  ghost predicate Noticed(effects: seq<Effect>, note: Note) {
    exists i :: 0 <= i < |effects| && effects[i].Noted? && effects[i].note == note
  }

  ghost predicate Exports(effects: seq<Effect>) {
    exists i :: 0 <= i < |effects| && effects[i].Exported?
  }

  /** Settings that no attempt changes. */
  predicate SameSettings(s: State, t: State) {
    t.config == s.config && t.timezone == s.timezone
  }

  lemma DueIsWorked(s: State, e: Env)
    requires Due(s, e)
    ensures ExclusiveEffects(s, e) == DueEffects(s, e)
  {
    hide DueEffects;
  }

  /** Expired or missed: an hour or more after the occurrence. */
  ghost predicate TooLate(s: State, e: Env) {
    (s.pendingAt.Some? || !e.manual) && e.now - Parse(if s.pendingAt.Some? then s.pendingAt else s.nextAt) >= DEFERRAL_WINDOW
  }

  /** The tick claims its occurrence and exports it, and the result is stored. */
  ghost predicate RunsToTheEnd(s: State, e: Env) {
    && Due(s, e) && Approved(s, e.laterDestination) && !TooLate(s, e) && !e.activeWork
    && e.hasEntropy && e.claimSave.Stored? && e.finalSave.Stored?
  }

  ghost predicate Silent(effects: seq<Effect>) {
    forall i :: 0 <= i < |effects| ==> !effects[i].Noted?
  }

  lemma RunIsClaim(s: State, e: Env)
    requires RunsToTheEnd(s, e)
    ensures ExclusiveEffects(s, e) == [Saved(Claim(s, e))] + ExportEffects(Claim(s, e), e)
  {
    hide Next, ExclusiveEffects, ExportEffects;
    DueIsWorked(s, e);
    assert s.(temporary := None) == s;
    assert DueEffects(s, e) == ClaimEffects(s, e);
  }

  /** The effects of a run that goes to the end: nothing is recorded before its result. */
  lemma EffectsOfRun(s: State, e: Env) returns (before: seq<Effect>)
    requires RunsToTheEnd(s, e)
    ensures ExclusiveEffects(s, e) == before + FinalEffects(Finish(Claim(s, e), e), e)
    ensures Silent(before) && Exports(before)
  {
    hide Next, ExclusiveEffects, FinalEffects, Finish, Claim, RunsToTheEnd;
    RunIsClaim(s, e);
    var c := Claim(s, e);
    var x := Exported(e.now, Parse(c.pendingAt), !c.pendingManual);
    var own := if e.published then SaveEffects(c.(temporary := None), e.ownSave) else [];
    before := [Saved(c)] + ([x] + own);
    assert [Saved(c)] + ([x] + (own + FinalEffects(Finish(c, e), e))) == before + FinalEffects(Finish(c, e), e);
    assert before[1].Exported?;
  }

  lemma {:induction false} SavedForgets(b: seq<Effect>, s: State, t: State, i: nat)
    requires i < |b| && b[i].Saved?
    ensures LastSaved(b, s) == LastSaved(b, t)
    decreases |b|
  {
    if i > 0 {
      assert b[1..][i - 1] == b[i];
      SavedForgets(b[1..], if b[0].Saved? then b[0].state else s, if b[0].Saved? then b[0].state else t, i - 1);
    }
  }

  /** Two effects that save at most once. */
  lemma SaveThenNote(x: State, result: SaveResult, note: Note, at: int, s: State)
    ensures var effects := SaveEffects(x, result) + [Noted(note, at)];
            LastSaved(effects, s) == (if result.Lost? then s else x)
            && forall n: Note :: Noticed(effects, n) <==> n == note
  {
    var last := [Noted(note, at)];
    var effects := SaveEffects(x, result) + last;
    NothingSaved(SaveEffects(x, result), s);
    LastSavedAppend(SaveEffects(x, result), last, s);
    assert last[1..] == [];
    assert effects[|effects| - 1] == Noted(note, at);
  }

  lemma NoticedInEither(a: seq<Effect>, b: seq<Effect>, note: Note)
    ensures Noticed(a + b, note) <==> Noticed(a, note) || Noticed(b, note)
  {
    if Noticed(a, note) {
      var i :| 0 <= i < |a| && a[i].Noted? && a[i].note == note;
      assert (a + b)[i] == a[i];
    }
    if Noticed(b, note) {
      var i :| 0 <= i < |b| && b[i].Noted? && b[i].note == note;
      assert (a + b)[|a| + i] == b[i];
    }
    if Noticed(a + b, note) {
      var i :| 0 <= i < |a + b| && (a + b)[i].Noted? && (a + b)[i].note == note;
      assert if i < |a| then a[i] == (a + b)[i] else b[i - |a|] == (a + b)[i];
    }
  }

  /** What the end of a run stores and records. */
  lemma FinalMeaning(done: State, e: Env, s: State)
    requires e.finalSave.Stored?
    ensures var effects, lost := FinalEffects(done, e), !e.leaseCloses && e.sharedAfterwards;
            && LastSaved(effects, s) == (if lost && !e.closeSave.Lost? then done.(outcome := Failed) else done)
            && (Noticed(effects, SucceededNote) <==> done.outcome.Succeeded?)
            && (Noticed(effects, FailedNote) <==> !done.outcome.Succeeded? || lost)
            && !Noticed(effects, DeferredNote) && effects[0] == Saved(done)
  {
    var note := if done.outcome.Succeeded? then SucceededNote else FailedNote;
    var first, more := SaveEffects(done, Stored) + [Noted(note, e.now)], CloseEffects(done, e);
    SaveThenNote(done, Stored, note, e.now, s);
    SaveThenNote(done.(outcome := Failed), e.closeSave, FailedNote, e.now, done);
    assert FinalEffects(done, e) == first + more;
    LastSavedAppend(first, more, s);
    NoticedInEither(first, more, SucceededNote);
    NoticedInEither(first, more, FailedNote);
    NoticedInEither(first, more, DeferredNote);
  }

  lemma NoticedAfter(a: seq<Effect>, b: seq<Effect>, note: Note)
    requires Silent(a)
    ensures Noticed(a + b, note) <==> Noticed(b, note)
  {
    if Noticed(b, note) {
      var i :| 0 <= i < |b| && b[i].Noted? && b[i].note == note;
      assert (a + b)[|a| + i] == b[i];
    }
    if Noticed(a + b, note) {
      var i :| 0 <= i < |a + b| && (a + b)[i].Noted? && (a + b)[i].note == note;
      assert i >= |a| && b[i - |a|] == (a + b)[i];
    }
  }

  /** A run that exports and stores its result records success exactly when the export succeeded and no
      temporary file is left; the time of the last success moves exactly when the export succeeded;
      nothing stays pending, and the schedule has moved on. A lease that cannot be given back turns
      the stored result into a failure, after the fact. */
  lemma FinishedRunIsRecorded(s: State, e: Env)
    requires RunsToTheEnd(s, e)
    ensures var effects := ExclusiveEffects(s, e);
            var t, good, lost := LastSaved(effects, s), e.succeeded && (e.published || e.finallyCleans), !e.leaseCloses && e.sharedAfterwards;
            && Exports(effects)
            && t.outcome == (if good && (!lost || e.closeSave.Lost?) then Succeeded else Failed)
            && t.lastSuccessAt == (if e.succeeded then Some(e.finishedAt) else s.lastSuccessAt)
            && t.temporary == (if e.published || e.finallyCleans then None else Some(e.temporaryName))
            && t.occurrenceAt == OccurrenceOf(s, e) && t.lastAttemptAt == Some(e.now)
            && t.nextAt == Some(Next(e.zone, s.config.schedule, e.now))
            && t.pendingAt.None? && !t.pendingManual && t.retryAt.None?
            && SameSettings(s, t) && t.approval == s.approval
            && (Noticed(effects, SucceededNote) <==> good) && (Noticed(effects, FailedNote) <==> !good || lost)
            && !Noticed(effects, DeferredNote)
  {
    var before := EffectsOfRun(s, e);
    var done := Finish(Claim(s, e), e);
    FinishedState(s, e);
    FinalMeaning(done, e, s);
    hide Next, Claim, Finish, FinalEffects, ExclusiveEffects, RunsToTheEnd, Noticed, LastSaved;
    var tail := FinalEffects(done, e);
    LastSavedAppend(before, tail, s);
    SavedForgets(tail, LastSaved(before, s), s, 0);
    NoticedAfter(before, tail, SucceededNote);
    NoticedAfter(before, tail, FailedNote);
    NoticedAfter(before, tail, DeferredNote);
    assert Exports(before + tail) by {
      var i :| 0 <= i < |before| && before[i].Exported?;
      assert (before + tail)[i] == before[i];
    }
  }

  lemma FinishedState(s: State, e: Env)
    ensures var t, clean := Finish(Claim(s, e), e), e.published || e.finallyCleans;
            && t.outcome == (if e.succeeded && clean then Succeeded else Failed)
            && t.lastSuccessAt == (if e.succeeded then Some(e.finishedAt) else s.lastSuccessAt)
            && t.temporary == (if clean then None else Some(e.temporaryName))
            && t.occurrenceAt == OccurrenceOf(s, e) && t.lastAttemptAt == Some(e.now)
            && t.nextAt == Some(Next(e.zone, s.config.schedule, e.now))
            && t.pendingAt.None? && !t.pendingManual && t.retryAt.None?
            && SameSettings(s, t) && t.approval == s.approval
  {
    hide Next;
  }

  // ----- ticks that do not export

  /** A due tick that finds another destination than the approved one, or none, exports nothing and
      takes the approval away; what was pending stays pending. */
  lemma UnapprovedTickSuspends(s: State, e: Env)
    requires Due(s, e) && !(e.laterDestination.Some? && s.approval == e.laterDestination)
    ensures var effects := ExclusiveEffects(s, e); var t := LastSaved(effects, s);
            && !Exports(effects) && Noticed(effects, FailedNote) && !Noticed(effects, SucceededNote)
            && (e.suspendSave.Lost? ==> t == s)
            && (!e.suspendSave.Lost? ==>
                  && t.outcome == Suspended && t.approval.None? && t.lastAttemptAt == Some(e.now)
                  && t.occurrenceAt == (if e.manual then Some(e.now) else OccurrenceOf(s, e))
                  && SameSettings(s, t) && t.pendingAt == s.pendingAt && t.retryAt == s.retryAt
                  && t.nextAt == s.nextAt && t.lastSuccessAt == s.lastSuccessAt)
  {
    DueIsWorked(s, e);
    hide ExclusiveEffects;
    SaveThenNote(Suspend(s, e), e.suspendSave, FailedNote, e.now, s);
  }

  lemma SaveMaybeNote(x: State, result: SaveResult, note: Note, at: int, s: State)
    ensures var effects := SaveEffects(x, result) + if result.Stored? then [Noted(note, at)] else [];
            && LastSaved(effects, s) == (if result.Lost? then s else x) && !Exports(effects)
            && forall n: Note :: Noticed(effects, n) <==> n == note && result.Stored?
  {
    SaveThenNote(x, result, note, at, s);
    NothingSaved(SaveEffects(x, result), s);
    assert SaveEffects(x, result) + [] == SaveEffects(x, result);
  }

  /** The state stored when an occurrence is given up. */
  ghost predicate GivenUp(s: State, e: Env, t: State) {
    && t.outcome == Failed && t.pendingAt.None? && t.lastAttemptAt == Some(e.now)
    && t.occurrenceAt == OccurrenceOf(s, e) && t.nextAt == Some(Next(e.zone, s.config.schedule, e.now))
    && (s.pendingAt.Some? ==> !t.pendingManual && t.retryAt.None?)
    && SameSettings(s, t) && t.approval == s.approval && t.lastSuccessAt == s.lastSuccessAt && t.temporary == s.temporary
  }

  /** An occurrence found an hour late or more is given up: nothing is exported, nothing stays
      pending, and the schedule moves on. */
  lemma LateTickGivesUp(s: State, e: Env)
    requires Due(s, e) && Approved(s, e.laterDestination) && TooLate(s, e)
    ensures var effects := ExclusiveEffects(s, e); var t := LastSaved(effects, s);
            && !Exports(effects) && (Noticed(effects, FailedNote) <==> e.endSave.Stored?)
            && !Noticed(effects, SucceededNote) && !Noticed(effects, DeferredNote)
            && (e.endSave.Lost? ==> t == s)
            && (!e.endSave.Lost? ==> GivenUp(s, e, t))
  {
    DueIsWorked(s, e);
    hide ExclusiveEffects, Next;
    assert s.(temporary := None) == s;
    var x := if s.pendingAt.Some? then Expire(s, e) else Miss(s, e);
    SaveMaybeNote(x, e.endSave, FailedNote, e.now, s);
    assert DueEffects(s, e) == EndEffects(x, e);
  }

  /** While other work is active a due occurrence is put off for five minutes: it stays pending and
      nothing is exported. */
  lemma BusyTickDefers(s: State, e: Env)
    requires Due(s, e) && Approved(s, e.laterDestination) && !TooLate(s, e) && e.activeWork
    ensures var effects := ExclusiveEffects(s, e); var t := LastSaved(effects, s);
            && !Exports(effects) && !Noticed(effects, SucceededNote) && !Noticed(effects, FailedNote)
            && (s.pendingAt.Some? && e.now < Parse(s.retryAt) ==> effects == [])
            && (!(s.pendingAt.Some? && e.now < Parse(s.retryAt)) ==>
                  && (Noticed(effects, DeferredNote) <==> e.endSave.Stored?)
                  && (e.endSave.Lost? ==> t == s)
                  && (!e.endSave.Lost? ==> Deferral(s, e, t)))
  {
    DueIsWorked(s, e);
    hide ExclusiveEffects, Next;
    assert s.(temporary := None) == s;
    assert DueEffects(s, e) == DeferEffects(s, e);
    SaveMaybeNote(Postpone(s, e), e.endSave, DeferredNote, e.now, s);
  }

  /** The state a deferral stores. */
  ghost predicate Deferral(s: State, e: Env, t: State) {
    && t.outcome == Deferred && t.retryAt == Some(e.now + RETRY_DELAY) && t.lastAttemptAt == Some(e.now)
    && t.pendingAt == OccurrenceOf(s, e) && t.occurrenceAt == OccurrenceOf(s, e)
    && t.pendingManual == (if s.pendingAt.Some? then s.pendingManual else e.manual)
    && t.nextAt == (if s.pendingAt.Some? then s.nextAt else Some(Next(e.zone, s.config.schedule, e.now)))
    && SameSettings(s, t) && t.approval == s.approval && t.lastSuccessAt == s.lastSuccessAt && t.temporary == s.temporary
  }

  /** A due tick that is refused the exclusive lease. */
  ghost predicate DueButRefused(s: State, e: Env) {
    && s.timezone == e.zoneName && !s.outcome.Running?
    && (if e.manual then Approved(s, e.destination) else (s.config.enabled || s.pendingManual) && s.approval.Some?)
    && (if s.pendingAt.Some? then e.now >= Parse(s.retryAt) else e.manual || e.now >= Parse(s.nextAt))
  }

  /** Refused the exclusive lease, a due tick puts its occurrence off, or gives it up once it is an hour
      late; it never exports. */
  lemma RefusedTickDefers(s: State, e: Env)
    requires DueButRefused(s, e)
    ensures var effects := SharedEffects(s, e); var t := LastSaved(effects, s);
            && !Exports(effects) && (e.endSave.Lost? ==> t == s)
            && (forall n: Note :: Noticed(effects, n) <==> n == (if TooLate(s, e) then FailedNote else DeferredNote) && e.endSave.Stored?)
            && (!e.endSave.Lost? ==> if TooLate(s, e) then GivenUp(s, e, t) else Deferral(s, e, t))
  {
    hide Next;
    assert RebaseEffects(s, e) + DeferEffects(s, e) == DeferEffects(s, e);
    assert SharedEffects(s, e) == DeferEffects(s, e);
    SaveMaybeNote(Postpone(s, e), e.endSave, if TooLate(s, e) then FailedNote else DeferredNote, e.now, s);
    hide SharedEffects, SharedBody;
  }

  // ----- interruptions, zones, settings

  ghost predicate StartsByFailing(effects: seq<Effect>, s: State, e: Env) {
    && |effects| >= 2 && effects[0].Saved? && effects[1] == Noted(FailedNote, e.now)
    && var t := effects[0].state;
       && t.outcome == Failed && t.pendingAt.None? && !t.pendingManual && t.retryAt.None?
       && SameSettings(s, t) && t.approval == s.approval && t.nextAt == s.nextAt && t.lastSuccessAt == s.lastSuccessAt
  }

  /** A run found still going is stored as failed before anything else, under either lease, and its
      occurrence is not tried again. */
  lemma InterruptedRunHasFailed(s: State, e: Env)
    requires s.outcome.Running? && s.timezone == e.zoneName && s.temporary.None? && e.recoverSave.Stored?
    ensures StartsByFailing(ExclusiveEffects(s, e), s, e) && StartsByFailing(SharedEffects(s, e), s, e)
  {
    hide GuardedEffects, SharedBody, Next;
    assert RebaseEffects(s, e) == [];
  }

  /** A change of time zone reschedules by the new zone and changes nothing else. */
  lemma ZoneChangeReschedules(s: State, e: Env)
    requires s.timezone != e.zoneName && !e.rebaseSave.Lost?
    ensures var t := LastSaved(RebaseEffects(s, e), s);
            && t.timezone == e.zoneName && t.nextAt == Some(Next(e.zone, s.config.schedule, e.now))
            && t.(timezone := s.timezone, nextAt := s.nextAt) == s
  {
    hide Next;
    NothingSaved(RebaseEffects(s, e), s);
  }

  /** A time of day, a weekday and a number of archives to keep. */
  predicate Sensible(c: Config) {
    c.schedule.hour <= 23 && c.schedule.minute <= 59 && 1 <= c.retain <= 100 && (c.schedule.cadence.Weekly? ==> c.schedule.cadence.weekday < 7)
  }

  /** The check under the shared lock stores at most a change of zone, and leaves that to the tick when there
      is a run or a file to clean up after. */
  lemma CheckStoresOnlyTheZone(s: State, e: Env)
    ensures var effects := PrefilterEffects(s, e); var t := LastSaved(effects, s);
            && !Acts(effects) && t.(timezone := s.timezone, nextAt := s.nextAt) == s
            && t.timezone == (if s.outcome.Running? || s.temporary.Some? || e.rebaseSave.Lost? then s.timezone else e.zoneName)
            && t.nextAt == (if t.timezone == s.timezone then s.nextAt else Some(Next(e.zone, s.config.schedule, e.now)))
  {
    hide Next;
    NothingSaved(PrefilterEffects(s, e), s);
  }

  /** A configuration is stored exactly when it is valid and, if enabled, its destination is there;
      it then holds from now on, and nothing of the old schedule stays pending. */
  lemma ConfigurationTakesEffect(s: State, c: Config, e: Env)
    ensures var t := LastSaved(ConfigureEffects(s, c, e), s);
            if Sensible(c) && (c.enabled ==> e.destination.Some?) && !e.endSave.Lost?
            then && t.config == c && t.approval == e.destination && t.timezone == e.zoneName
                 && t.nextAt == Some(Next(e.zone, c.schedule, e.now))
                 && t.pendingAt.None? && !t.pendingManual && t.retryAt.None?
                 && t.outcome == (if e.destination.Some? then Configured else Disabled)
                 && t.lastSuccessAt == s.lastSuccessAt && t.temporary == s.temporary && t.occurrenceAt == s.occurrenceAt
            else t == s
  {
    hide Next;
    NothingSaved(ConfigureEffects(s, c, e), s);
  }

  /** Restored settings run nothing until they are approved again. */
  lemma RestoredSettingsWait(s: State, archived: State, e: Env, later: Env)
    requires !later.manual && later.zoneName == archived.timezone
    ensures var t := LastSaved(Effects(s, Restored(e, archived)), s);
            && t.approval.None? && t.pendingAt.None? && !t.pendingManual && t.retryAt.None? && t.temporary.None? && t.outcome == Suspended
            && SameSettings(archived, t) && t.nextAt == archived.nextAt && t.lastSuccessAt == archived.lastSuccessAt
            && ExclusiveEffects(t, later) == [] && SharedEffects(t, later) == []
  {
    hide Next, DueEffects;
    NothingSaved(Effects(s, Restored(e, archived)), s);
  }
}
