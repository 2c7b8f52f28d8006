/**
  The backup scheduler as the program runs it: state fields rewritten step by step and saved,
  each method proved to have exactly the effects its specification lists.
 */
module SchedulerMachine {
  import opened Common
  import opened CivilTime
  import opened Scheduler

  datatype Admission = Exclusive | SharedOnly | Refused

  class Automation {
    var stored: State
    /** Everything done to the outside world so far. */
    var effects: seq<Effect>

    ghost predicate Valid()
      reads this
    {
      stored == LastSaved(effects, INITIAL)
    }

    constructor ()
      ensures Valid() && effects == []
    {
      stored := INITIAL;
      effects := [];
    }

    method Save(s: State, result: SaveResult) returns (ok: bool)
      requires Valid()
      modifies this
      ensures Valid() && effects == old(effects) + SaveEffects(s, result)
      ensures ok == result.Stored?
      ensures ok ==> stored == s
    {
      LastSavedAppend(effects, SaveEffects(s, result), INITIAL);
      if !result.Lost? {
        stored := s;
        effects := effects + [Saved(s)];
      }
      ok := result.Stored?;
    }

    method Record(note: Note, at: int)
      requires Valid()
      modifies this
      ensures Valid() && stored == old(stored)
      ensures effects == old(effects) + [Noted(note, at)]
    {
      LastSavedAppend(effects, [Noted(note, at)], INITIAL);
      effects := effects + [Noted(note, at)];
    }

    method RebaseTimezone(s: State, e: Env) returns (r: State, ok: bool)
      requires Valid()
      modifies this
      ensures Valid() && effects == old(effects) + RebaseEffects(s, e)
      ensures r == Rebased(s, e) && ok == !RebaseFails(s, e)
    {
      hide Valid, Next;
      r := s;
      if s.timezone == e.zoneName {
        return s, true;
      }
      var next := NextBackupOccurrence(e.zone, s.config.schedule, e.now);
      r := r.(timezone := e.zoneName);
      r := r.(nextAt := Some(next));
      ok := Save(r, e.rebaseSave);
    }

    method RecoverInterrupted(s: State, e: Env) returns (r: State, ok: bool)
      requires Valid()
      modifies this
      ensures Valid()
      ensures !s.outcome.Running? ==> ok && r == s && effects == old(effects)
      ensures s.outcome.Running? ==> r == Recovered(s) && ok == e.recoverSave.Stored?
      ensures s.outcome.Running? && !ok ==> effects == old(effects) + SaveEffects(r, e.recoverSave)
      ensures s.outcome.Running? && ok ==> effects == old(effects) + [Saved(r), Noted(FailedNote, e.now)]
    {
      hide Valid;
      r, ok := s, true;
      if s.outcome.Running? {
        r := r.(outcome := Failed);
        r := r.(pendingAt := None, pendingManual := false);
        r := r.(retryAt := None);
        ok := Save(r, e.recoverSave);
        if ok {
          Record(FailedNote, e.now);
        }
      }
    }

    method DeferLocked(s0: State, e: Env)
      requires Valid()
      modifies this
      ensures Valid() && effects == old(effects) + DeferEffects(s0, e)
    {
      hide Valid, Next;
      var s := s0;
      if s.pendingAt.Some? && e.now < Parse(s.retryAt) {
        return;
      }
      var next := NextBackupOccurrence(e.zone, s.config.schedule, e.now);
      if s.pendingAt.None? {
        s := s.(pendingManual := e.manual);
        s := s.(pendingAt := if e.manual then Some(e.now) else s.nextAt);
        s := s.(nextAt := Some(next));
      }
      s := s.(occurrenceAt := s.pendingAt);
      if e.now - Parse(s.pendingAt) >= DEFERRAL_WINDOW {
        s := s.(pendingAt := None, pendingManual := false, retryAt := None);
        s := s.(outcome := Failed, nextAt := Some(next));
      } else {
        s := s.(outcome := Deferred);
        s := s.(retryAt := Some(e.now + RETRY_DELAY));
      }
      s := s.(lastAttemptAt := Some(e.now));
      assert s == Postpone(s0, e);
      var ok := Save(s, e.endSave);
      if ok {
        Record(if s.outcome.Deferred? then DeferredNote else FailedNote, e.now);
      }
    }

    /** Records a finished attempt, and a failure to give the lease back. */
    method CompleteRun(done: State, e: Env)
      requires Valid()
      modifies this
      ensures Valid() && effects == old(effects) + FinalEffects(done, e)
    {
      hide Valid;
      var ok := Save(done, e.finalSave);
      if !ok {
        return;
      }
      Record(if done.outcome.Succeeded? then SucceededNote else FailedNote, e.now);
      if !e.leaseCloses && e.sharedAfterwards {
        var ignored := Save(done.(outcome := Failed), e.closeSave);
        Record(FailedNote, e.now);
      }
    }

    /** Publication and the clean-up after it, for an occurrence already claimed. */
    method FinishRun(claimed: State, e: Env)
      requires Valid()
      modifies this
      ensures Valid() && effects == old(effects) + FinishEffects(claimed, e)
    {
      hide Valid, FinalEffects;
      var s := claimed;
      if e.published {
        s := s.(temporary := None);
        var owned := Save(s, e.ownSave);
      }
      if e.succeeded {
        s := s.(outcome := Succeeded);
        s := s.(lastSuccessAt := Some(e.finishedAt));
      } else {
        s := s.(outcome := Failed);
      }
      if s.temporary.Some? {
        if e.finallyCleans {
          s := s.(temporary := None);
        } else {
          s := s.(outcome := Failed);
        }
      }
      s := s.(pendingAt := None, pendingManual := false);
      s := s.(retryAt := None);
      assert s == Finish(claimed, e);
      CompleteRun(s, e);
    }

    /** Exports an occurrence already claimed. */
    method ExportClaimed(claimed: State, e: Env)
      requires Valid()
      modifies this
      ensures Valid() && effects == old(effects) + ExportEffects(claimed, e)
    {
      hide FinishEffects;
      var x := Exported(e.now, Parse(claimed.pendingAt), !claimed.pendingManual);
      LastSavedAppend(effects, [x], INITIAL);
      effects := effects + [x];
      FinishRun(claimed, e);
    }

    /** Claims the occurrence durably before exporting it. */
    method ClaimAndExport(s0: State, e: Env)
      requires Valid()
      modifies this
      ensures Valid() && effects == old(effects) + ClaimEffects(s0, e)
    {
      hide Next, ExportEffects, Valid;
      var s := s0;
      var next := NextBackupOccurrence(e.zone, s.config.schedule, e.now);
      if s.pendingAt.None? {
        s := s.(pendingManual := e.manual);
        s := s.(pendingAt := if e.manual then Some(e.now) else s.nextAt);
      }
      s := s.(nextAt := Some(next), occurrenceAt := s.pendingAt);
      s := s.(lastAttemptAt := Some(e.now), outcome := Running);
      s := s.(retryAt := None);
      if !e.hasEntropy {
        return;
      }
      s := s.(temporary := Some(e.temporaryName));
      assert s == Claim(s0, e);
      var ok := Save(s, e.claimSave);
      if ok {
        ExportClaimed(s, e);
      }
    }

    /** The part of an exclusive tick past its early guards. */
    method RunDue(s0: State, e: Env)
      requires Valid()
      modifies this
      ensures Valid() && effects == old(effects) + DueEffects(s0, e)
    {
      hide Valid, Next, ClaimEffects, DeferEffects;
      var s := s0;
      if e.laterDestination.None? || s.approval != e.laterDestination {
        s := s.(occurrenceAt := s.pendingAt);
        if s.occurrenceAt.None? {
          s := s.(occurrenceAt := s.nextAt);
        }
        if e.manual {
          s := s.(occurrenceAt := Some(e.now));
        }
        s := s.(lastAttemptAt := Some(e.now));
        s := s.(outcome := Suspended, approval := None);
        var ignored := Save(s, e.suspendSave);
        Record(FailedNote, e.now);
        return;
      }
      if s.temporary.Some? {
        if !e.laterCleans {
          return;
        }
        s := s.(temporary := None);
      }
      ghost var t := s;
      var next := NextBackupOccurrence(e.zone, s.config.schedule, e.now);
      if s.pendingAt.Some? && e.now - Parse(s.pendingAt) >= DEFERRAL_WINDOW {
        s := s.(occurrenceAt := s.pendingAt, lastAttemptAt := Some(e.now));
        s := s.(pendingAt := None, pendingManual := false, retryAt := None);
        s := s.(nextAt := Some(next), outcome := Failed);
        assert s == Expire(t, e);
        var ok := Save(s, e.endSave);
        if ok {
          Record(FailedNote, e.now);
        }
        return;
      }
      if !e.manual && s.pendingAt.None? && e.now - Parse(s.nextAt) >= DEFERRAL_WINDOW {
        s := s.(occurrenceAt := s.nextAt, lastAttemptAt := Some(e.now));
        s := s.(nextAt := Some(next), outcome := Failed);
        assert s == Miss(t, e);
        var ok := Save(s, e.endSave);
        if ok {
          Record(FailedNote, e.now);
        }
        return;
      }
      if e.activeWork {
        DeferLocked(s, e);
      } else {
        ClaimAndExport(s, e);
      }
    }

    /** Closes an interrupted run, then works on whatever is due. */
    method RecoverAndRun(s0: State, e: Env)
      requires Valid()
      modifies this
      ensures Valid() && effects == old(effects) + RecoverEffects(s0, e)
    {
      hide Valid, DueEffects;
      var s, ok := RecoverInterrupted(s0, e);
      if ok && !Unattended(s, e) && !NotYetDue(s, e) {
        RunDue(s, e);
      }
    }

    /** Removes a leftover temporary archive before anything else. */
    method CleanAndRun(s0: State, e: Env)
      requires Valid()
      modifies this
      ensures Valid() && effects == old(effects) + CleanEffects(s0, e)
    {
      hide Valid, RecoverEffects;
      var s := s0;
      if s.temporary.Some? && e.destination.Some? {
        if s.approval == e.destination {
          if !e.cleans {
            return;
          }
          s := s.(temporary := None);
        }
        var ok := Save(s, e.cleanSave);
        if !ok {
          return;
        }
      }
      RecoverAndRun(s, e);
    }

    method ExclusiveBody(e: Env)
      requires Valid()
      modifies this
      ensures Valid() && effects == old(effects) + ExclusiveEffects(old(stored), e)
    {
      hide Valid, CleanEffects, RebaseEffects, Rebased;
      var s, ok := RebaseTimezone(stored, e);
      if ok {
        CleanAndRun(s, e);
      }
    }

    method SharedBodyTick(e: Env)
      requires Valid()
      modifies this
      ensures Valid() && effects == old(effects) + SharedEffects(old(stored), e)
    {
      hide Valid, DeferEffects, RebaseEffects, Rebased;
      var s, ok := RecoverInterrupted(stored, e);
      if !ok || Unattended(s, e) || (e.manual && !Approved(s, e.destination)) {
        return;
      }
      ghost var recovered, r := effects, s;
      s, ok := RebaseTimezone(s, e);
      if ok && !(!e.manual && e.now < Parse(s.nextAt) && s.pendingAt.None?) {
        DeferLocked(s, e);
      }
      assert effects == recovered + SharedBody(r, e);
    }

    /** The check that keeps an idle scheduler from closing admission to other work. */
    method NeedsExclusiveTick(e: Env) returns (need: Need)
      requires Valid()
      modifies this
      ensures Valid() && effects == old(effects) + PrefilterEffects(old(stored), e)
      ensures need == PrefilterNeed(old(stored), e)
    {
      hide Valid, RebaseEffects, Rebased;
      if stored.outcome.Running? || stored.temporary.Some? {
        return Needed(true);
      }
      var s, ok := RebaseTimezone(stored, e);
      if !ok {
        return Unknown;
      }
      if (!s.config.enabled && !s.pendingManual) || s.approval.None? {
        return Needed(false);
      }
      if s.pendingAt.Some? {
        return Needed(e.now >= Parse(s.retryAt));
      }
      return Needed(e.now >= Parse(s.nextAt));
    }

    /** A whole tick: the check sees `before`, the work itself sees `e` some time later. */
    method Tick(before: Env, e: Env, admission: Admission)
      requires Valid()
      modifies this
      ensures Valid()
      ensures var checked := if e.manual then [] else PrefilterEffects(old(stored), before);
              var s := LastSaved(checked, old(stored));
              effects == old(effects) + checked +
                if !e.manual && PrefilterNeed(old(stored), before) != Needed(true) then []
                else match admission
                     case Exclusive => ExclusiveEffects(s, e)
                     case SharedOnly => SharedEffects(s, e)
                     case Refused => []
    {
      hide ExclusiveEffects, SharedEffects, PrefilterEffects, PrefilterNeed;
      if !e.manual {
        var need := NeedsExclusiveTick(before);
        LastSavedAppend(old(effects), PrefilterEffects(old(stored), before), INITIAL);
        if need != Needed(true) {
          return;
        }
      }
      match admission
      case Exclusive => ExclusiveBody(e);
      case SharedOnly => SharedBodyTick(e);
      case Refused =>
    }

    method Configure(c: Config, e: Env)
      requires Valid()
      modifies this
      ensures Valid() && effects == old(effects) + ConfigureEffects(old(stored), c, e)
    {
      hide Valid, Next;
      if !c.Valid() || (e.destination.None? && c.enabled) {
        return;
      }
      var next := NextBackupOccurrence(e.zone, c.schedule, e.now);
      var s := stored.(approval := e.destination);
      s := s.(config := c, nextAt := Some(next), timezone := e.zoneName);
      s := s.(pendingAt := None, pendingManual := false, retryAt := None);
      s := s.(outcome := if e.destination.Some? then Configured else Disabled);
      var ok := Save(s, e.endSave);
    }

    /** Runs on whatever settings row the restored database carries. */
    method SuspendAfterRestore(archived: State, result: SaveResult) returns (ok: bool)
      requires Valid()
      modifies this
      ensures Valid() && effects == old(effects) + SaveEffects(Quarantined(archived), result)
      ensures ok == result.Stored?
    {
      var s := archived.(approval := None);
      s := s.(pendingAt := None, pendingManual := false);
      s := s.(retryAt := None, temporary := None);
      s := s.(outcome := Suspended);
      ok := Save(s, result);
    }
  }
}
