/**
  How the cheap check under a shared lease relates to the tick it stands in front of, and when a
  tick really exports.
 */
module SchedulerAdmission {
  import opened Common
  import opened CivilTime
  import opened Scheduler

  /** Everything the tick tries succeeds. */
  ghost predicate Healthy(e: Env) {
    && e.rebaseSave.Stored? && e.cleanSave.Stored? && e.recoverSave.Stored? && e.suspendSave.Stored?
    && e.endSave.Stored? && e.claimSave.Stored? && e.cleans && e.laterCleans && e.hasEntropy
  }

  /** A temporary archive is left over, the approved destination is not there to remove it from, and
      nothing else is due. */
  ghost predicate Stranded(s: State, e: Env) {
    var r := Rebased(s, e);
    s.temporary.Some? && !Approved(r, e.destination) && !s.outcome.Running? && (Unattended(r, e) || NotYetDue(r, e))
  }

  /** Something is exported or recorded. */
  ghost predicate Acts(effects: seq<Effect>) {
    exists i :: 0 <= i < |effects| && (effects[i].Exported? || effects[i].Noted?)
  }

  /** The exclusive tick exports nothing, records nothing, and leaves stored what the time-zone rebase
      alone would: saving the same state again does not count. */
  ghost predicate Idle(s: State, e: Env) {
    !Acts(ExclusiveEffects(s, e)) && LastSaved(ExclusiveEffects(s, e), s) == LastSaved(RebaseEffects(s, e), s)
  }

  /** When the check turns a tick away, that tick would have done nothing at all beyond the rebase,
      whatever else fails. */
  lemma PrefilterNeverHidesWork(s: State, e: Env)
    requires !e.manual && PrefilterNeed(s, e) == Needed(false)
    ensures ExclusiveEffects(s, e) == RebaseEffects(s, e) && Idle(s, e)
  {
    hide DueEffects;
    var r := Rebased(s, e);
    assert CleanEffects(r, e) == [];
  }

  lemma DueActs(s: State, e: Env)
    requires !e.manual && Healthy(e) && !NotYetDue(s, e)
    ensures Acts(DueEffects(s, e))
  {
    hide Next;
    if !Approved(s, e.laterDestination) {
      assert DueEffects(s, e)[1].Noted?;
    } else {
      var t := s.(temporary := None);
      assert EndEffects(Expire(t, e), e)[1].Noted? && EndEffects(Miss(t, e), e)[1].Noted?;
      assert e.activeWork ==> DeferEffects(t, e)[1].Noted?;
      assert ClaimEffects(t, e)[1].Exported?;
    }
  }

  lemma ActsAfter(a: seq<Effect>, b: seq<Effect>)
    requires Acts(b)
    ensures Acts(a + b)
  {
    var i :| 0 <= i < |b| && (b[i].Exported? || b[i].Noted?);
    assert (a + b)[|a| + i] == b[i];
  }

  lemma ActsBefore(a: seq<Effect>, b: seq<Effect>)
    requires Acts(a)
    ensures Acts(a + b)
  {
    var i :| 0 <= i < |a| && (a[i].Exported? || a[i].Noted?);
    assert (a + b)[i] == a[i];
  }

  /** A tick that is due acts, and so does one that finds a run interrupted. */
  lemma RecoverActs(s: State, e: Env)
    requires !e.manual && Healthy(e)
    ensures Acts(RecoverEffects(s, e)) <==> s.outcome.Running? || !(Unattended(s, e) || NotYetDue(s, e))
    ensures !Acts(RecoverEffects(s, e)) ==> RecoverEffects(s, e) == []
  {
    hide DueEffects;
    if s.outcome.Running? {
      var first := [Saved(Recovered(s)), Noted(FailedNote, e.now)];
      assert first[1].Noted?;
      ActsBefore(first, GuardedEffects(Recovered(s), e));
    } else if !(Unattended(s, e) || NotYetDue(s, e)) {
      DueActs(s, e);
    }
  }

  /** What an exclusive tick does after its rebase: it acts, or at most saves. */
  lemma CleanActs(s: State, e: Env)
    requires !e.manual && Healthy(e)
    ensures !Acts(CleanEffects(s, e)) ==>
              !s.outcome.Running? && (Unattended(s, e) || NotYetDue(s, e))
              && (CleanEffects(s, e) == [] || CleanEffects(s, e) == [Saved(if Approved(s, e.destination) then s.(temporary := None) else s)])
    ensures (!s.outcome.Running? && (Unattended(s, e) || NotYetDue(s, e))) ==> !Acts(CleanEffects(s, e))
    ensures s.temporary.Some? && Approved(s, e.destination) && CleanEffects(s, e) != [] ==> CleanEffects(s, e)[0] == Saved(s.(temporary := None))
    ensures s.temporary.Some? && Approved(s, e.destination) ==> CleanEffects(s, e) != []
    ensures s.temporary.None? && !Acts(CleanEffects(s, e)) ==> CleanEffects(s, e) == []
  {
    hide RecoverEffects;
    RecoverActs(s, e);
    var t := if Approved(s, e.destination) then s.(temporary := None) else s;
    RecoverActs(t, e);
    if Acts(RecoverEffects(t, e)) {
      ActsAfter([Saved(t)], RecoverEffects(t, e));
    }
  }

  /** The check and the tick agree exactly, except on a stranded temporary archive: then the check
      asks for an exclusive tick that has nothing it can do. */
  lemma PrefilterIsExact(s: State, e: Env)
    requires !e.manual && Healthy(e)
    ensures (PrefilterNeed(s, e) == Needed(false) <==> Idle(s, e)) <==> !Stranded(s, e)
  {
    var r := Rebased(s, e);
    CleanActs(r, e);
    RebaseThenClean(s, e);
    hide RebaseEffects, CleanEffects, ExclusiveEffects, Acts, NextStamp;
  }

  lemma RebaseThenClean(s: State, e: Env)
    requires Healthy(e)
    ensures var r, more := Rebased(s, e), CleanEffects(Rebased(s, e), e);
            && (Acts(ExclusiveEffects(s, e)) <==> Acts(more))
            && LastSaved(RebaseEffects(s, e), s) == r
            && (more == [] ==> LastSaved(ExclusiveEffects(s, e), s) == r)
            && (|more| == 1 && more[0].Saved? ==> LastSaved(ExclusiveEffects(s, e), s) == more[0].state)
  {
    hide CleanEffects, Rebased;
    var more := CleanEffects(Rebased(s, e), e);
    var rebase := RebaseEffects(s, e);
    assert ExclusiveEffects(s, e) == rebase + more;
    if Acts(more) {
      ActsAfter(rebase, more);
    }
    LastSavedAppend(rebase, more, s);
    if |more| <= 1 {
      NothingSaved(more, Rebased(s, e));
    }
    NothingSaved(rebase, s);
    UnchangedZone(s, e);
  }

  lemma UnchangedZone(s: State, e: Env)
    ensures RebaseEffects(s, e) == [] && !RebaseFails(s, e) && e.rebaseSave.Stored? ==> Rebased(s, e) == s
  {
  }

  lemma NothingSaved(effects: seq<Effect>, s: State)
    requires |effects| <= 1
    ensures LastSaved(effects, s) == if effects != [] && effects[0].Saved? then effects[0].state else s
  {
    if effects != [] {
      assert effects[1..] == [];
    }
  }

  /** Stranded archives exist, whether the destination is out of reach or not the approved one: the
      disagreement is real. */
  lemma StrandedExample(zone: Zone, destination: Option<string>) returns (s: State, e: Env)
    ensures !e.manual && Healthy(e) && e.destination == destination && Stranded(s, e)
    ensures PrefilterNeed(s, e) == Needed(true) && Idle(s, e)
  {
    hide Next;
    s := INITIAL.(timezone := "UTC", temporary := Some("slu-auto-left.slubkp.tmp"));
    e := Env(false, 0, zone, "UTC", destination, None, true, true, true, false, true, "", false, false, 0, true, false,
             Stored, Stored, Stored, Stored, Stored, Stored, Stored, Stored, Stored);
    PrefilterIsExact(s, e);
  }

  /** A deferral that is evaluated an hour or more after its occurrence ends the episode, and no
      deferral ever exports. */
  lemma LateDeferralEndsEpisode(s: State, e: Env)
    requires e.now >= ZERO_TIME + HOUR && !(s.pendingAt.Some? && e.now < Parse(s.retryAt))
    ensures e.now - Parse(Pend(s, e).pendingAt) >= DEFERRAL_WINDOW <==> Postpone(s, e).pendingAt.None?
    ensures Postpone(s, e).pendingAt.None? ==> Postpone(s, e).retryAt.None? && Postpone(s, e).outcome.Failed?
    ensures Postpone(s, e).pendingAt.Some? ==> Postpone(s, e).retryAt == Some(e.now + RETRY_DELAY)
    ensures forall i :: 0 <= i < |DeferEffects(s, e)| ==> !DeferEffects(s, e)[i].Exported?
  {
    hide Next;
  }

  /** A healthy tick exports the due occurrence, having first stored the claim and moved the
      schedule on; a crash from then on finds the occurrence already claimed. */
  lemma DueOccurrenceIsExported(s: State, e: Env)
    requires Healthy(e) && s.timezone == e.zoneName && s.temporary.None? && !s.outcome.Running?
    requires Approved(s, e.laterDestination) && !e.activeWork
    requires e.manual || (s.config.enabled && !NotYetDue(s, e))
    requires e.now - Parse(Pend(s, e).pendingAt) < DEFERRAL_WINDOW
    ensures var claimed := Claim(s, e);
            && |ExclusiveEffects(s, e)| >= 2
            && ExclusiveEffects(s, e)[0] == Saved(claimed)
            && ExclusiveEffects(s, e)[1] == Exported(e.now, Parse(Pend(s, e).pendingAt), !Pend(s, e).pendingManual)
            && claimed.outcome.Running? && claimed.nextAt == Some(Next(e.zone, s.config.schedule, e.now))
  {
    hide Next, FinishEffects;
    assert s.(temporary := None) == s;
    assert CleanEffects(s, e) == ClaimEffects(s, e);
  }
}
