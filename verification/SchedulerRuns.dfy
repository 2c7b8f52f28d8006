/**
  What holds over every run of the backup scheduler: no scheduled occurrence is exported twice,
  every export starts on time, and deferral is bounded.
 */
module SchedulerRuns {
  import opened Common
  import opened CivilTime
  import opened Scheduler

  /** A running account of a history: the stored state, the greatest occurrence exported so far,
      the deferrals recorded in the current pending episode and the time of the last of them, and
      whether every rule has been kept. */
  datatype Ledger = Ledger(stored: State, top: int, deferrals: nat, lastDeferral: int, sound: bool)

  const OPENING: Ledger := Ledger(INITIAL, ZERO_TIME, 0, ZERO_TIME, true)

  function Observe(l: Ledger, effect: Effect): Ledger {
    match effect
    case Saved(s) => l.(stored := s, deferrals := if s.pendingAt.None? then 0 else l.deferrals)
    case Exported(at, occurrence, scheduled) =>
      l.(top := if occurrence > l.top then occurrence else l.top,
         sound := l.sound && 0 <= at - occurrence < HOUR && (scheduled ==> occurrence > l.top))
    case Noted(note, at) =>
      if note.DeferredNote? then
        l.(deferrals := l.deferrals + 1, lastDeferral := at,
           sound := l.sound && l.deferrals < 12 && (l.deferrals > 0 ==> at >= l.lastDeferral + RETRY_DELAY))
      else l
  }

  function ObserveAll(l: Ledger, effects: seq<Effect>): Ledger
    decreases |effects|
  {
    if effects == [] then l else ObserveAll(Observe(l, effects[0]), effects[1..])
  }

  // ----- the invariant

  /** A state that may be stored while the ledger stands as it does. */
  ghost predicate Storable(s: State, l: Ledger, clock: int) {
    && (s.approval.Some? ==> s.nextAt.Some? && (s.nextAt.value == ZERO_TIME || s.nextAt.value > l.top))
    && (s.pendingAt.Some? && !s.outcome.Running? ==>
          && s.retryAt.Some?
          && l.deferrals * RETRY_DELAY <= s.retryAt.value - s.pendingAt.value < DEFERRAL_WINDOW + RETRY_DELAY
          && (l.deferrals > 0 ==> s.retryAt.value >= l.lastDeferral + RETRY_DELAY)
          && (s.approval.Some? ==> s.pendingAt.value <= clock && (!s.pendingManual ==> s.pendingAt.value > l.top)))
  }

  ghost predicate Inv(l: Ledger, clock: int) {
    && l.sound && ZERO_TIME <= l.top <= clock
    && Storable(l.stored, l, clock)
    && (l.stored.pendingAt.None? ==> l.deferrals == 0)
  }

  /** The invariant holds now and after each further effect: a crash anywhere leaves it intact. */
  ghost predicate Along(l: Ledger, effects: seq<Effect>, clock: int)
    decreases |effects|
  {
    Inv(l, clock) && (effects != [] ==> Along(Observe(l, effects[0]), effects[1..], clock))
  }

  lemma {:induction false} AlongAppend(l: Ledger, a: seq<Effect>, b: seq<Effect>, clock: int)
    requires Along(l, a, clock) && Along(ObserveAll(l, a), b, clock)
    ensures Along(l, a + b, clock)
    decreases |a|
  {
    if a == [] {
      assert a + b == b;
    } else {
      AlongAppend(Observe(l, a[0]), a[1..], b, clock);
      assert (a + b)[0] == a[0] && (a + b)[1..] == a[1..] + b;
    }
  }

  lemma {:induction false} AlongPrefix(l: Ledger, effects: seq<Effect>, cut: nat, clock: int)
    requires Along(l, effects, clock) && cut <= |effects|
    ensures Inv(ObserveAll(l, effects[..cut]), clock)
    decreases cut
  {
    if cut > 0 {
      AlongPrefix(Observe(l, effects[0]), effects[1..], cut - 1, clock);
      assert effects[..cut][1..] == effects[1..][..cut - 1];
    }
  }

  lemma AlongOne(l: Ledger, effect: Effect, clock: int)
    requires Inv(l, clock) && Inv(Observe(l, effect), clock)
    ensures Along(l, [effect], clock)
    ensures ObserveAll(l, [effect]) == Observe(l, effect)
  {
    assert Along(Observe(l, effect), [effect][1..], clock);
    assert ObserveAll(Observe(l, effect), [effect][1..]) == Observe(l, effect);
  }

  /** One effect, then more. */
  lemma AlongThen(l: Ledger, effect: Effect, rest: seq<Effect>, clock: int)
    requires Inv(l, clock) && Along(Observe(l, effect), rest, clock)
    ensures Along(l, [effect] + rest, clock)
  {
    assert ([effect] + rest)[1..] == rest;
  }

  lemma AlongSave(l: Ledger, s: State, result: SaveResult, clock: int)
    requires Inv(l, clock) && Storable(s, l, clock)
    ensures Along(l, SaveEffects(s, result), clock)
    ensures Inv(Observe(l, Saved(s)), clock)
  {
    assert Inv(Observe(l, Saved(s)), clock);
    if !result.Lost? {
      AlongOne(l, Saved(s), clock);
    }
  }

  // ----- every kind of step keeps the invariant

  ghost predicate Sane(e: Env) {
    e.now >= ZERO_TIME + HOUR
  }

  lemma SaveThenFailedNote(l: Ledger, s: State, result: SaveResult, at: int, clock: int)
    requires Inv(l, clock) && Storable(s, l, clock)
    ensures Along(l, SaveEffects(s, result) + [Noted(FailedNote, at)], clock)
  {
    var n := Noted(FailedNote, at);
    AlongSave(l, s, result, clock);
    if result.Lost? {
      AlongOne(l, n, clock);
      assert SaveEffects(s, result) + [n] == [n];
    } else {
      AlongOne(Observe(l, Saved(s)), n, clock);
      AlongThen(l, Saved(s), [n], clock);
    }
  }

  lemma EndKeeps(l: Ledger, s: State, e: Env)
    requires Inv(l, e.now) && Storable(s, l, e.now)
    ensures Along(l, EndEffects(s, e), e.now)
  {
    if e.endSave.Stored? {
      SaveThenFailedNote(l, s, e.endSave, e.now, e.now);
    } else {
      AlongSave(l, s, e.endSave, e.now);
      assert EndEffects(s, e) == SaveEffects(s, e.endSave);
    }
  }

  /** A state fit to be worked on: approved, not running, storable. */
  ghost predicate Workable(s: State, l: Ledger, e: Env) {
    Sane(e) && Inv(l, e.now) && Storable(s, l, e.now) && s.approval.Some? && !s.outcome.Running?
    && s.pendingAt == l.stored.pendingAt
  }

  lemma PostponeIsStorable(l: Ledger, s: State, e: Env)
    requires Workable(s, l, e)
    requires !e.manual && s.pendingAt.None? ==> e.now >= Parse(s.nextAt)
    requires s.pendingAt.Some? ==> e.now >= Parse(s.retryAt)
    ensures var p := Postpone(s, e);
            && Storable(p, l, e.now)
            && (p.outcome.Deferred? <==> p.pendingAt.Some?)
            && (p.outcome.Deferred? ==> Inv(Observe(Observe(l, Saved(p)), Noted(DeferredNote, e.now)), e.now))
  {
    hide Next;
  }

  lemma DeferKeeps(l: Ledger, s: State, e: Env)
    requires Workable(s, l, e)
    requires !e.manual && s.pendingAt.None? ==> e.now >= Parse(s.nextAt)
    ensures Along(l, DeferEffects(s, e), e.now)
  {
    hide Storable, Postpone;
    if s.pendingAt.Some? && e.now < Parse(s.retryAt) {
      return;
    }
    PostponeIsStorable(l, s, e);
    var p := Postpone(s, e);
    if !p.outcome.Deferred? {
      EndKeeps(l, p, e);
      assert DeferEffects(s, e) == EndEffects(p, e);
    } else if e.endSave.Stored? {
      AlongSave(l, p, e.endSave, e.now);
      var l' := Observe(l, Saved(p));
      AlongOne(l', Noted(DeferredNote, e.now), e.now);
      AlongThen(l, Saved(p), [Noted(DeferredNote, e.now)], e.now);
    } else {
      AlongSave(l, p, e.endSave, e.now);
      assert DeferEffects(s, e) == SaveEffects(p, e.endSave);
    }
  }

  lemma AlongSaveThen(l: Ledger, s: State, result: SaveResult, rest: seq<Effect>, clock: int)
    requires Inv(l, clock) && Storable(s, l, clock)
    requires result.Stored? ==> Along(Observe(l, Saved(s)), rest, clock)
    ensures Along(l, if result.Stored? then [Saved(s)] + rest else SaveEffects(s, result), clock)
  {
    AlongSave(l, s, result, clock);
    if result.Stored? {
      AlongThen(l, Saved(s), rest, clock);
    }
  }

  /** Storable whatever the ledger's exports: nothing pending, and a next occurrence past them all. */
  ghost predicate Settled(s: State, top: int) {
    && (s.pendingAt.None? || s.outcome.Running?)
    && (s.approval.Some? ==> s.nextAt.Some? && (s.nextAt.value == ZERO_TIME || s.nextAt.value > top))
  }

  lemma FinalKeeps(l: Ledger, done: State, e: Env)
    requires Inv(l, e.now) && Settled(done, l.top) && done.pendingAt.None?
    ensures Along(l, FinalEffects(done, e), e.now)
  {
    AlongSave(l, done, e.finalSave, e.now);
    if e.finalSave.Stored? {
      var n := Noted(if done.outcome.Succeeded? then SucceededNote else FailedNote, e.now);
      var l' := Observe(l, Saved(done));
      var tail := CloseEffects(done, e);
      assert Storable(done.(outcome := Failed), l', e.now);
      SaveThenFailedNote(l', done.(outcome := Failed), e.closeSave, e.now, e.now);
      AlongThen(l', n, tail, e.now);
      AlongThen(l, Saved(done), [n] + tail, e.now);
      assert FinalEffects(done, e) == [Saved(done)] + ([n] + tail);
    }
  }

  lemma FinishKeeps(l: Ledger, claimed: State, e: Env)
    requires Inv(l, e.now) && Settled(claimed, l.top) && claimed.outcome.Running?
    ensures Along(l, FinishEffects(claimed, e), e.now)
  {
    var done := Finish(claimed, e);
    if e.published && !e.ownSave.Lost? {
      var kept := claimed.(temporary := None);
      AlongSave(l, kept, e.ownSave, e.now);
      FinalKeeps(Observe(l, Saved(kept)), done, e);
      AlongThen(l, Saved(kept), FinalEffects(done, e), e.now);
    } else {
      FinalKeeps(l, done, e);
      assert FinishEffects(claimed, e) == FinalEffects(done, e);
    }
  }

  lemma ClaimKeeps(l: Ledger, s: State, e: Env)
    requires Workable(s, l, e)
    requires s.pendingAt.Some? ==> e.now - s.pendingAt.value < DEFERRAL_WINDOW
    requires !e.manual && s.pendingAt.None? ==> 0 <= e.now - Parse(s.nextAt) < DEFERRAL_WINDOW
    ensures Along(l, ClaimEffects(s, e), e.now)
  {
    var claimed := Claim(s, e);
    AlongSave(l, claimed, e.claimSave, e.now);
    if e.hasEntropy && e.claimSave.Stored? {
      var x := Exported(e.now, Parse(claimed.pendingAt), !claimed.pendingManual);
      var l' := Observe(l, Saved(claimed));
      var l'' := Observe(l', x);
      assert Inv(l'', e.now) by { hide Next; }
      FinishKeeps(l'', claimed, e);
      AlongThen(l', x, FinishEffects(claimed, e), e.now);
      AlongThen(l, Saved(claimed), ExportEffects(claimed, e), e.now);
    }
  }

  lemma DueKeeps(l: Ledger, s: State, e: Env)
    requires Sane(e) && Inv(l, e.now) && Storable(s, l, e.now) && !s.outcome.Running?
    requires s.pendingAt == l.stored.pendingAt && !NotYetDue(s, e)
    ensures Along(l, DueEffects(s, e), e.now)
  {
    if !Approved(s, e.laterDestination) {
      assert Storable(Suspend(s, e), l, e.now);
      SaveThenFailedNote(l, Suspend(s, e), e.suspendSave, e.now, e.now);
    } else if s.temporary.None? || e.laterCleans {
      var t := s.(temporary := None);
      if t.pendingAt.Some? && e.now - Parse(t.pendingAt) >= DEFERRAL_WINDOW {
        EndKeeps(l, Expire(t, e), e);
      } else if !e.manual && t.pendingAt.None? && e.now - Parse(t.nextAt) >= DEFERRAL_WINDOW {
        EndKeeps(l, Miss(t, e), e);
      } else if e.activeWork {
        DeferKeeps(l, t, e);
      } else {
        ClaimKeeps(l, t, e);
      }
    }
  }

  lemma RecoverKeeps(l: Ledger, s: State, e: Env)
    requires Sane(e) && Inv(l, e.now) && Storable(s, l, e.now) && s.pendingAt == l.stored.pendingAt
    ensures Along(l, RecoverEffects(s, e), e.now)
  {
    hide DueEffects;
    var r := if s.outcome.Running? then Recovered(s) else s;
    var l' := if s.outcome.Running? then Observe(l, Saved(r)) else l;
    AlongSave(l, r, e.recoverSave, e.now);
    if !(Unattended(r, e) || NotYetDue(r, e)) {
      DueKeeps(l', r, e);
    }
    assert Along(l', GuardedEffects(r, e), e.now);
    if s.outcome.Running? && e.recoverSave.Stored? {
      var n := Noted(FailedNote, e.now);
      AlongThen(l', n, GuardedEffects(r, e), e.now);
      AlongThen(l, Saved(r), [n] + GuardedEffects(r, e), e.now);
      assert RecoverEffects(s, e) == [Saved(r)] + ([n] + GuardedEffects(r, e));
    }
  }

  lemma CleanKeeps(l: Ledger, s: State, e: Env)
    requires Sane(e) && Inv(l, e.now) && Storable(s, l, e.now) && s.pendingAt == l.stored.pendingAt
    ensures Along(l, CleanEffects(s, e), e.now)
  {
    hide RecoverEffects;
    if s.temporary.None? || e.destination.None? {
      RecoverKeeps(l, s, e);
    } else if !Approved(s, e.destination) || e.cleans {
      var t := if Approved(s, e.destination) then s.(temporary := None) else s;
      AlongSave(l, t, e.cleanSave, e.now);
      RecoverKeeps(Observe(l, Saved(t)), t, e);
      AlongSaveThen(l, t, e.cleanSave, RecoverEffects(t, e), e.now);
    }
  }

  lemma RebaseKeeps(l: Ledger, s: State, e: Env, rest: seq<Effect>)
    requires Inv(l, e.now) && Storable(s, l, e.now)
    requires Along(if s.timezone == e.zoneName then l else Observe(l, Saved(Rebased(s, e))), rest, e.now)
    ensures Along(l, RebaseEffects(s, e) + if RebaseFails(s, e) then [] else rest, e.now)
    ensures Along(l, RebaseEffects(s, e), e.now)
  {
    var r := Rebased(s, e);
    assert [] + rest == rest;
    if s.timezone != e.zoneName {
      AlongSave(l, r, e.rebaseSave, e.now);
      AlongSaveThen(l, r, e.rebaseSave, rest, e.now);
      assert SaveEffects(r, e.rebaseSave) + [] == SaveEffects(r, e.rebaseSave);
    }
  }

  lemma RebasedIsStorable(l: Ledger, s: State, e: Env)
    requires Inv(l, e.now) && Storable(s, l, e.now) && s.pendingAt == l.stored.pendingAt
    ensures var l' := if s.timezone == e.zoneName then l else Observe(l, Saved(Rebased(s, e)));
            Inv(l', e.now) && Storable(Rebased(s, e), l', e.now) && Rebased(s, e).pendingAt == l'.stored.pendingAt
  {
    hide Next;
  }

  lemma ExclusiveKeeps(l: Ledger, e: Env)
    requires Sane(e) && Inv(l, e.now)
    ensures Along(l, ExclusiveEffects(l.stored, e), e.now)
  {
    hide CleanEffects;
    var s := l.stored;
    var l' := if s.timezone == e.zoneName then l else Observe(l, Saved(Rebased(s, e)));
    RebasedIsStorable(l, s, e);
    CleanKeeps(l', Rebased(s, e), e);
    RebaseKeeps(l, s, e, CleanEffects(Rebased(s, e), e));
  }

  lemma SharedBodyKeeps(l: Ledger, s: State, e: Env)
    requires Sane(e) && Inv(l, e.now) && Storable(s, l, e.now) && !s.outcome.Running?
    requires s.pendingAt == l.stored.pendingAt
    ensures Along(l, SharedBody(s, e), e.now)
  {
    hide DeferEffects;
    if Unattended(s, e) || (e.manual && !Approved(s, e.destination)) {
      return;
    }
    var r := Rebased(s, e);
    var l' := if s.timezone == e.zoneName then l else Observe(l, Saved(r));
    RebasedIsStorable(l, s, e);
    var rest := if !e.manual && e.now < Parse(r.nextAt) && r.pendingAt.None? then [] else DeferEffects(r, e);
    if rest != [] {
      DeferKeeps(l', r, e);
    }
    RebaseKeeps(l, s, e, rest);
  }

  lemma SharedKeeps(l: Ledger, e: Env)
    requires Sane(e) && Inv(l, e.now)
    ensures Along(l, SharedEffects(l.stored, e), e.now)
  {
    hide SharedBody;
    var s := l.stored;
    if !s.outcome.Running? {
      SharedBodyKeeps(l, s, e);
    } else {
      var r := Recovered(s);
      AlongSave(l, r, e.recoverSave, e.now);
      if e.recoverSave.Stored? {
        var n := Noted(FailedNote, e.now);
        var l' := Observe(l, Saved(r));
        SharedBodyKeeps(l', r, e);
        AlongThen(l', n, SharedBody(r, e), e.now);
        AlongThen(l, Saved(r), [n] + SharedBody(r, e), e.now);
        assert SharedEffects(s, e) == [Saved(r)] + ([n] + SharedBody(r, e));
      }
    }
  }

  lemma EventKeeps(l: Ledger, event: Event)
    requires Sane(event.e) && Inv(l, event.e.now)
    ensures Along(l, Effects(l.stored, event), event.e.now)
  {
    hide ExclusiveEffects, SharedEffects;
    match event
    case ExclusiveTick(e) => ExclusiveKeeps(l, e);
    case SharedTick(e) => SharedKeeps(l, e);
    case Prefilter(e) =>
      RebasedIsStorable(l, l.stored, e);
      RebaseKeeps(l, l.stored, e, []);
    case Configure(e, c) =>
      assert Storable(Reconfigured(l.stored, c, e), l, e.now) by { hide Next; }
      AlongSave(l, Reconfigured(l.stored, c, e), e.endSave, e.now);
    case Restored(e, archived) =>
      AlongSave(l, Quarantined(archived), Stored, e.now);
  }

  lemma {:induction false} ObserveAppend(l: Ledger, a: seq<Effect>, b: seq<Effect>)
    ensures ObserveAll(l, a + b) == ObserveAll(ObserveAll(l, a), b)
    decreases |a|
  {
    if a == [] {
      assert a + b == b;
    } else {
      ObserveAppend(Observe(l, a[0]), a[1..], b);
      assert (a + b)[1..] == a[1..] + b;
    }
  }

  lemma {:induction false} LedgerKnowsStored(l: Ledger, effects: seq<Effect>)
    ensures ObserveAll(l, effects).stored == LastSaved(effects, l.stored)
    decreases |effects|
  {
    if effects != [] {
      LedgerKnowsStored(Observe(l, effects[0]), effects[1..]);
    }
  }

  /** The invariant survives every run: ticks, manual runs, reconfiguration, restores, zone changes,
      lost saves and crashes at any point. */
  lemma {:induction false} RunKeeps(l: Ledger, steps: seq<Step>, clock: int)
    requires Inv(l, clock) && Chronological(steps)
    requires steps != [] ==> clock <= steps[0].event.e.now
    ensures ObserveAll(l, History(l.stored, steps)).sound
    decreases |steps|
  {
    hide Effects;
    if steps != [] {
      var now := steps[0].event.e.now;
      var done := StepEffects(l.stored, steps[0]);
      var all := Effects(l.stored, steps[0].event);
      EventKeeps(l, steps[0].event);
      AlongPrefix(l, all, |done|, now);
      assert done == all[..|done|];
      var l' := ObserveAll(l, done);
      LedgerKnowsStored(l, done);
      RunKeeps(l', steps[1..], now);
      ObserveAppend(l, done, History(l'.stored, steps[1..]));
    }
  }

  // ----- what a sound ledger says about the history itself

  /** Every export starts within the hour that follows its occurrence. */
  ghost predicate OnTime(history: seq<Effect>) {
    forall i :: 0 <= i < |history| && history[i].Exported? ==> 0 <= history[i].at - history[i].occurrence < HOUR
  }

  /** A scheduled export is for a later occurrence than everything exported before it. */
  ghost predicate OccurrencesIncrease(history: seq<Effect>) {
    forall i, j :: 0 <= i < j < |history| && history[i].Exported? && history[j].Exported? && history[j].scheduled ==>
      history[i].occurrence < history[j].occurrence
  }

  lemma {:induction false} SoundExports(l: Ledger, history: seq<Effect>)
    requires ObserveAll(l, history).sound
    ensures l.sound && OnTime(history) && OccurrencesIncrease(history)
    ensures forall j :: 0 <= j < |history| && history[j].Exported? && history[j].scheduled ==> history[j].occurrence > l.top
    decreases |history|
  {
    if history != [] {
      var rest := history[1..];
      var l' := Observe(l, history[0]);
      SoundExports(l', rest);
      forall i | 0 <= i < |history| && history[i].Exported?
        ensures 0 <= history[i].at - history[i].occurrence < HOUR
        ensures history[i].scheduled ==> history[i].occurrence > l.top
      {
        assert i > 0 ==> history[i] == rest[i - 1];
      }
      forall i, j | 0 <= i < j < |history| && history[i].Exported? && history[j].Exported? && history[j].scheduled
        ensures history[i].occurrence < history[j].occurrence
      {
        assert history[j] == rest[j - 1];
        assert i > 0 ==> history[i] == rest[i - 1];
      }
    }
  }

  predicate IsDeferral(effect: Effect) {
    effect.Noted? && effect.note.DeferredNote?
  }

  predicate EndsEpisode(effect: Effect) {
    effect.Saved? && effect.state.pendingAt.None?
  }

  /** Deferrals recorded since the pending episode began. */
  function EpisodeDeferrals(history: seq<Effect>): nat {
    if history == [] then 0
    else
      var last := history[|history| - 1];
      if EndsEpisode(last) then 0
      else EpisodeDeferrals(history[..|history| - 1]) + if IsDeferral(last) then 1 else 0
  }

  /** Deferral `i` belongs to the pending episode that is still open at position `j`. */
  ghost predicate OpenSince(history: seq<Effect>, i: nat, j: nat)
    requires j <= |history|
  {
    i < j && IsDeferral(history[i]) && forall k :: i < k < j ==> !EndsEpisode(history[k])
  }

  /** At most twelve deferrals in an episode, at least five minutes apart. */
  ghost predicate DeferralsBounded(history: seq<Effect>) {
    && (forall j :: 0 <= j <= |history| ==> EpisodeDeferrals(history[..j]) <= 12)
    && (forall i, j :: 0 <= i < j < |history| && OpenSince(history, i, j) && IsDeferral(history[j]) ==>
          history[j].at >= history[i].at + RETRY_DELAY)
  }

  lemma LastStep(history: seq<Effect>)
    requires history != []
    ensures var prefix, last := history[..|history| - 1], history[|history| - 1];
            ObserveAll(OPENING, history) == Observe(ObserveAll(OPENING, prefix), last)
  {
    var prefix, last := history[..|history| - 1], history[|history| - 1];
    assert history == prefix + [last];
    ObserveAppend(OPENING, prefix, [last]);
    assert ObserveAll(ObserveAll(OPENING, prefix), [last]) == Observe(ObserveAll(OPENING, prefix), last) by {
      assert [last][1..] == [];
    }
  }

  lemma SoundPrefix(history: seq<Effect>, j: nat)
    requires ObserveAll(OPENING, history).sound && j <= |history|
    ensures ObserveAll(OPENING, history[..j]).sound
  {
    assert history == history[..j] + history[j..];
    ObserveAppend(OPENING, history[..j], history[j..]);
    SoundExports(ObserveAll(OPENING, history[..j]), history[j..]);
  }

  lemma {:induction false} LedgerCountsDeferrals(history: seq<Effect>)
    requires ObserveAll(OPENING, history).sound
    ensures ObserveAll(OPENING, history).deferrals == EpisodeDeferrals(history) <= 12
    decreases |history|
  {
    if history != [] {
      LastStep(history);
      SoundPrefix(history, |history| - 1);
      LedgerCountsDeferrals(history[..|history| - 1]);
    }
  }

  lemma {:induction false} LedgerRemembersDeferrals(history: seq<Effect>, i: nat)
    requires ObserveAll(OPENING, history).sound && OpenSince(history, i, |history|)
    ensures ObserveAll(OPENING, history).deferrals > 0
    ensures ObserveAll(OPENING, history).lastDeferral >= history[i].at
    decreases |history|
  {
    var n := |history| - 1;
    LastStep(history);
    if i < n {
      SoundPrefix(history, n);
      LedgerRemembersDeferrals(history[..n], i);
    }
  }

  lemma SoundDeferrals(history: seq<Effect>)
    requires ObserveAll(OPENING, history).sound
    ensures DeferralsBounded(history)
  {
    forall j | 0 <= j <= |history| ensures EpisodeDeferrals(history[..j]) <= 12 {
      SoundPrefix(history, j);
      LedgerCountsDeferrals(history[..j]);
    }
    forall i, j | 0 <= i < j < |history| && OpenSince(history, i, j) && IsDeferral(history[j])
      ensures history[j].at >= history[i].at + RETRY_DELAY
    {
      var upTo := history[..j + 1];
      SoundPrefix(history, j + 1);
      SoundPrefix(history, j);
      LastStep(upTo);
      assert upTo[..j] == history[..j];
      LedgerRemembersDeferrals(history[..j], i);
    }
  }

  /** The central promise: over any run from a fresh installation under a clock that never runs
      backwards, no scheduled occurrence is exported twice or out of order, every export is on
      time, and every deferral episode is bounded. */
  lemma EveryRunIsSound(steps: seq<Step>)
    requires Chronological(steps)
    ensures OnTime(History(INITIAL, steps))
    ensures OccurrencesIncrease(History(INITIAL, steps))
    ensures DeferralsBounded(History(INITIAL, steps))
  {
    hide DeferralsBounded, OnTime, OccurrencesIncrease;
    RunKeeps(OPENING, steps, ZERO_TIME);
    SoundExports(OPENING, History(INITIAL, steps));
    SoundDeferrals(History(INITIAL, steps));
  }
}
