/**
  Counting second-factor attempts when the counter may be replaced by an older one. The checks that
  got through are logged; what a restored counter has already counted is written into the log of its
  window as placeholders, so that the log reads as one a limiter could have left.
 */
module Tallies {
  import opened Common
  import opened Windows
  import opened Factors

  /** At most twenty checks in any ten minutes. */
  ghost predicate Limited(log: seq<Entry>) {
    forall i, j :: 0 <= i && i + 20 <= j < |log| ==> log[j].at - log[i].at > ATTEMPT_WINDOW
  }

  ghost predicate Ordered(log: seq<Entry>) {
    forall i, j :: 0 <= i < j < |log| ==> log[i].at <= log[j].at
  }

  ghost predicate Until(log: seq<Entry>, now: int) {
    forall i :: 0 <= i < |log| ==> log[i].at <= now
  }

  /** How many checks came at `from` or later. */
  function CountFrom(log: seq<Entry>, from: int): nat {
    if log == [] then 0
    else CountFrom(log[..|log| - 1], from) + if log[|log| - 1].at >= from then 1 else 0
  }

  /** They are the last ones of the log. */
  lemma {:induction false} CountedAtTheEnd(log: seq<Entry>, from: int)
    requires Ordered(log)
    ensures CountFrom(log, from) <= |log|
    ensures forall k :: 0 <= k < |log| ==> (log[k].at >= from <==> |log| - k <= CountFrom(log, from))
  {
    if log != [] {
      CountedAtTheEnd(log[..|log| - 1], from);
    }
  }

  // ----- counters

  predicate WindowOver(a: Option<Attempts>, now: int) {
    a.None? || a.value.windowUntil <= now
  }

  /** How much of its limit a counter has used, and since when, at `now`. */
  function Credit(a: Option<Attempts>, now: int): (c: nat)
    ensures c <= MAX_ATTEMPTS
  {
    if WindowOver(a, now) then 0 else if a.value.count < MAX_ATTEMPTS then a.value.count else MAX_ATTEMPTS
  }

  function Origin(a: Option<Attempts>, now: int): int {
    if WindowOver(a, now) then now else a.value.windowUntil - ATTEMPT_WINDOW
  }

  /** The counter accounts for enough of what is in the log: for the checks since its window began,
      and, together with ten more, for those of the last ten minutes. */
  predicate LimitKept(log: seq<Entry>, a: Option<Attempts>, now: int) {
    && CountFrom(log, Origin(a, now)) <= Credit(a, now)
    && CountFrom(log, now - ATTEMPT_WINDOW) <= MAX_ATTEMPTS + Credit(a, now)
  }

  /** All windows counted so far are over. */
  ghost predicate Quiet(log: seq<Entry>, clock: int) {
    forall i :: 0 <= i < |log| ==> log[i].start + ATTEMPT_WINDOW <= clock
  }

  /** The counter speaks for the window it is in. */
  ghost predicate CounterSpeaks(log: seq<Entry>, a: Attempts, clock: int) {
    var start := a.windowUntil - ATTEMPT_WINDOW;
    start <= clock && Counted(log, start, a.count) && Over(log, start, ATTEMPT_WINDOW)
  }

  ghost predicate ChecksSound(log: seq<Entry>, a: Option<Attempts>, clock: int) {
    && Windowed(log, MAX_ATTEMPTS, ATTEMPT_WINDOW)
    && (forall i :: 0 <= i < |log| ==> log[i].at < log[i].start + ATTEMPT_WINDOW)
    && ((WindowOver(a, clock) && Quiet(log, clock)) || (a.Some? && CounterSpeaks(log, a.value, clock)))
  }

  lemma LaterChecks(log: seq<Entry>, a: Option<Attempts>, clock: int, later: int)
    requires ChecksSound(log, a, clock) && clock <= later
    ensures ChecksSound(log, a, later)
    ensures WindowOver(a, later) ==> Quiet(log, later)
  {
  }

  function Grown(log: seq<Entry>, a: Attempts, now: nat): seq<Entry> {
    if a.count > MAX_ATTEMPTS then log else log + [Entry(now, a.windowUntil - ATTEMPT_WINDOW)]
  }

  lemma CountingKeepsChecks(log: seq<Entry>, row: Account, now: nat, clock: int)
    requires ChecksSound(log, row.attempts, clock) && clock <= now
    ensures var a := CountAttempt(row, now).attempts; ChecksSound(Grown(log, a.value, now), a, now)
  {
    LaterChecks(log, row.attempts, clock, now);
    var a := CountAttempt(row, now).attempts.value;
    var start, before := a.windowUntil - ATTEMPT_WINDOW, a.count - 1;
    assert Counted(log, start, before) && Over(log, start, ATTEMPT_WINDOW);
    if before < MAX_ATTEMPTS {
      AdmitKeeps(log, now, start, before, MAX_ATTEMPTS, ATTEMPT_WINDOW);
    }
  }

  // ----- tallies

  /** `before` are the checks before the last restore, at time `at`; `log` begins with `credit`
      placeholders in the window that began at `origin`, then come the checks since. */
  datatype Tally = Tally(before: seq<Entry>, credit: nat, origin: int, at: nat, log: seq<Entry>)

  const BLANK: Tally := Tally([], 0, 0, 0, [])

  function Since(t: Tally): seq<Entry> {
    if t.credit <= |t.log| then t.log[t.credit..] else []
  }

  /** All checks that got through. */
  function All(t: Tally): seq<Entry> {
    t.before + Since(t)
  }

  function Placeholders(n: nat, start: int): seq<Entry> {
    seq(n, i => Entry(start, start))
  }

  function AfterRestore(t: Tally, a: Option<Attempts>, now: nat): Tally {
    Tally(All(t), Credit(a, now), Origin(a, now), now, Placeholders(Credit(a, now), Origin(a, now)))
  }

  /** The shape of the log: placeholders first, then checks of this time; the counter's window is
      not older than the placeholders'. */
  ghost predicate Shaped(t: Tally, a: Option<Attempts>, clock: int) {
    && t.credit <= |t.log| && t.origin <= t.at <= clock && t.at < t.origin + ATTEMPT_WINDOW
    && (forall k :: 0 <= k < |t.log| ==> t.log[k].start >= t.origin)
    && (forall k :: t.credit <= k < |t.log| ==> t.at <= t.log[k].at <= clock)
    && (forall i, j :: t.credit <= i < j < |t.log| ==> t.log[i].at <= t.log[j].at)
    && (WindowOver(a, clock) || a.value.windowUntil - ATTEMPT_WINDOW >= t.origin)
  }

  ghost predicate TallySound(t: Tally, a: Option<Attempts>, clock: int) {
    Shaped(t, a, clock) && ChecksSound(t.log, a, clock) && Ordered(t.before) && Until(t.before, t.at)
  }

  lemma LaterTally(t: Tally, a: Option<Attempts>, clock: int, later: int)
    requires TallySound(t, a, clock) && clock <= later
    ensures TallySound(t, a, later)
  {
    LaterChecks(t.log, a, clock, later);
  }

  lemma CountedAttempt(row: Account, now: nat)
    ensures var a := CountAttempt(row, now).attempts;
            a.Some? && a.value.windowUntil == if WindowOver(row.attempts, now) then now + ATTEMPT_WINDOW else row.attempts.value.windowUntil
  {
  }

  lemma GrowingKeepsShape(t: Tally, live: Option<Attempts>, a: Attempts, now: nat)
    requires Shaped(t, live, now)
    requires a.windowUntil == if WindowOver(live, now) then now + ATTEMPT_WINDOW else live.value.windowUntil
    ensures Shaped(t.(log := Grown(t.log, a, now)), Some(a), now)
    ensures All(t.(log := Grown(t.log, a, now))) == Grown(All(t), a, now)
  {
    if a.count <= MAX_ATTEMPTS {
      var more := Entry(now, a.windowUntil - ATTEMPT_WINDOW);
      assert (t.log + [more])[t.credit..] == t.log[t.credit..] + [more];
      assert t.before + (t.log[t.credit..] + [more]) == (t.before + t.log[t.credit..]) + [more];
    }
  }

  lemma CountingKeepsTally(t: Tally, row: Account, now: nat, clock: int)
    requires TallySound(t, row.attempts, clock) && clock <= now
    ensures var a := CountAttempt(row, now).attempts; TallySound(t.(log := Grown(t.log, a.value, now)), a, now)
    ensures var a := CountAttempt(row, now).attempts; All(t.(log := Grown(t.log, a.value, now))) == Grown(All(t), a.value, now)
  {
    CountingKeepsChecks(t.log, row, now, clock);
    LaterTally(t, row.attempts, clock, now);
    CountedAttempt(row, now);
    var a := CountAttempt(row, now).attempts.value;
    hide ChecksSound, CountAttempt;
    GrowingKeepsShape(t, row.attempts, a, now);
  }

  lemma TallyIsOrdered(t: Tally, a: Option<Attempts>, clock: int)
    requires TallySound(t, a, clock)
    ensures Ordered(All(t)) && Until(All(t), clock)
  {
    hide ChecksSound;
  }

  lemma RestoringKeepsTally(t: Tally, live: Option<Attempts>, a: Option<Attempts>, now: nat)
    requires TallySound(t, live, now) && (a.Some? ==> a.value.windowUntil <= now + ATTEMPT_WINDOW)
    ensures TallySound(AfterRestore(t, a, now), a, now) && All(AfterRestore(t, a, now)) == All(t)
  {
    TallyIsOrdered(t, live, now);
  }

  // ----- the limit

  lemma SinceIsLimited(t: Tally, a: Option<Attempts>, clock: int)
    requires TallySound(t, a, clock)
    ensures Limited(Since(t))
  {
    forall i, j | 0 <= i && i + 20 <= j < |Since(t)| ensures Since(t)[j].at - Since(t)[i].at > ATTEMPT_WINDOW {
      AtMostTwoWindowsFull(t.log, MAX_ATTEMPTS, ATTEMPT_WINDOW, t.credit + i, t.credit + j);
    }
  }

  /** Each ten entries of the log take the window that follows one window further. */
  lemma EachTenTakeAWindow(t: Tally, a: Option<Attempts>, clock: int, k: nat)
    requires TallySound(t, a, clock) && k < |t.log|
    ensures k >= 10 ==> t.log[k].at >= t.origin + ATTEMPT_WINDOW
    ensures k >= 20 ==> t.log[k].at >= t.origin + 2 * ATTEMPT_WINDOW
  {
    if k >= 10 {
      assert Consistent(t.log[k - 10], t.log[k], 10, MAX_ATTEMPTS, ATTEMPT_WINDOW);
    }
    if k >= 20 {
      assert Consistent(t.log[k - 20], t.log[k - 10], 10, MAX_ATTEMPTS, ATTEMPT_WINDOW);
    }
  }

  ghost predicate CreditCovers(t: Tally) {
    && CountFrom(t.before, t.origin) <= t.credit
    && CountFrom(t.before, t.at - ATTEMPT_WINDOW) <= MAX_ATTEMPTS + t.credit
  }

  /** If the restored counter covers the checks before it, the limit holds over all of them. */
  lemma CoveredIsLimited(t: Tally, a: Option<Attempts>, clock: int)
    requires TallySound(t, a, clock) && Limited(t.before) && CreditCovers(t)
    ensures Limited(All(t))
  {
    SinceIsLimited(t, a, clock);
    CountedAtTheEnd(t.before, t.origin);
    CountedAtTheEnd(t.before, t.at - ATTEMPT_WINDOW);
    var n := |t.before|;
    forall i, j | 0 <= i && i + 20 <= j < |All(t)| ensures All(t)[j].at - All(t)[i].at > ATTEMPT_WINDOW {
      if i < n <= j {
        var k := t.credit + (j - n);
        assert All(t)[j] == t.log[k] && All(t)[i] == t.before[i];
        EachTenTakeAWindow(t, a, clock, k);
      } else if n <= i {
        assert All(t)[j] == Since(t)[j - n] && All(t)[i] == Since(t)[i - n];
      } else {
        assert All(t)[j] == t.before[j] && All(t)[i] == t.before[i];
      }
    }
  }

  lemma NotLimited(log: seq<Entry>, i: nat)
    requires i + 20 < |log| && log[i + 20].at - log[i].at <= ATTEMPT_WINDOW
    ensures !Limited(log)
  {
  }
}
