/**
  Civil-time scheduling: turning a wall-clock time into an instant across daylight-saving
  gaps and overlaps, and finding the next backup occurrence.

  Instants and offsets are integers counting nanoseconds since the Unix epoch. A time zone is
  the function giving the offset in force at each instant; zone names are not part of the model.
 */
module CivilTime {

  const MINUTE: int := 60_000_000_000
  const HOUR: int := 3_600_000_000_000
  const DAY: int := 86_400_000_000_000

  /** The zero time of the source language, 0001-01-01T00:00:00Z. */
  const ZERO_TIME: int := -62_135_596_800_000_000_000

  type Zone = int -> int

  datatype Kind = Valid | Nonexistent | Ambiguous

  datatype Occurrence = Occurrence(kind: Kind, instant: int)

  datatype Cadence = Daily | Weekly(weekday: nat)

  /** A backup schedule: which days, and the hour and minute on those days. */
  datatype Schedule = Schedule(cadence: Cadence, hour: nat, minute: nat)

  /** What a clock on the wall shows at instant `t`. */
  function LocalClock(zone: Zone, t: int): int {
    t + zone(t)
  }

  function LocalDay(zone: Zone, t: int): int {
    LocalClock(zone, t) / DAY
  }

  /** The instant the standard library builds from wall-clock fields; arbitrary in a gap. */
  function DateIn(zone: Zone, wall: int): int {
    wall - zone(wall - zone(wall))
  }

  function Samples(probe: int): seq<int> {
    [probe - 36 * HOUR, probe - 12 * HOUR, probe, probe + 12 * HOUR, probe + 36 * HOUR]
  }

  function SampledOffsets(zone: Zone, probe: int): set<int> {
    set t | t in Samples(probe) :: zone(t)
  }

  predicate ShowsMinute(zone: Zone, wall: int, t: int) {
    LocalClock(zone, t) / MINUTE == wall / MINUTE
  }

  /** The instants, one per sampled offset, whose wall clock really shows `wall`. */
  function Matches(zone: Zone, wall: int): set<int> {
    set o | o in SampledOffsets(zone, DateIn(zone, wall)) && ShowsMinute(zone, wall, wall - o) :: wall - o
  }

  /** A nonempty set has an element. */
  lemma Pick<T>(s: set<T>) returns (x: T)
    requires s != {}
    ensures x in s
  {
    x :| x in s;
  }

  lemma {:induction false} LeastExists(s: set<int>)
    requires s != {}
    ensures exists t :: t in s && forall u :: u in s ==> t <= u
  {
    var x := Pick(s);
    if s != {x} {
      var rest := s - {x};
      assert x !in rest && s == rest + {x};
      LeastExists(rest);
      var t :| t in rest && forall u :: u in rest ==> t <= u;
      var least := if x <= t then x else t;
      assert least in s && forall u :: u in s ==> least <= u;
    }
  }

  ghost function Least(s: set<int>): (t: int)
    requires s != {}
    ensures t in s && forall u :: u in s ==> t <= u
  {
    LeastExists(s);
    var t :| t in s && forall u :: u in s ==> t <= u;
    t
  }

  /** The outcome of resolving a wall time from the sampled offsets. */
  ghost function Resolve(zone: Zone, wall: int): Occurrence {
    var m := Matches(zone, wall);
    if m == {} then Occurrence(Nonexistent, ZERO_TIME)
    else Occurrence(if |m| > 1 then Ambiguous else Valid, Least(m))
  }

  function WallOn(day: int, hour: nat, minute: nat): int {
    day * DAY + hour * HOUR + minute * MINUTE
  }

  /** A wall time reads as its day, hour and minute. */
  lemma WallClockReads(day: int, hour: nat, minute: nat)
    requires hour < 24 && minute < 60
    ensures var wall := WallOn(day, hour, minute);
            wall / DAY == day && (wall - day * DAY) / HOUR == hour && (wall - day * DAY - hour * HOUR) / MINUTE == minute
  {
  }

  /** The offsets looked at are those a day and a half and half a day before and after, and at the time
      itself. */
  lemma SampledExactly(zone: Zone, probe: int, o: int)
    ensures o in SampledOffsets(zone, probe) <==>
              o == zone(probe) || o == zone(probe - 12 * HOUR) || o == zone(probe + 12 * HOUR) || o == zone(probe - 36 * HOUR) || o == zone(probe + 36 * HOUR)
  {
    var s := Samples(probe);
    assert s[0] in s && s[1] in s && s[2] in s && s[3] in s && s[4] in s;
  }

  method CollectOffsets(zone: Zone, probe: int) returns (offsets: set<int>)
    ensures offsets == SampledOffsets(zone, probe)
  {
    var samples := Samples(probe);
    offsets := {};
    for k := 0 to |samples|
      invariant offsets == set i | 0 <= i < k :: zone(samples[i])
    {
      offsets := offsets + {zone(samples[k])};
    }
  }

  /** Collects the sampled offsets, then the candidates they give that survive the round trip
      through the zone. The least match is kept as the matches arrive instead of being sorted out
      of them afterwards; offsets are visited in no particular order. */
  method ResolveLocal(zone: Zone, day: int, hour: nat, minute: nat) returns (r: Occurrence)
    ensures r == Resolve(zone, WallOn(LocalDay(zone, day), hour, minute))
  {
    hide LocalDay, DateIn, WallOn, ShowsMinute, SampledOffsets;
    var wall := WallOn(LocalDay(zone, day), hour, minute);
    var offsets := CollectOffsets(zone, DateIn(zone, wall));
    var matches: set<int> := {};
    var first := ZERO_TIME;
    var remaining := offsets;
    while remaining != {}
      invariant remaining <= offsets
      invariant matches == set o | o in offsets - remaining && ShowsMinute(zone, wall, wall - o) :: wall - o
      invariant matches == {} ==> first == ZERO_TIME
      invariant matches != {} ==> first in matches && forall t :: t in matches ==> first <= t
    {
      ghost var some := Pick(remaining);
      var offset :| offset in remaining;
      assert offsets - (remaining - {offset}) == (offsets - remaining) + {offset};
      remaining := remaining - {offset};
      var candidate := wall - offset;
      if ShowsMinute(zone, wall, candidate) {
        if matches == {} || candidate < first {
          first := candidate;
        }
        matches := matches + {candidate};
      }
    }
    assert offsets - remaining == offsets;
    assert matches == Matches(zone, wall);
    var kind := if matches == {} then Nonexistent else if |matches| > 1 then Ambiguous else Valid;
    r := Occurrence(kind, first);
  }

  // ----- what the resolution means

  /** Offsets and wall times fall on whole minutes. */
  ghost predicate WholeMinutes(zone: Zone) {
    forall t :: zone(t) % MINUTE == 0
  }

  /** Instant `t` is one at which the wall clock shows `wall`. */
  ghost predicate Solves(zone: Zone, wall: int, t: int) {
    LocalClock(zone, t) == wall
  }

  /** No offset exceeds a day, and over any month the offsets in use differ by less than `span`. */
  ghost predicate Steady(zone: Zone, span: int) {
    && (forall t :: -DAY <= zone(t) <= DAY)
    && (forall t, u :: t - u <= 30 * DAY && u - t <= 30 * DAY ==> zone(t) - zone(u) < span)
  }

  /** On [lo, hi] the offset changes at most once, at `at`. */
  ghost predicate ChangesOnlyAt(zone: Zone, lo: int, hi: int, at: int) {
    forall t :: lo <= t <= hi ==> zone(t) == if t < at then zone(lo) else zone(hi)
  }

  /** The offset changes at most once within 36 hours of `probe`. */
  ghost predicate AtMostOneTransition(zone: Zone, probe: int) {
    var (lo, hi) := (probe - 36 * HOUR, probe + 36 * HOUR);
    exists at :: ChangesOnlyAt(zone, lo, hi, at)
  }

  /** Every instant that shows `wall` does so under an offset that was sampled. */
  ghost predicate SamplingSees(zone: Zone, wall: int) {
    forall t :: Solves(zone, wall, t) ==> zone(t) in SampledOffsets(zone, DateIn(zone, wall))
  }

  /** The answer a caller expects, stated over all instants rather than over samples. */
  ghost predicate Correct(zone: Zone, wall: int, r: Occurrence) {
    && (r.kind == Nonexistent <==> forall t :: !Solves(zone, wall, t))
    && (r.kind == Ambiguous <==> exists t, u :: t < u && Solves(zone, wall, t) && Solves(zone, wall, u))
    && (r.kind != Nonexistent ==>
          Solves(zone, wall, r.instant) && forall t :: Solves(zone, wall, t) ==> r.instant <= t)
  }

  lemma MatchesMeaning(zone: Zone, wall: int, t: int)
    requires WholeMinutes(zone) && wall % MINUTE == 0
    ensures t in Matches(zone, wall) <==>
            Solves(zone, wall, t) && zone(t) in SampledOffsets(zone, DateIn(zone, wall))
  {
    var o := wall - t;
    var sampled := SampledOffsets(zone, DateIn(zone, wall));
    assert t == wall - o;
    assert t in Matches(zone, wall) <==> o in sampled && ShowsMinute(zone, wall, t);
    if o in sampled && ShowsMinute(zone, wall, t) {
      var s :| s in Samples(DateIn(zone, wall)) && zone(s) == o;
      assert zone(s) % MINUTE == 0 && zone(t) % MINUTE == 0;
      assert LocalClock(zone, t) == wall + (zone(t) - o);
      assert LocalClock(zone, t) % MINUTE == 0;
    }
  }

  /** The solution's offset was among the samples. */
  ghost predicate Seen(zone: Zone, wall: int, t: int) {
    Solves(zone, wall, t) && zone(t) in SampledOffsets(zone, DateIn(zone, wall))
  }

  /** Two solutions were seen, one of them the least of all. */
  ghost predicate LeastAndAnotherSeen(zone: Zone, wall: int) {
    exists t, u :: t != u && Seen(zone, wall, t) && Seen(zone, wall, u) && forall v :: Solves(zone, wall, v) ==> t <= v
  }

  lemma MatchesAreSeen(zone: Zone, wall: int)
    requires WholeMinutes(zone) && wall % MINUTE == 0
    ensures forall t :: t in Matches(zone, wall) <==> Seen(zone, wall, t)
  {
    forall t ensures t in Matches(zone, wall) <==> Seen(zone, wall, t) {
      MatchesMeaning(zone, wall, t);
    }
  }

  /** More than one match means a second one beside the least. */
  lemma Several(m: set<int>)
    requires m != {}
    ensures |m| > 1 <==> exists u :: u in m && u != Least(m)
  {
    var others := m - {Least(m)};
    assert |m| == |others| + 1;
    if others != {} {
      var u := Pick(others);
      assert u in m && u != Least(m);
    }
  }

  /** If no solution hides under an unsampled offset, the resolution is correct. */
  lemma SeenSolutionsResolve(zone: Zone, wall: int)
    requires WholeMinutes(zone) && wall % MINUTE == 0 && SamplingSees(zone, wall)
    ensures Correct(zone, wall, Resolve(zone, wall))
  {
    MatchesAreSeen(zone, wall);
    hide Matches;
    var m := Matches(zone, wall);
    assert forall t :: Solves(zone, wall, t) <==> t in m by {
      assert forall t :: Solves(zone, wall, t) ==> Seen(zone, wall, t);
    }
    if m != {} {
      Several(m);
      if |m| > 1 {
        var u :| u in m && u != Least(m);
        assert Least(m) < u && Solves(zone, wall, Least(m)) && Solves(zone, wall, u);
      }
    }
  }

  lemma LeastAndAnotherResolve(zone: Zone, wall: int)
    requires WholeMinutes(zone) && wall % MINUTE == 0 && LeastAndAnotherSeen(zone, wall)
    ensures Correct(zone, wall, Resolve(zone, wall))
  {
    MatchesAreSeen(zone, wall);
    hide Matches;
    var m := Matches(zone, wall);
    var t, u :| t != u && Seen(zone, wall, t) && Seen(zone, wall, u) && forall v :: Solves(zone, wall, v) ==> t <= v;
    assert t in m && u in m && Least(m) == t && t < u;
    Several(m);
  }

  /** Daylight-saving correctness, exactly: the answer is right if and only if every solution was
      seen, or the least one and another were. */
  lemma ResolutionIsCorrectExactlyWhen(zone: Zone, wall: int)
    requires WholeMinutes(zone) && wall % MINUTE == 0
    ensures Correct(zone, wall, Resolve(zone, wall)) <==> SamplingSees(zone, wall) || LeastAndAnotherSeen(zone, wall)
  {
    if SamplingSees(zone, wall) {
      SeenSolutionsResolve(zone, wall);
    } else if LeastAndAnotherSeen(zone, wall) {
      LeastAndAnotherResolve(zone, wall);
    } else {
      MatchesAreSeen(zone, wall);
      hide Matches, LeastAndAnotherSeen;
      var m := Matches(zone, wall);
      var hidden :| Solves(zone, wall, hidden) && zone(hidden) !in SampledOffsets(zone, DateIn(zone, wall));
      if m != {} {
        Several(m);
        AmbiguousNeedsTwo(zone, wall, m, hidden);
      }
    }
  }

  lemma AmbiguousNeedsTwo(zone: Zone, wall: int, m: set<int>, hidden: int)
    requires m != {} && m == Matches(zone, wall) && forall t :: t in m <==> Seen(zone, wall, t)
    requires Solves(zone, wall, hidden) && hidden !in m && !LeastAndAnotherSeen(zone, wall)
    ensures !Correct(zone, wall, Resolve(zone, wall))
  {
    hide Matches;
    Several(m);
    var t := Least(m);
    assert Seen(zone, wall, t) && hidden != t;
    assert exists a, b :: a < b && Solves(zone, wall, a) && Solves(zone, wall, b) by {
      assert if t < hidden then t < hidden && Solves(zone, wall, t) else hidden < t && Solves(zone, wall, t);
    }
    if |m| > 1 {
      var u :| u in m && u != t;
      assert Seen(zone, wall, u);
    }
  }

  lemma OneTransitionIsSeen(zone: Zone, wall: int)
    requires Steady(zone, 36 * HOUR)
    requires AtMostOneTransition(zone, DateIn(zone, wall))
    ensures SamplingSees(zone, wall)
  {
    var probe := DateIn(zone, wall);
    var lo, hi := probe - 36 * HOUR, probe + 36 * HOUR;
    var at :| ChangesOnlyAt(zone, lo, hi, at);
    forall t | Solves(zone, wall, t) ensures zone(t) in SampledOffsets(zone, probe) {
      var x := wall - zone(wall);
      assert t - probe == zone(x) - zone(t);
      assert lo <= t <= hi;
      assert Samples(probe)[0] == lo && Samples(probe)[4] == hi;
      assert zone(t) == zone(lo) || zone(t) == zone(hi);
    }
  }

  /** Daylight-saving correctness: a wall time is called nonexistent exactly when no instant shows
      it, ambiguous exactly when two do, and otherwise the earliest such instant is returned. */
  lemma ResolutionIsCorrect(zone: Zone, wall: int)
    requires WholeMinutes(zone) && wall % MINUTE == 0
    requires Steady(zone, 36 * HOUR)
    requires AtMostOneTransition(zone, DateIn(zone, wall))
    ensures Correct(zone, wall, Resolve(zone, wall))
  {
    OneTransitionIsSeen(zone, wall);
    SeenSolutionsResolve(zone, wall);
  }

  /** The one-transition condition matters: an excursion that falls between two samples hides the
      earlier of two solutions. */
  lemma HiddenExcursionMisleads(wall: int) returns (zone: Zone)
    requires wall % MINUTE == 0
    ensures WholeMinutes(zone) && Steady(zone, 2 * HOUR)
    ensures Solves(zone, wall, wall - HOUR) && Resolve(zone, wall) == Occurrence(Valid, wall)
  {
    zone := t => if wall - HOUR <= t < wall - 30 * MINUTE then HOUR else 0;
    assert DateIn(zone, wall) == wall;
    forall s | s in Samples(wall) ensures zone(s) == 0 {
    }
    assert Samples(wall)[2] in Samples(wall);
    assert SampledOffsets(zone, wall) == {0};
    forall t ensures t in Matches(zone, wall) <==> t == wall {
      MatchesMeaning(zone, wall, t);
    }
    assert Matches(zone, wall) == {wall};
  }

  // ----- the next occurrence of a schedule

  /** Day 0 is Thursday 1 January 1970; Sunday is weekday 0. */
  function WeekdayOf(day: int): int {
    (day + 4) % 7
  }

  /** The week goes round: 1 January 1970 was a Thursday, and each day is followed by the next. */
  lemma WeekGoesRound(day: int)
    ensures WeekdayOf(0) == 4 && 0 <= WeekdayOf(day) < 7
    ensures WeekdayOf(day + 1) == if WeekdayOf(day) == 6 then 0 else WeekdayOf(day) + 1
  {
  }

  predicate RunsOn(c: Schedule, day: int) {
    c.cadence.Daily? || WeekdayOf(day) == c.cadence.weekday
  }

  function Noon(zone: Zone, after: int): int {
    DateIn(zone, WallOn(LocalDay(zone, after), 12, 0))
  }

  /** The day examined in round `n` of the search: local noon moved on by `n` calendar days. */
  function SearchDay(zone: Zone, after: int, n: nat): int {
    LocalDay(zone, DateIn(zone, LocalClock(zone, Noon(zone, after)) + n * DAY))
  }

  ghost predicate Qualifies(zone: Zone, c: Schedule, after: int, n: nat) {
    var day := SearchDay(zone, after, n);
    var occurrence := Resolve(zone, WallOn(day, c.hour, c.minute));
    RunsOn(c, day) && occurrence.kind != Nonexistent && occurrence.instant > after
  }

  ghost function NextFrom(zone: Zone, c: Schedule, after: int, n: nat): (r: int)
    requires n <= 15
    ensures r == ZERO_TIME || r > after
    decreases 15 - n
  {
    if n == 15 then ZERO_TIME
    else if Qualifies(zone, c, after, n) then
      Resolve(zone, WallOn(SearchDay(zone, after, n), c.hour, c.minute)).instant
    else NextFrom(zone, c, after, n + 1)
  }

  ghost function Next(zone: Zone, c: Schedule, after: int): (r: int)
    ensures r == ZERO_TIME || r > after
  {
    NextFrom(zone, c, after, 0)
  }

  method NextBackupOccurrence(zone: Zone, c: Schedule, after: int) returns (r: int)
    ensures r == Next(zone, c, after)
  {
    hide Resolve, DateIn, LocalDay, WallOn;
    var noon := DateIn(zone, WallOn(LocalDay(zone, after), 12, 0));
    for n := 0 to 15
      invariant Next(zone, c, after) == NextFrom(zone, c, after, n)
    {
      var candidateDay := DateIn(zone, LocalClock(zone, noon) + n * DAY);
      if c.cadence.Weekly? && WeekdayOf(LocalDay(zone, candidateDay)) != c.cadence.weekday {
        continue;
      }
      var occurrence := ResolveLocal(zone, candidateDay, c.hour, c.minute);
      if occurrence.kind != Nonexistent && occurrence.instant > after {
        return occurrence.instant;
      }
    }
    r := ZERO_TIME;
  }

  ghost predicate TransitionsFarApart(zone: Zone) {
    forall p :: AtMostOneTransition(zone, p)
  }

  /** The zones in use today: everything but a move across the date line. */
  ghost predicate Civil(zone: Zone) {
    WholeMinutes(zone) && Steady(zone, 6 * HOUR) && TransitionsFarApart(zone)
  }

  lemma DateInIsClose(zone: Zone, wall: int)
    requires Steady(zone, 6 * HOUR)
    ensures -6 * HOUR < LocalClock(zone, DateIn(zone, wall)) - wall < 6 * HOUR
    ensures -DAY <= DateIn(zone, wall) - wall <= DAY
  {
    var x := wall - zone(wall);
    var t := DateIn(zone, wall);
    assert t == wall - zone(x);
    assert LocalClock(zone, t) - wall == zone(t) - zone(x);
  }

  lemma DayOf(clock: int, day: int)
    requires day * DAY <= clock < day * DAY + DAY
    ensures clock / DAY == day
  {
  }

  /** How far the clock is from `wall` at the instant built for it; zero unless `wall` is near a
      change of the offset. */
  function Drift(zone: Zone, wall: int): int {
    LocalClock(zone, DateIn(zone, wall)) - wall
  }

  /** Exactly when round `n` looks at the calendar day `n` after today, in any zone: when the drifts at
      today's noon and at the noon it is moved to stay within half a day together. */
  lemma SearchVisitsExactlyWhen(zone: Zone, after: int, n: nat)
    ensures var noon := WallOn(LocalDay(zone, after), 12, 0);
            var drift := Drift(zone, noon) + Drift(zone, noon + Drift(zone, noon) + n * DAY);
            SearchDay(zone, after, n) == LocalDay(zone, after) + n <==> -12 * HOUR <= drift < 12 * HOUR
  {
    var today := LocalDay(zone, after);
    var noon := WallOn(today, 12, 0);
    var clock := noon + Drift(zone, noon) + n * DAY;
    var seen := LocalClock(zone, DateIn(zone, clock));
    assert SearchDay(zone, after, n) == seen / DAY;
    assert seen == (today + n) * DAY + 12 * HOUR + Drift(zone, noon) + Drift(zone, clock);
    if (today + n) * DAY <= seen < (today + n) * DAY + DAY {
      DayOf(seen, today + n);
    }
  }

  /** The search visits the fifteen calendar days starting today, in order. */
  lemma SearchVisitsEachDay(zone: Zone, after: int, n: nat)
    requires Steady(zone, 6 * HOUR)
    ensures SearchDay(zone, after, n) == LocalDay(zone, after) + n
  {
    hide Steady, DateIn, SearchDay;
    var noon := WallOn(LocalDay(zone, after), 12, 0);
    DateInIsClose(zone, noon);
    DateInIsClose(zone, noon + Drift(zone, noon) + n * DAY);
    SearchVisitsExactlyWhen(zone, after, n);
  }

  /** `t` is the earliest instant at which the clock on day `day` shows the scheduled time. */
  ghost predicate FirstOn(zone: Zone, c: Schedule, day: int, t: int) {
    var wall := WallOn(day, c.hour, c.minute);
    Solves(zone, wall, t) && forall u :: Solves(zone, wall, u) ==> t <= u
  }

  /** `t` is a scheduled occurrence after `after` within the fifteen-day horizon. */
  ghost predicate Upcoming(zone: Zone, c: Schedule, after: int, t: int) {
    var today := LocalDay(zone, after);
    t > after && exists day :: today <= day < today + 15 && RunsOn(c, day) && FirstOn(zone, c, day, t)
  }

  lemma ResolvesOn(zone: Zone, c: Schedule, day: int)
    requires Civil(zone)
    ensures var r := Resolve(zone, WallOn(day, c.hour, c.minute));
            && (r.kind != Nonexistent ==> FirstOn(zone, c, day, r.instant))
            && (forall t :: FirstOn(zone, c, day, t) ==> r.kind != Nonexistent && t == r.instant)
  {
    var wall := WallOn(day, c.hour, c.minute);
    assert wall % MINUTE == 0;
    assert AtMostOneTransition(zone, DateIn(zone, wall));
    ResolutionIsCorrect(zone, wall);
  }

  lemma LaterDaysComeLater(zone: Zone, c: Schedule, day: int, t: int, n: nat, u: int)
    requires Steady(zone, 6 * HOUR) && 0 < n < 15
    requires FirstOn(zone, c, day, t) && FirstOn(zone, c, day + n, u)
    ensures t < u
  {
    assert WallOn(day + n, c.hour, c.minute) == WallOn(day, c.hour, c.minute) + n * DAY;
    assert u - t == n * DAY - (zone(u) - zone(t));
  }

  lemma {:induction false} SearchFindsLeast(zone: Zone, c: Schedule, after: int, n: nat)
    requires Civil(zone) && n <= 15
    requires forall k: nat :: k < n ==> !Qualifies(zone, c, after, k)
    ensures (NextFrom(zone, c, after, n) == ZERO_TIME && forall t :: !Upcoming(zone, c, after, t))
         || (Upcoming(zone, c, after, NextFrom(zone, c, after, n)) &&
             forall t :: Upcoming(zone, c, after, t) ==> NextFrom(zone, c, after, n) <= t)
    decreases 15 - n
  {
    hide Steady, WholeMinutes, TransitionsFarApart, Resolve, SearchDay, LocalDay, FirstOn;
    var today := LocalDay(zone, after);
    if n < 15 && !Qualifies(zone, c, after, n) {
      SearchFindsLeast(zone, c, after, n + 1);
      return;
    }
    forall t | Upcoming(zone, c, after, t) ensures n < 15 && NextFrom(zone, c, after, n) <= t {
      var day :| today <= day < today + 15 && RunsOn(c, day) && FirstOn(zone, c, day, t);
      var k := day - today;
      SearchVisitsEachDay(zone, after, k);
      ResolvesOn(zone, c, today + k);
      assert Qualifies(zone, c, after, k);
      assert n <= k;
      SearchVisitsEachDay(zone, after, n);
      ResolvesOn(zone, c, today + n);
      if n < k {
        LaterDaysComeLater(zone, c, today + n, NextFrom(zone, c, after, n), k - n, t);
      }
    }
    if n < 15 {
      SearchVisitsEachDay(zone, after, n);
      ResolvesOn(zone, c, today + n);
      assert Upcoming(zone, c, after, NextFrom(zone, c, after, n));
    }
  }

  /** The next occurrence is the earliest runnable scheduled instant after `after` in the next
      fifteen days, skipping days on which the time does not exist; zero if there is none. */
  lemma NextIsLeastUpcoming(zone: Zone, c: Schedule, after: int)
    requires Civil(zone)
    ensures (Next(zone, c, after) == ZERO_TIME && forall t :: !Upcoming(zone, c, after, t))
         || (Upcoming(zone, c, after, Next(zone, c, after)) &&
             forall t :: Upcoming(zone, c, after, t) ==> Next(zone, c, after) <= t)
  {
    SearchFindsLeast(zone, c, after, 0);
  }

  // ----- the date line

  /** A zone that moves a day forward at eleven o'clock on local day `day`: the hours from eleven on
      that day to eleven on the next do not exist. */
  function DateLineZone(day: int): Zone {
    t => if t < day * DAY + 22 * HOUR then -11 * HOUR else 13 * HOUR
  }

  lemma DateLineSearch(day: int, n: nat)
    ensures var zone, after := DateLineZone(day), day * DAY + 12 * HOUR;
            LocalDay(zone, after) == day && SearchDay(zone, after, n) == if n <= 1 then day - 1 else day - 1 + n
  {
    var zone, after := DateLineZone(day), day * DAY + 12 * HOUR;
    DayOf(LocalClock(zone, after), day);
    var noon := DateIn(zone, WallOn(day, 12, 0));
    assert noon == day * DAY - HOUR && LocalClock(zone, noon) == (day - 1) * DAY + 12 * HOUR;
    var clock := LocalClock(zone, noon) + n * DAY;
    var seen := LocalClock(zone, DateIn(zone, clock));
    if n <= 1 {
      assert seen == (day - 1) * DAY + 12 * HOUR;
      DayOf(seen, day - 1);
    } else {
      assert seen == clock == (day - 1 + n) * DAY + 12 * HOUR;
      DayOf(seen, day - 1 + n);
    }
  }

  lemma ResolvedSolves(zone: Zone, day: int, hour: nat, minute: nat)
    requires WholeMinutes(zone) && Resolve(zone, WallOn(day, hour, minute)).kind != Nonexistent
    ensures Solves(zone, WallOn(day, hour, minute), Resolve(zone, WallOn(day, hour, minute)).instant)
  {
    WallOnMinute(day, hour, minute);
    hide WallOn, WholeMinutes, Matches;
    MatchesMeaning(zone, WallOn(day, hour, minute), Resolve(zone, WallOn(day, hour, minute)).instant);
  }

  lemma WallOnMinute(day: int, hour: nat, minute: nat)
    ensures WallOn(day, hour, minute) % MINUTE == 0
  {
  }

  /** A result of the search is on a day it visited. */
  lemma {:induction false} FoundOnVisitedDay(zone: Zone, c: Schedule, after: int, n: nat)
    requires WholeMinutes(zone) && n <= 15
    ensures var r := NextFrom(zone, c, after, n);
            r == ZERO_TIME || exists k: nat :: Solves(zone, WallOn(SearchDay(zone, after, k), c.hour, c.minute), r)
    decreases 15 - n
  {
    hide SearchDay, Resolve, WallOn, WholeMinutes, Solves, RunsOn;
    if n < 15 {
      if Qualifies(zone, c, after, n) {
        ResolvedSolves(zone, SearchDay(zone, after, n), c.hour, c.minute);
      } else {
        FoundOnVisitedDay(zone, c, after, n + 1);
      }
    }
  }

  lemma TodayIsUpcoming(day: int)
    ensures var zone, c, after := DateLineZone(day), Schedule(Daily, 10, 0), day * DAY + 12 * HOUR;
            WholeMinutes(zone) && Upcoming(zone, c, after, day * DAY + 21 * HOUR)
  {
    var zone, c := DateLineZone(day), Schedule(Daily, 10, 0);
    DateLineSearch(day, 0);
    hide SearchDay, LocalDay;
    assert FirstOn(zone, c, day, day * DAY + 21 * HOUR);
  }

  /** Between noon UTC and today's ten o'clock, the clock shows only today. */
  lemma OtherDaysComeLater(day: int, other: int, r: int)
    requires other != day && r > day * DAY + 12 * HOUR && Solves(DateLineZone(day), WallOn(other, 10, 0), r)
    ensures r > day * DAY + 21 * HOUR
  {
  }

  /** Some bound on offset changes is needed: on the day of such a move the search never looks at
      today, and misses today's occurrence at ten. */
  lemma DateLineMoveMissesToday(day: int)
    ensures var zone, c, after := DateLineZone(day), Schedule(Daily, 10, 0), day * DAY + 12 * HOUR;
            var today := day * DAY + 21 * HOUR;
            WholeMinutes(zone) && Upcoming(zone, c, after, today) && (Next(zone, c, after) == ZERO_TIME || Next(zone, c, after) > today)
  {
    var zone, c, after := DateLineZone(day), Schedule(Daily, 10, 0), day * DAY + 12 * HOUR;
    TodayIsUpcoming(day);
    var r := Next(zone, c, after);
    hide DateLineZone, SearchDay, Solves, Upcoming, WholeMinutes;
    if r != ZERO_TIME {
      FoundOnVisitedDay(zone, c, after, 0);
      hide NextFrom;
      var k: nat :| Solves(zone, WallOn(SearchDay(zone, after, k), c.hour, c.minute), r);
      DateLineSearch(day, k);
      OtherDaysComeLater(day, SearchDay(zone, after, k), r);
    }
  }
}
