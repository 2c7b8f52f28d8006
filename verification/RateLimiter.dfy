/**
  The in-memory rate limiter that guards logins, password changes and set-up.
 */
module RateLimiter {
  import opened Common
  import opened Windows

  datatype Bucket = Bucket(attempts: nat, windowEnd: int)

  type Buckets = map<string, Bucket>

  datatype Limits = Limits(window: int, max: int)

  datatype Call =
    | Allow(key: string, now: int)
    | Limited(key: string, now: int)
    | RecordFailure(key: string, now: int)
    | Reset(key: string, now: int)
    | Cleanup(now: int)

  /** The bucket a call at `now` still has to respect. */
  function Live(b: Buckets, key: string, now: int): Option<Bucket> {
    if key in b && now <= b[key].windowEnd then Some(b[key]) else None
  }

  function Counting(l: Limits, live: Option<Bucket>, now: int): Bucket {
    if live.None? then Bucket(1, now + l.window) else live.value.(attempts := live.value.attempts + 1)
  }

  predicate Full(l: Limits, live: Option<Bucket>) {
    live.Some? && live.value.attempts >= l.max
  }

  /** What a call answers; calls without an answer say false. */
  predicate Reply(l: Limits, b: Buckets, c: Call) {
    match c
    case Allow(key, now) => !Full(l, Live(b, key, now))
    case Limited(key, now) => Full(l, Live(b, key, now))
    case _ => false
  }

  function Swept(b: Buckets, now: int): Buckets {
    map key | key in b && now <= b[key].windowEnd :: b[key]
  }

  function After(l: Limits, b: Buckets, c: Call): Buckets {
    match c
    case Allow(key, now) =>
      if Full(l, Live(b, key, now)) then b else b[key := Counting(l, Live(b, key, now), now)]
    case Limited(key, now) => if key in b && Live(b, key, now).None? then b - {key} else b
    case RecordFailure(key, now) => b[key := Counting(l, Live(b, key, now), now)]
    case Reset(key, _) => b - {key}
    case Cleanup(now) => Swept(b, now)
  }

  class Limiter {
    const limits: Limits
    var buckets: Buckets

    constructor (window: int, max: int)
      ensures limits == Limits(if window <= 0 then 600_000_000_000 else window, max) && buckets == map[]
    {
      limits := Limits(if window <= 0 then 600_000_000_000 else window, max);
      buckets := map[];
    }

    method AllowCall(key: string, now: int) returns (ok: bool)
      modifies this
      ensures buckets == After(limits, old(buckets), Allow(key, now))
      ensures ok == Reply(limits, old(buckets), Allow(key, now))
    {
      var present := key in buckets;
      var bucket := if present then buckets[key] else Bucket(0, 0);
      if present && now > bucket.windowEnd {
        buckets := buckets - {key};
        present := false;
      }
      if !present {
        buckets := buckets[key := Bucket(1, now + limits.window)];
        assert buckets == old(buckets)[key := Bucket(1, now + limits.window)];
        return true;
      }
      if bucket.attempts >= limits.max {
        return false;
      }
      buckets := buckets[key := bucket.(attempts := bucket.attempts + 1)];
      ok := true;
    }

    method LimitedCall(key: string, now: int) returns (limited: bool)
      modifies this
      ensures buckets == After(limits, old(buckets), Limited(key, now))
      ensures limited == Reply(limits, old(buckets), Limited(key, now))
    {
      if key in buckets && now > buckets[key].windowEnd {
        buckets := buckets - {key};
        return false;
      }
      limited := key in buckets && buckets[key].attempts >= limits.max;
    }

    method RecordFailureCall(key: string, now: int)
      modifies this
      ensures buckets == After(limits, old(buckets), RecordFailure(key, now))
    {
      var present := key in buckets;
      var bucket := if present then buckets[key] else Bucket(0, 0);
      if present && now > bucket.windowEnd {
        buckets := buckets - {key};
        present := false;
      }
      if !present {
        buckets := buckets[key := Bucket(1, now + limits.window)];
        assert buckets == old(buckets)[key := Bucket(1, now + limits.window)];
        return;
      }
      buckets := buckets[key := bucket.(attempts := bucket.attempts + 1)];
    }

    /** The background sweep, one key at a time. */
    method CleanupExpired(now: int)
      modifies this
      ensures buckets == After(limits, old(buckets), Cleanup(now))
    {
      var pending := buckets.Keys;
      while pending != {}
        invariant pending <= old(buckets).Keys
        invariant forall k :: k in buckets <==>
          k in old(buckets) && (k in pending || now <= old(buckets)[k].windowEnd)
        invariant forall k :: k in buckets ==> buckets[k] == old(buckets)[k]
      {
        var key :| key in pending;
        pending := pending - {key};
        if now > buckets[key].windowEnd {
          buckets := buckets - {key};
        }
      }
    }
  }

  // ----- background cleanup is invisible

  /** The answers a run gives, cleanups leaving no trace. */
  function Replies(l: Limits, b: Buckets, calls: seq<Call>): seq<bool>
    decreases |calls|
  {
    if calls == [] then []
    else (if calls[0].Cleanup? then [] else [Reply(l, b, calls[0])]) + Replies(l, After(l, b, calls[0]), calls[1..])
  }

  function WithoutCleanups(calls: seq<Call>): seq<Call>
    decreases |calls|
  {
    if calls == [] then []
    else (if calls[0].Cleanup? then [] else [calls[0]]) + WithoutCleanups(calls[1..])
  }

  ghost predicate Chronological(calls: seq<Call>) {
    forall i, j :: 0 <= i < j < |calls| ==> calls[i].now <= calls[j].now
  }

  /** No call from `now` on can tell the two apart. */
  ghost predicate Alike(b: Buckets, c: Buckets, now: int) {
    forall key :: Live(b, key, now) == Live(c, key, now)
  }

  lemma AlikeLater(b: Buckets, c: Buckets, now: int, later: int)
    requires Alike(b, c, now) && now <= later
    ensures Alike(b, c, later)
  {
    forall key ensures Live(b, key, later) == Live(c, key, later) {
      assert Live(b, key, now) == Live(c, key, now);
    }
  }

  lemma AlikeAfter(l: Limits, b: Buckets, c: Buckets, call: Call)
    requires Alike(b, c, call.now)
    ensures Reply(l, b, call) == Reply(l, c, call)
    ensures Alike(After(l, b, call), After(l, c, call), call.now)
    ensures call.Cleanup? ==> Alike(After(l, b, call), c, call.now)
  {
    forall key
      ensures Live(After(l, b, call), key, call.now) == Live(After(l, c, call), key, call.now)
      ensures call.Cleanup? ==> Live(After(l, b, call), key, call.now) == Live(c, key, call.now)
    {
      assert Live(b, key, call.now) == Live(c, key, call.now);
      assert !call.Cleanup? ==> Live(b, call.key, call.now) == Live(c, call.key, call.now);
    }
  }

  lemma {:induction false} CleanupInvisibleFrom(l: Limits, b: Buckets, c: Buckets, calls: seq<Call>, now: int)
    requires Alike(b, c, now) && Chronological(calls) && (calls != [] ==> now <= calls[0].now)
    ensures Replies(l, b, calls) == Replies(l, c, WithoutCleanups(calls))
    decreases |calls|
  {
    if calls != [] {
      var call, rest := calls[0], calls[1..];
      AlikeLater(b, c, now, call.now);
      AlikeAfter(l, b, c, call);
      if call.Cleanup? {
        CleanupInvisibleFrom(l, After(l, b, call), c, rest, call.now);
        assert WithoutCleanups(calls) == WithoutCleanups(rest);
      } else {
        CleanupInvisibleFrom(l, After(l, b, call), After(l, c, call), rest, call.now);
        assert WithoutCleanups(calls)[1..] == WithoutCleanups(rest);
      }
    }
  }

  /** Cleanups at arbitrary moments never change an answer. */
  lemma CleanupIsInvisible(l: Limits, calls: seq<Call>)
    requires Chronological(calls)
    ensures Replies(l, map[], calls) == Replies(l, map[], WithoutCleanups(calls))
  {
    if calls != [] {
      CleanupInvisibleFrom(l, map[], map[], calls, calls[0].now);
    }
  }

  // ----- the bound on admissions

  function Cap(l: Limits): nat {
    if l.max < 1 then 1 else l.max
  }

  /** The entry a call adds to the admissions of a key, if any. */
  function Admission(l: Limits, b: Buckets, c: Call, key: string): seq<Entry> {
    if c.Allow? && c.key == key && Reply(l, b, c)
    then [Entry(c.now, After(l, b, c)[key].windowEnd - l.window)] else []
  }

  /** The admissions of one key, each with the start of the window that counted it. */
  function Admissions(l: Limits, b: Buckets, calls: seq<Call>, key: string): seq<Entry>
    decreases |calls|
  {
    if calls == [] then []
    else Admission(l, b, calls[0], key) + Admissions(l, After(l, b, calls[0]), calls[1..], key)
  }

  /** Every admission so far fits the buckets as they stand at `now`. */
  ghost predicate Booked(l: Limits, b: Buckets, log: seq<Entry>, key: string, now: int) {
    && Windowed(log, Cap(l), l.window)
    && (forall i :: 0 <= i < |log| ==> log[i].at <= log[i].start + l.window)
    && if key in b then
         var start := b[key].windowEnd - l.window;
         Counted(log, start, b[key].attempts) && Over(log, start, l.window) && start <= now
       else forall i :: 0 <= i < |log| ==> log[i].start + l.window < now
  }

  /** An attempt at `now` that is counted, not yet entered in the log. */
  lemma CountedAttempt(l: Limits, b: Buckets, log: seq<Entry>, key: string, at: int, now: int)
    requires Booked(l, b, log, key, now) && now <= at && l.window > 0
    ensures var counting := Counting(l, Live(b, key, at), at);
            var start := counting.windowEnd - l.window;
            Counted(log, start, counting.attempts - 1) && Over(log, start, l.window) && start <= at
            && at <= start + l.window
  {
  }

  lemma BookedAfter(l: Limits, b: Buckets, log: seq<Entry>, key: string, c: Call, now: int)
    requires Booked(l, b, log, key, now) && now <= c.now && l.window > 0
    requires c.Reset? ==> c.key != key
    ensures Booked(l, After(l, b, c), log + Admission(l, b, c, key), key, c.now)
  {
    var next := After(l, b, c);
    var counts := (c.Allow? && Reply(l, b, c)) || c.RecordFailure?;
    if !c.Cleanup? && c.key == key && counts {
      CountedAttempt(l, b, log, key, c.now, now);
      if c.Allow? {
        AdmitKeeps(log, c.now, next[key].windowEnd - l.window, next[key].attempts - 1, Cap(l), l.window);
        return;
      }
    }
    assert log + [] == log;
  }

  lemma {:induction false} AdmissionsBooked(l: Limits, b: Buckets, log: seq<Entry>, calls: seq<Call>, key: string, now: int)
    requires Booked(l, b, log, key, now) && l.window > 0
    requires Chronological(calls) && (calls != [] ==> now <= calls[0].now)
    requires forall c :: c in calls && c.Reset? ==> c.key != key
    ensures Windowed(log + Admissions(l, b, calls, key), Cap(l), l.window)
    decreases |calls|
  {
    hide Booked, After, Admission, Windowed;
    if calls == [] {
      assert log + [] == log;
      BookedIsWindowed(l, b, log, key, now);
    } else {
      var c := calls[0];
      var next := After(l, b, c);
      var here := Admission(l, b, c, key);
      BookedAfter(l, b, log, key, c, now);
      AdmissionsBooked(l, next, log + here, calls[1..], key, c.now);
      assert log + (here + Admissions(l, next, calls[1..], key)) == (log + here) + Admissions(l, next, calls[1..], key);
    }
  }

  lemma BookedIsWindowed(l: Limits, b: Buckets, log: seq<Entry>, key: string, now: int)
    requires Booked(l, b, log, key, now)
    ensures Windowed(log, Cap(l), l.window)
  {
  }

  /** Without a reset of the key, no stretch of one window length holds more than twice the
      allowance, however calls, failures and cleanups interleave. */
  lemma AdmissionsAreBounded(l: Limits, calls: seq<Call>, key: string, i: nat, j: nat)
    requires l.window > 0 && Chronological(calls)
    requires forall c :: c in calls && c.Reset? ==> c.key != key
    requires i + 2 * Cap(l) <= j < |Admissions(l, map[], calls, key)|
    ensures Admissions(l, map[], calls, key)[j].at - Admissions(l, map[], calls, key)[i].at > l.window
  {
    var log := Admissions(l, map[], calls, key);
    AdmissionsBooked(l, map[], [], calls, key, if calls == [] then 0 else calls[0].now);
    assert [] + log == log;
    AtMostTwoWindowsFull(log, Cap(l), l.window, i, j);
  }

  // ----- what callers see

  /** So many failures of one key, at the given times. */
  function Failures(key: string, times: seq<int>): seq<Call> {
    if times == [] then [] else Failures(key, times[..|times| - 1]) + [RecordFailure(key, times[|times| - 1])]
  }

  function Attempts(key: string, times: seq<int>): seq<Call> {
    if times == [] then [] else Attempts(key, times[..|times| - 1]) + [Allow(key, times[|times| - 1])]
  }

  function AfterAll(l: Limits, b: Buckets, calls: seq<Call>): Buckets {
    if calls == [] then b else After(l, AfterAll(l, b, calls[..|calls| - 1]), calls[|calls| - 1])
  }

  /** All within one window of the first. */
  ghost predicate InOneWindow(l: Limits, times: seq<int>) {
    forall i :: 0 <= i < |times| ==> times[0] <= times[i] <= times[0] + l.window
  }

  lemma OneMore(l: Limits, b: Buckets, calls: seq<Call>, c: Call)
    ensures AfterAll(l, b, calls + [c]) == After(l, AfterAll(l, b, calls), c)
  {
    hide After;
    assert (calls + [c])[..|calls|] == calls;
  }

  lemma CountsOneMore(l: Limits, b: Buckets, key: string, n: nat, end: int, now: int)
    requires key in b && b[key] == Bucket(n, end) && now <= end
    ensures var c := After(l, b, RecordFailure(key, now)); key in c && c[key] == Bucket(n + 1, end)
    ensures var c := After(l, b, Allow(key, now)); key in c && c[key] == Bucket(if n < l.max then n + 1 else n, end)
  {
  }

  lemma CountsTheFirst(l: Limits, b: Buckets, key: string, now: int)
    requires Live(b, key, now).None?
    ensures var c := After(l, b, RecordFailure(key, now)); key in c && c[key] == Bucket(1, now + l.window)
    ensures var c := After(l, b, Allow(key, now)); key in c && c[key] == Bucket(1, now + l.window)
  {
  }

  lemma {:induction false} FailuresAreCounted(l: Limits, b: Buckets, key: string, times: seq<int>)
    requires times != [] && InOneWindow(l, times) && Live(b, key, times[0]).None?
    ensures var c := AfterAll(l, b, Failures(key, times)); key in c && c[key] == Bucket(|times|, times[0] + l.window)
  {
    var rest, last := times[..|times| - 1], times[|times| - 1];
    OneMore(l, b, Failures(key, rest), RecordFailure(key, last));
    hide After, AfterAll, Live;
    if rest == [] {
      NoneYet(l, b);
      CountsTheFirst(l, b, key, last);
    } else {
      FailuresAreCounted(l, b, key, rest);
      CountsOneMore(l, AfterAll(l, b, Failures(key, rest)), key, |rest|, times[0] + l.window, last);
    }
  }

  lemma NoneYet(l: Limits, b: Buckets)
    ensures AfterAll(l, b, []) == b
  {
  }

  /** After failures within one window, a caller is limited until that window is over, exactly if there
      were as many as the limit; then it is not. */
  lemma FailuresLimitExactly(l: Limits, b: Buckets, key: string, times: seq<int>, now: int)
    requires times != [] && InOneWindow(l, times) && Live(b, key, times[0]).None? && times[0] <= now
    ensures Reply(l, AfterAll(l, b, Failures(key, times)), Limited(key, now)) <==> |times| >= l.max && now <= times[0] + l.window
    ensures Reply(l, AfterAll(l, b, Failures(key, times)), Allow(key, now)) <==> !(|times| >= l.max && now <= times[0] + l.window)
  {
    FailuresAreCounted(l, b, key, times);
  }

  lemma {:induction false} AttemptsAreCounted(l: Limits, b: Buckets, key: string, times: seq<int>)
    requires times != [] && InOneWindow(l, times) && Live(b, key, times[0]).None?
    ensures var c := AfterAll(l, b, Attempts(key, times));
            key in c && c[key] == Bucket(if |times| < Cap(l) then |times| else Cap(l), times[0] + l.window)
  {
    var rest, last := times[..|times| - 1], times[|times| - 1];
    OneMore(l, b, Attempts(key, rest), Allow(key, last));
    hide After, AfterAll, Live;
    if rest == [] {
      NoneYet(l, b);
      CountsTheFirst(l, b, key, last);
    } else {
      AttemptsAreCounted(l, b, key, rest);
      CountsOneMore(l, AfterAll(l, b, Attempts(key, rest)), key, if |rest| < Cap(l) then |rest| else Cap(l), times[0] + l.window, last);
    }
  }

  /** Of the attempts within one window exactly the allowance is admitted, and always the first. */
  lemma AllowanceIsExact(l: Limits, b: Buckets, key: string, times: seq<int>)
    requires times != [] && InOneWindow(l, times) && Live(b, key, times[0]).None?
    ensures var last := |times| - 1;
            Reply(l, AfterAll(l, b, Attempts(key, times[..last])), Allow(key, times[last])) <==> last < Cap(l)
  {
    if |times| > 1 {
      AttemptsAreCounted(l, b, key, times[..|times| - 1]);
    }
  }

  /** A reset forgets the key; no call touches what another key has to respect. */
  lemma ResetForgets(l: Limits, b: Buckets, c: Call, other: string)
    ensures c.Reset? ==> Reply(l, After(l, b, c), Allow(c.key, c.now)) && !Reply(l, After(l, b, c), Limited(c.key, c.now))
    ensures !c.Cleanup? && c.key != other ==> Live(After(l, b, c), other, c.now) == Live(b, other, c.now)
  {
  }
}
