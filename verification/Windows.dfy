/**
  Counting attempts in fixed windows. A limiter that admits at most `cap` attempts per window
  admits at most twice that many in any stretch as long as one window.
 */
module Windows {

  /** An admitted attempt: when it came, and when the window it was counted in began. */
  datatype Entry = Entry(at: int, start: int)

  /** Two admitted attempts, `apart` positions apart, as a limiter with these parameters leaves them. */
  predicate Consistent(a: Entry, b: Entry, apart: nat, cap: nat, length: int) {
    if a.start == b.start then apart < cap else a.at < b.start && a.start + length <= b.start
  }

  ghost predicate Windowed(log: seq<Entry>, cap: nat, length: int) {
    && (forall i :: 0 <= i < |log| ==> log[i].start <= log[i].at)
    && (forall i, j :: 0 <= i < j < |log| ==> Consistent(log[i], log[j], j - i, cap, length))
  }

  /** The window that began at `start` has counted `attempts` attempts. */
  ghost predicate Counted(log: seq<Entry>, start: int, attempts: nat) {
    forall i :: 0 <= i < |log| && log[i].start == start ==> |log| - i <= attempts
  }

  /** All earlier windows are over by `start`. */
  ghost predicate Over(log: seq<Entry>, start: int, length: int) {
    forall i :: 0 <= i < |log| && log[i].start != start ==> log[i].at < start && log[i].start + length <= start
  }

  lemma AdmitKeeps(log: seq<Entry>, at: int, start: int, attempts: nat, cap: nat, length: int)
    requires Windowed(log, cap, length) && Counted(log, start, attempts) && Over(log, start, length)
    requires start <= at && attempts < cap
    ensures var log' := log + [Entry(at, start)];
            Windowed(log', cap, length) && Counted(log', start, attempts + 1) && Over(log', start, length)
  {
  }

  /** Any `2 * cap + 1` admitted attempts in a row span more than one window length, so no stretch
      of that length holds more than `2 * cap`. */
  lemma AtMostTwoWindowsFull(log: seq<Entry>, cap: nat, length: int, i: nat, j: nat)
    requires Windowed(log, cap, length) && cap >= 1
    requires i + 2 * cap <= j < |log|
    ensures log[j].at - log[i].at > length
  {
    var m := i + cap;
    assert Consistent(log[i], log[m], cap, cap, length);
    assert Consistent(log[m], log[j], j - m, cap, length);
  }
}
