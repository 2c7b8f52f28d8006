/**
  Sorted lists of names without repetition: sorting by byte order, then compacting in place.
 */
module NameLists {
  /** Byte order. */
  predicate Before(a: string, b: string) {
    b != [] && (a == [] || a[0] < b[0] || (a[0] == b[0] && Before(a[1..], b[1..])))
  }

  predicate Sorted(s: seq<string>) {
    forall i, j :: 0 <= i < j < |s| ==> !Before(s[j], s[i])
  }

  predicate Ascending(s: seq<string>) {
    forall i, j :: 0 <= i < j < |s| ==> Before(s[i], s[j])
  }

  function Elements(s: seq<string>): set<string> {
    set i | 0 <= i < |s| :: s[i]
  }

  lemma {:induction false} Compared(a: string, b: string)
    ensures a == b || Before(a, b) || Before(b, a)
    ensures !(Before(a, b) && Before(b, a)) && !Before(a, a)
  {
    if a != [] && b != [] && a[0] == b[0] {
      Compared(a[1..], b[1..]);
      assert a == [a[0]] + a[1..] && b == [b[0]] + b[1..];
    }
    if a != [] {
      Compared(a[1..], a[1..]);
    }
  }

  lemma {:induction false} Chained(a: string, b: string, c: string)
    requires !Before(b, a) && !Before(c, b)
    ensures !Before(c, a)
  {
    if a != [] && b != [] && c != [] && a[0] == b[0] == c[0] {
      Chained(a[1..], b[1..], c[1..]);
    }
  }

  // ----- sorting

  function Insert(x: string, s: seq<string>): seq<string> {
    if s == [] || Before(x, s[0]) then [x] + s else [s[0]] + Insert(x, s[1..])
  }

  function Sort(s: seq<string>): seq<string> {
    if s == [] then [] else Insert(s[0], Sort(s[1..]))
  }

  lemma ElementsAround(x: string, s: seq<string>)
    ensures Elements([x] + s) == {x} + Elements(s) && Elements(s + [x]) == Elements(s) + {x}
  {
    forall y | y in {x} + Elements(s) ensures y in Elements([x] + s) && y in Elements(s + [x]) {
      if y == x {
        assert ([x] + s)[0] == x && (s + [x])[|s|] == x;
      } else {
        var i :| 0 <= i < |s| && s[i] == y;
        assert ([x] + s)[i + 1] == y && (s + [x])[i] == y;
      }
    }
  }

  /** Nothing in the list comes before `x`. */
  predicate Leads(x: string, s: seq<string>) {
    forall y :: y in Elements(s) ==> !Before(y, x)
  }

  lemma SortedAround(x: string, s: seq<string>)
    requires Sorted(s) && Leads(x, s)
    ensures Sorted([x] + s)
  {
    forall j | 0 <= j < |s| ensures !Before(s[j], x) {
      assert s[j] in Elements(s);
    }
  }

  lemma FirstLeads(s: seq<string>)
    requires Sorted(s) && s != []
    ensures Leads(s[0], s) && Leads(s[0], s[1..]) && Sorted(s[1..])
  {
    Compared(s[0], s[0]);
  }

  lemma {:induction false} InsertKeeps(x: string, s: seq<string>)
    requires Sorted(s)
    ensures Sorted(Insert(x, s)) && Elements(Insert(x, s)) == {x} + Elements(s)
  {
    hide Sorted, Elements;
    ElementsAround(x, s);
    if s == [] {
      NothingLeads(x);
      SortedAround(x, s);
    } else {
      FirstLeads(s);
      Compared(x, s[0]);
      if Before(x, s[0]) {
        forall y | y in Elements(s) ensures !Before(y, x) {
          Chained(x, s[0], y);
        }
        SortedAround(x, s);
      } else {
        InsertKeeps(x, s[1..]);
        var tail := Insert(x, s[1..]);
        SortedAround(s[0], tail);
        ElementsAround(s[0], tail);
        ElementsAround(s[0], s[1..]);
        assert s == [s[0]] + s[1..];
      }
    }
  }

  lemma NothingLeads(x: string)
    ensures Leads(x, [])
  {
  }

  lemma {:induction false} SortKeeps(s: seq<string>)
    ensures Sorted(Sort(s)) && Elements(Sort(s)) == Elements(s)
  {
    if s != [] {
      SortKeeps(s[1..]);
      InsertKeeps(s[0], Sort(s[1..]));
      assert s == [s[0]] + s[1..];
    }
  }

  // ----- compaction

  /** Drops every element equal to the one kept before it. */
  function Compacted(s: seq<string>): (r: seq<string>)
    ensures |r| <= |s| && (s != [] ==> r != [])
  {
    if |s| < 2 then s
    else
      var out := Compacted(s[..|s| - 1]);
      if s[|s| - 1] != out[|out| - 1] then out + [s[|s| - 1]] else out
  }

  /** In place: the kept elements are moved to the front. */
  method CompactStrings(values: array<string>) returns (n: nat)
    modifies values
    ensures n <= values.Length && values[..n] == Compacted(old(values[..]))
  {
    if values.Length < 2 {
      assert values[..values.Length] == values[..];
      return values.Length;
    }
    n := 1;
    var i := 1;
    assert values[..1] == Compacted(old(values[..])[..1]);
    while i < values.Length
      invariant 1 <= n <= i <= values.Length
      invariant values[i..] == old(values[..])[i..]
      invariant values[..n] == Compacted(old(values[..])[..i])
    {
      ghost var was := old(values[..]);
      assert was[..i + 1][..i] == was[..i] && values[i] == was[i];
      assert values[i..][1..] == values[i + 1..] && was[i..][1..] == was[i + 1..];
      if values[i] != values[n - 1] {
        assert Compacted(was[..i + 1]) == values[..n] + [values[i]];
        values[n] := values[i];
        n := n + 1;
        assert values[..n] == Compacted(was[..i + 1]);
      }
      i := i + 1;
    }
    assert old(values[..])[..values.Length] == old(values[..]);
  }

  lemma {:induction false} CompactedKeeps(s: seq<string>)
    requires Sorted(s)
    ensures Ascending(Compacted(s)) && Elements(Compacted(s)) == Elements(s)
    ensures s != [] ==> Compacted(s)[|Compacted(s)| - 1] == s[|s| - 1]
  {
    if |s| >= 2 {
      var init, last := s[..|s| - 1], s[|s| - 1];
      CompactedKeeps(init);
      var out := Compacted(init);
      assert s == init + [last];
      ElementsAround(last, init);
      ElementsAround(last, out);
      if last != out[|out| - 1] {
        forall j | 0 <= j < |out| ensures Before(out[j], last) {
          BelowLast(out, j, last);
        }
      } else {
        assert out[|out| - 1] in Elements(out);
      }
    }
  }

  lemma BelowLast(out: seq<string>, j: nat, last: string)
    requires Ascending(out) && j < |out| && out[|out| - 1] != last && !Before(last, out[|out| - 1])
    ensures Before(out[j], last)
  {
    var top := out[|out| - 1];
    Compared(top, last);
    Compared(out[j], top);
    Chained(out[j], top, last);
    Compared(out[j], last);
    if j < |out| - 1 {
      assert Before(out[j], top);
      assert out[j] != last by {
        Compared(top, out[j]);
      }
    }
  }

  /** Sorting and compacting any list gives its elements in strictly ascending order. */
  lemma SortedAndCompacted(s: seq<string>)
    ensures Ascending(Compacted(Sort(s))) && Elements(Compacted(Sort(s))) == Elements(s)
  {
    SortKeeps(s);
    CompactedKeeps(Sort(s));
  }

  /** An ascending list is determined by its elements. */
  lemma {:induction false} AscendingIsUnique(a: seq<string>, b: seq<string>)
    requires Ascending(a) && Ascending(b) && Elements(a) == Elements(b)
    ensures a == b
  {
    if a == [] {
      EmptyElements(b);
    } else {
      assert a[0] in Elements(b) && b != [];
      assert b[0] in Elements(a);
      var i :| 0 <= i < |b| && b[i] == a[0];
      var j :| 0 <= j < |a| && a[j] == b[0];
      Compared(a[0], b[0]);
      assert a[0] == b[0];
      TailElements(a);
      TailElements(b);
      AscendingIsUnique(a[1..], b[1..]);
      assert a == [a[0]] + a[1..] && b == [b[0]] + b[1..];
    }
  }

  lemma EmptyElements(b: seq<string>)
    ensures Elements(b) == {} <==> b == []
  {
    assert b != [] ==> b[0] in Elements(b);
  }

  lemma TailElements(a: seq<string>)
    requires a != [] && Ascending(a)
    ensures Elements(a[1..]) == Elements(a) - {a[0]}
  {
    assert a == [a[0]] + a[1..];
    Compared(a[0], a[0]);
  }
}
