/**
  Skipping over one JSON value without building it: the scanner only tracks nesting depth and
  whether it is inside a string, and stops at the comma or brace that ends the value.
 */
module JsonValues {
  import opened Common
  import opened JsonStrings

  // ----- white space

  predicate Blank(c: char) {
    c == ' ' || c == '\n' || c == '\r' || c == '\t'
  }

  predicate AllBlank(s: Bytes) {
    forall i :: 0 <= i < |s| ==> Blank(s[i])
  }

  /** ASCII white space as trimming sees it: vertical tab and form feed are included. */
  predicate Space(c: char) {
    Blank(c) || c as int == 11 || c as int == 12
  }

  /** The UTF-8 form of one Unicode white space character. */
  predicate WhiteRune(t: Bytes) {
    || (|t| == 1 && Space(t[0]))
    || (|t| == 2 && t[0] as int == 0xC2 && (t[1] as int == 0x85 || t[1] as int == 0xA0))
    || (|t| == 3 && WhiteTriple(t[0] as int, t[1] as int, t[2] as int))
  }

  predicate WhiteTriple(a: int, b: int, c: int) {
    || (a == 0xE1 && b == 0x9A && c == 0x80)
    || (a == 0xE2 && b == 0x80 && (0x80 <= c <= 0x8A || c == 0xA8 || c == 0xA9 || c == 0xAF))
    || (a == 0xE2 && b == 0x81 && c == 0x9F)
    || (a == 0xE3 && b == 0x80 && c == 0x80)
  }

  /** How many bytes the white space character at the front takes, 0 if there is none. */
  function WhiteHead(s: Bytes): (n: nat)
    ensures n <= |s|
  {
    if |s| >= 1 && WhiteRune(s[..1]) then 1
    else if |s| >= 2 && WhiteRune(s[..2]) then 2
    else if |s| >= 3 && WhiteRune(s[..3]) then 3 else 0
  }

  function WhiteTail(s: Bytes): (n: nat)
    ensures n <= |s|
  {
    if |s| >= 1 && WhiteRune(s[|s| - 1..]) then 1
    else if |s| >= 2 && WhiteRune(s[|s| - 2..]) then 2
    else if |s| >= 3 && WhiteRune(s[|s| - 3..]) then 3 else 0
  }

  function SkipBlanks(s: Bytes): Bytes {
    if s != [] && Blank(s[0]) then SkipBlanks(s[1..]) else s
  }

  function TrimRight(s: Bytes): (t: Bytes)
    ensures |t| <= |s|
  {
    if WhiteTail(s) > 0 then TrimRight(s[..|s| - WhiteTail(s)]) else s
  }

  function TrimLeft(s: Bytes): (t: Bytes)
    ensures |t| <= |s|
  {
    if WhiteHead(s) > 0 then TrimLeft(s[WhiteHead(s)..]) else s
  }

  function Trim(s: Bytes): Bytes {
    TrimRight(TrimLeft(s))
  }

  // ----- values, with whatever white space the grammar allows

  /** `Atom` is a number or a literal name; `Compound` an array or an object. */
  datatype Json = Atom(text: Bytes) | Text(items: seq<Item>) | Compound(named: bool, blank: Bytes, entries: Entries)

  datatype Name = Name(items: seq<Item>, before: Bytes, after: Bytes)

  datatype Entries = Nil | Cons(before: Bytes, name: Option<Name>, value: Json, after: Bytes, tail: Entries)

  /** Means nothing to the scanner outside a string. */
  predicate Inert(c: char) {
    c != '{' && c != '}' && c != '[' && c != ']' && c != ',' && c != '"'
  }

  predicate AtomChar(c: char) {
    c as int < 128 && !Space(c) && Inert(c) && c != ':' && c != '\\'
  }

  predicate NameOk(l: Option<Name>, named: bool) {
    && l.Some? == named
    && (l.Some? ==> AllWellFormed(l.value.items) && AllBlank(l.value.before) && AllBlank(l.value.after))
  }

  predicate JsonOk(j: Json)
    decreases j
  {
    match j
    case Atom(text) => text != [] && forall i :: 0 <= i < |text| ==> AtomChar(text[i])
    case Text(items) => AllWellFormed(items)
    case Compound(named, blank, entries) => AllBlank(blank) && EntriesOk(entries, named)
  }

  predicate EntriesOk(e: Entries, named: bool)
    decreases e
  {
    match e
    case Nil => true
    case Cons(before, name, value, after, tail) =>
      AllBlank(before) && NameOk(name, named) && JsonOk(value) && AllBlank(after) && EntriesOk(tail, named)
  }

  function NameText(l: Option<Name>): Bytes {
    if l.None? then [] else Quoted(l.value.items) + l.value.before + [':'] + l.value.after
  }

  function JsonText(j: Json): Bytes
    decreases j
  {
    match j
    case Atom(text) => text
    case Text(items) => Quoted(items)
    case Compound(named, blank, entries) =>
      [if named then '{' else '['] + (if entries.Nil? then blank else EntriesText(entries))
      + [if named then '}' else ']']
  }

  function EntriesText(e: Entries): Bytes
    decreases e
  {
    match e
    case Nil => []
    case Cons(before, name, value, after, tail) =>
      before + NameText(name) + JsonText(value) + after + if tail.Nil? then [] else [','] + EntriesText(tail)
  }

  // ----- the scanner

  datatype Mode = Outside | InString | AfterBackslash

  datatype Position = Position(depth: nat, mode: Mode)

  const START: Position := Position(0, Outside)

  predicate Ends(p: Position, c: char) {
    p == START && (c == ',' || c == '}')
  }

  /** A closing bracket with nothing open. */
  predicate Unbalanced(p: Position, c: char) {
    p == START && c == ']'
  }

  function Advance(p: Position, c: char): Position {
    match p.mode
    case AfterBackslash => p.(mode := InString)
    case InString => if c == '\\' then p.(mode := AfterBackslash) else if c == '"' then p.(mode := Outside) else p
    case Outside =>
      if c == '"' then p.(mode := InString)
      else if c == '{' || c == '[' then p.(depth := p.depth + 1)
      else if (c == '}' || c == ']') && p.depth > 0 then p.(depth := p.depth - 1)
      else p
  }

  /** The bytes up to the delimiter, which stays unread. */
  function ScanFrom(s: Bytes, p: Position): Read<Bytes>
    decreases |s|
  {
    if s == [] then Malformed
    else if Ends(p, s[0]) then Ok([], s)
    else if Unbalanced(p, s[0]) then Malformed
    else Prepend([s[0]], ScanFrom(s[1..], Advance(p, s[0])))
  }

  /** Reads one value of at most `max` bytes, trailing blanks included. `valid` is the grammar check
      of the standard decoder. */
  function ReadRaw(s: Bytes, max: nat, valid: Bytes -> bool): Read<Bytes> {
    var raw := ScanFrom(SkipBlanks(s), START);
    if raw.Malformed? || |raw.value| > max then Malformed
    else
      var value := Trim(raw.value);
      if value == [] || !valid(value) then Malformed else Ok(value, raw.rest)
  }

  // ----- what the scanner passes over

  /** Where the scanner is after all of `t`, if it neither stops nor fails on the way. */
  function Pass(t: Bytes, p: Position): Option<Position>
    decreases |t|
  {
    if t == [] then Some(p)
    else if Ends(p, t[0]) || Unbalanced(p, t[0]) then None
    else Pass(t[1..], Advance(p, t[0]))
  }

  lemma {:induction false} PassAppend(a: Bytes, b: Bytes, p: Position)
    ensures Pass(a + b, p) == if Pass(a, p).None? then None else Pass(b, Pass(a, p).value)
    decreases |a|
  {
    if a == [] {
      assert a + b == b;
    } else {
      assert (a + b)[1..] == a[1..] + b;
      if !Ends(p, a[0]) && !Unbalanced(p, a[0]) {
        PassAppend(a[1..], b, Advance(p, a[0]));
      }
    }
  }

  lemma {:induction false} ScanPasses(t: Bytes, s: Bytes, p: Position)
    requires Pass(t, p).Some?
    ensures ScanFrom(t + s, p) == Prepend(t, ScanFrom(s, Pass(t, p).value))
    decreases |t|
  {
    if t == [] {
      assert t + s == s;
      PrependNothing(ScanFrom(s, p));
    } else {
      assert (t + s)[1..] == t[1..] + s;
      ScanPasses(t[1..], s, Advance(p, t[0]));
      PrependTwice([t[0]], t[1..], ScanFrom(s, Pass(t, p).value));
      assert [t[0]] + t[1..] == t;
    }
  }

  /** Text without structural characters leaves the scanner where it was. */
  lemma {:induction false} PassInert(t: Bytes, depth: nat)
    requires forall i :: 0 <= i < |t| ==> Inert(t[i])
    ensures Pass(t, Position(depth, Outside)) == Some(Position(depth, Outside))
    decreases |t|
  {
    if t != [] {
      PassInert(t[1..], depth);
    }
  }

  lemma PassItem(i: Item, depth: nat)
    requires WellFormed(i)
    ensures Pass(ItemText(i), Position(depth, InString)) == Some(Position(depth, InString))
  {
    var p := Position(depth, InString);
    var t := ItemText(i);
    match i
    case Raw(c) => assert t[1..] == [];
    case Short(c) =>
      assert t[1..] == [c] && t[1..][1..] == [];
    case Escaped(hex) => PassUnit(hex, depth);
    case Pair(hi, lo) =>
      PassUnit(hi, depth);
      PassUnit(lo, depth);
      PassAppend(['\\', 'u'] + hi, ['\\', 'u'] + lo, p);
      assert t == (['\\', 'u'] + hi) + (['\\', 'u'] + lo);
  }

  lemma {:induction false} PassPlain(t: Bytes, depth: nat)
    requires forall i :: 0 <= i < |t| ==> t[i] != '"' && t[i] != '\\'
    ensures Pass(t, Position(depth, InString)) == Some(Position(depth, InString))
    decreases |t|
  {
    if t != [] {
      PassPlain(t[1..], depth);
    }
  }

  lemma PassUnit(hex: Bytes, depth: nat)
    requires Hex4(hex)
    ensures Pass(['\\', 'u'] + hex, Position(depth, InString)) == Some(Position(depth, InString))
  {
    var p := Position(depth, InString);
    PassPlain(hex, depth);
    PassAppend(['\\', 'u'], hex, p);
    assert ['\\', 'u'][1..] == ['u'] && ['u'][1..] == [];
    assert Pass(['u'], p.(mode := AfterBackslash)) == Some(p);
  }

  lemma {:induction false} PassItems(items: seq<Item>, depth: nat)
    requires AllWellFormed(items)
    ensures Pass(TextOf(items), Position(depth, InString)) == Some(Position(depth, InString))
  {
    if items != [] {
      PassItem(items[0], depth);
      PassItems(items[1..], depth);
      PassAppend(ItemText(items[0]), TextOf(items[1..]), Position(depth, InString));
    }
  }

  lemma PassOne(c: char, p: Position)
    requires !Ends(p, c) && !Unbalanced(p, c)
    ensures Pass([c], p) == Some(Advance(p, c))
  {
    assert [c][1..] == [];
  }

  lemma PassQuoted(items: seq<Item>, depth: nat)
    requires AllWellFormed(items)
    ensures Pass(Quoted(items), Position(depth, Outside)) == Some(Position(depth, Outside))
  {
    var outside, inside := Position(depth, Outside), Position(depth, InString);
    PassOne('"', outside);
    PassOne('"', inside);
    PassItems(items, depth);
    PassAppend(['"'], TextOf(items), outside);
    PassAppend(['"'] + TextOf(items), ['"'], outside);
  }

  /** Text that leaves the scanner where it was can be put together. */
  lemma PassBoth(a: Bytes, b: Bytes, p: Position)
    requires Pass(a, p) == Some(p) && Pass(b, p) == Some(p)
    ensures Pass(a + b, p) == Some(p)
  {
    PassAppend(a, b, p);
  }

  lemma PassFour(a: Bytes, b: Bytes, c: Bytes, d: Bytes, p: Position)
    requires Pass(a, p) == Some(p) && Pass(b, p) == Some(p) && Pass(c, p) == Some(p) && Pass(d, p) == Some(p)
    ensures Pass(a + b + c + d, p) == Some(p)
  {
    hide Pass;
    PassBoth(a, b, p);
    PassBoth(a + b, c, p);
    PassBoth(a + b + c, d, p);
  }

  lemma PassBlank(t: Bytes, depth: nat)
    requires AllBlank(t)
    ensures Pass(t, Position(depth, Outside)) == Some(Position(depth, Outside))
  {
    PassInert(t, depth);
  }

  lemma PassName(n: Option<Name>, named: bool, depth: nat)
    requires NameOk(n, named)
    ensures Pass(NameText(n), Position(depth, Outside)) == Some(Position(depth, Outside))
  {
    if n.Some? {
      hide Pass, Quoted;
      var p := Position(depth, Outside);
      var q := Quoted(n.value.items);
      PassQuoted(n.value.items, depth);
      PassBlank(n.value.before, depth);
      PassBlank(n.value.after, depth);
      PassOne(':', p);
      PassBoth(q, n.value.before, p);
      PassBoth(q + n.value.before, [':'], p);
      PassBoth(q + n.value.before + [':'], n.value.after, p);
    }
  }

  /** By induction on the grammar: a whole value leaves the scanner exactly where it was. */
  lemma {:induction false} PassJson(j: Json, depth: nat)
    requires JsonOk(j)
    ensures Pass(JsonText(j), Position(depth, Outside)) == Some(Position(depth, Outside))
    decreases j
  {
    match j
    case Atom(text) => PassInert(text, depth);
    case Text(items) => PassQuoted(items, depth);
    case Compound(named, blank, entries) =>
      var p, q := Position(depth, Outside), Position(depth + 1, Outside);
      var open, close := if named then '{' else '[', if named then '}' else ']';
      var inner := if entries.Nil? then blank else EntriesText(entries);
      PassOne(open, p);
      PassOne(close, q);
      PassInert(blank, depth + 1);
      PassEntries(entries, named, depth + 1);
      PassAppend([open], inner, p);
      PassAppend([open] + inner, [close], p);
  }

  lemma {:induction false} PassEntries(e: Entries, named: bool, depth: nat)
    requires EntriesOk(e, named) && depth > 0
    ensures Pass(EntriesText(e), Position(depth, Outside)) == Some(Position(depth, Outside))
    decreases e
  {
    if e.Cons? {
      hide Pass, NameText, NameOk, AllBlank, JsonOk, JsonText;
      var p := Position(depth, Outside);
      var name, value := NameText(e.name), JsonText(e.value);
      PassBlank(e.before, depth);
      PassName(e.name, named, depth);
      PassJson(e.value, depth);
      PassBlank(e.after, depth);
      PassEntries(e.tail, named, depth);
      PassOne(',', p);
      PassBoth([','], EntriesText(e.tail), p);
      PassFour(e.before, name, value, e.after, p);
      var all := e.before + name + value + e.after;
      if e.tail.Nil? {
        assert all + [] == all;
      } else {
        PassBoth(all, [','] + EntriesText(e.tail), p);
      }
    }
  }

  // ----- reading a value back exactly

  lemma {:induction false} SkipBlanksPast(lead: Bytes, s: Bytes)
    requires AllBlank(lead) && (s == [] || !Blank(s[0]))
    ensures SkipBlanks(lead + s) == s
  {
    if lead == [] {
      assert lead + s == s;
    } else {
      assert (lead + s)[1..] == lead[1..] + s;
      SkipBlanksPast(lead[1..], s);
    }
  }

  /** Begins and ends with an ASCII character that is not white space. */
  predicate Solid(v: Bytes) {
    v != [] && Firm(v[0]) && Firm(v[|v| - 1])
  }

  predicate Firm(c: char) {
    c as int < 128 && !Space(c)
  }

  lemma FirmHead(s: Bytes)
    requires s != [] && Firm(s[0])
    ensures WhiteHead(s) == 0
  {
  }

  lemma LastDecides(s: Bytes)
    requires s != []
    ensures Firm(s[|s| - 1]) ==> WhiteTail(s) == 0
    ensures Blank(s[|s| - 1]) ==> WhiteTail(s) == 1
  {
  }

  lemma {:induction false} TrimRightPast(v: Bytes, trail: Bytes)
    requires Solid(v) && AllBlank(trail)
    ensures TrimRight(v + trail) == v
  {
    hide WhiteTail, Firm, Blank;
    LastDecides(v + trail);
    if trail == [] {
      assert v + trail == v;
    } else {
      assert (v + trail)[|v + trail| - 1] == trail[|trail| - 1];
      var init := trail[..|trail| - 1];
      assert (v + trail)[..|v + trail| - 1] == v + init;
      TrimRightPast(v, init);
    }
  }

  lemma TrimPast(v: Bytes, trail: Bytes)
    requires Solid(v) && AllBlank(trail)
    ensures Trim(v + trail) == v
  {
    hide WhiteHead, WhiteTail, TrimRight, AllBlank;
    assert (v + trail)[0] == v[0];
    FirmHead(v + trail);
    TrimRightPast(v, trail);
  }

  lemma JsonIsSolid(j: Json)
    requires JsonOk(j)
    ensures Solid(JsonText(j)) && !Blank(JsonText(j)[0])
  {
  }

  /** For every well-formed value with any white space around it, followed by a comma or a closing
      brace, the scanner returns exactly that value and leaves the delimiter unread, provided the
      value and the white space after it fit; otherwise it refuses. */
  lemma ReadRawReturnsValue(lead: Bytes, j: Json, trail: Bytes, next: Bytes, max: nat, valid: Bytes -> bool)
    requires AllBlank(lead) && JsonOk(j) && AllBlank(trail)
    requires next != [] && (next[0] == ',' || next[0] == '}')
    ensures ReadRaw(lead + JsonText(j) + trail + next, max, valid) ==
            if |JsonText(j)| + |trail| <= max && valid(JsonText(j)) then Ok(JsonText(j), next) else Malformed
  {
    hide Solid, Trim, Pass;
    var v := JsonText(j);
    JsonIsSolid(j);
    SolidIsThere(v);
    assert lead + v + trail + next == lead + (v + trail + next);
    assert (v + trail + next)[0] == v[0];
    SkipBlanksPast(lead, v + trail + next);
    PassJson(j, 0);
    PassInert(trail, 0);
    PassAppend(v, trail, START);
    ScanPasses(v + trail, next, START);
    assert ScanFrom(next, START) == Ok([], next);
    assert v + trail + [] == v + trail;
    TrimPast(v, trail);
  }

  lemma SolidIsThere(v: Bytes)
    requires Solid(v)
    ensures v != []
  {
  }

  lemma {:induction false} ScanStopsAtDelimiter(s: Bytes, p: Position)
    requires ScanFrom(s, p).Ok?
    ensures s == ScanFrom(s, p).value + ScanFrom(s, p).rest
    ensures ScanFrom(s, p).rest != [] && (ScanFrom(s, p).rest[0] == ',' || ScanFrom(s, p).rest[0] == '}')
    decreases |s|
  {
    if !Ends(p, s[0]) {
      ScanStopsAtDelimiter(s[1..], Advance(p, s[0]));
      assert s == [s[0]] + s[1..];
    }
  }

  lemma {:induction false} SkipBlanksShortens(s: Bytes)
    ensures |SkipBlanks(s)| <= |s|
  {
    if s != [] && Blank(s[0]) {
      SkipBlanksShortens(s[1..]);
    }
  }

  /** Whatever is accepted fits, passed the grammar check, and ends where a comma or brace follows. */
  lemma ReadRawIsBounded(s: Bytes, max: nat, valid: Bytes -> bool)
    requires ReadRaw(s, max, valid).Ok?
    ensures 0 < |ReadRaw(s, max, valid).value| <= max && valid(ReadRaw(s, max, valid).value)
    ensures var rest := ReadRaw(s, max, valid).rest;
            0 < |rest| <= |s| && (rest[0] == ',' || rest[0] == '}')
  {
    SkipBlanksShortens(s);
    ScanStopsAtDelimiter(SkipBlanks(s), START);
  }
}
