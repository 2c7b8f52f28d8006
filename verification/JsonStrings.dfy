/**
  JSON strings as the archive envelope's streaming reader decodes them: the escapes of section 7 of
  RFC 8259, surrogate pairs included, produced as UTF-8.

  A byte is modelled as a character below 256; a byte sequence is a string of such characters.
 */
module JsonStrings {

  type Bytes = string

  /** The result of reading something off the front of the input. */
  datatype Read<T> = Malformed | Ok(value: T, rest: Bytes)

  // ----- UTF-8

  predicate Surrogate(r: int) {
    0xD800 <= r < 0xE000
  }

  predicate ScalarValue(r: int) {
    0 <= r < 0x110000 && !Surrogate(r)
  }

  function EncodeRune(r: int): (s: Bytes)
    requires ScalarValue(r)
    ensures 1 <= |s| <= 4
  {
    if r < 0x80 then [r as char]
    else if r < 0x800 then [(0xC0 + r / 64) as char, (0x80 + r % 64) as char]
    else if r < 0x10000 then [(0xE0 + r / 4096) as char, (0x80 + r / 64 % 64) as char, (0x80 + r % 64) as char]
    else [(0xF0 + r / 262144) as char, (0x80 + r / 4096 % 64) as char, (0x80 + r / 64 % 64) as char,
          (0x80 + r % 64) as char]
  }

  predicate Continuation(c: char) {
    0x80 <= c as int < 0xC0
  }

  /** Reads one rune back from well-formed UTF-8; -1 if there is none. */
  function DecodeRune(s: Bytes): int {
    if s == [] then -1
    else
      var a := s[0] as int;
      if a < 0x80 then a
      else if 0xC0 <= a < 0xE0 && |s| > 1 && Continuation(s[1]) then (a - 0xC0) * 64 + (s[1] as int - 0x80)
      else if 0xE0 <= a < 0xF0 && |s| > 2 && Continuation(s[1]) && Continuation(s[2]) then
        (a - 0xE0) * 4096 + (s[1] as int - 0x80) * 64 + (s[2] as int - 0x80)
      else if 0xF0 <= a < 0xF8 && |s| > 3 && Continuation(s[1]) && Continuation(s[2]) && Continuation(s[3]) then
        (a - 0xF0) * 262144 + (s[1] as int - 0x80) * 4096 + (s[2] as int - 0x80) * 64 + (s[3] as int - 0x80)
      else -1
  }

  lemma ThreeByteRune(r: int, s: Bytes)
    requires 0x800 <= r < 0x10000 && |s| > 2
    requires s[0] as int == 0xE0 + r / 4096 && s[1] as int == 0x80 + r / 64 % 64 && s[2] as int == 0x80 + r % 64
    ensures DecodeRune(s) == r
  {
    assert r == r / 4096 * 4096 + r / 64 % 64 * 64 + r % 64;
  }

  lemma FourByteRune(r: int, s: Bytes)
    requires 0x10000 <= r < 0x110000 && |s| > 3
    requires s[0] as int == 0xF0 + r / 262144 && s[1] as int == 0x80 + r / 4096 % 64
    requires s[2] as int == 0x80 + r / 64 % 64 && s[3] as int == 0x80 + r % 64
    ensures DecodeRune(s) == r
  {
    assert r == r / 262144 * 262144 + r / 4096 % 64 * 4096 + r / 64 % 64 * 64 + r % 64;
  }

  /** The UTF-8 produced for a rune is the UTF-8 that reads back as it. */
  lemma RuneRoundTrip(r: int, rest: Bytes)
    requires ScalarValue(r)
    ensures DecodeRune(EncodeRune(r) + rest) == r
  {
    var s := EncodeRune(r) + rest;
    if r < 0x800 {
      ShortRune(r, s);
    } else if r < 0x10000 {
      hide DecodeRune;
      ThreeByteRune(r, s);
    } else {
      hide DecodeRune;
      FourByteRune(r, s);
    }
  }

  lemma ShortRune(r: int, s: Bytes)
    requires 0 <= r < 0x800 && EncodeRune(r) <= s
    ensures DecodeRune(s) == r
  {
  }

  // ----- escapes

  predicate HexDigit(c: char) {
    '0' <= c <= '9' || 'a' <= c <= 'f' || 'A' <= c <= 'F'
  }

  function HexValue(c: char): (v: int)
    requires HexDigit(c)
    ensures 0 <= v < 16
  {
    if c <= '9' then c as int - '0' as int
    else if c >= 'a' then c as int - 'a' as int + 10 else c as int - 'A' as int + 10
  }

  predicate Hex4(s: Bytes) {
    |s| == 4 && HexDigit(s[0]) && HexDigit(s[1]) && HexDigit(s[2]) && HexDigit(s[3])
  }

  function Unit(s: Bytes): (v: int)
    requires Hex4(s)
    ensures 0 <= v < 0x10000
  {
    ((HexValue(s[0]) * 16 + HexValue(s[1])) * 16 + HexValue(s[2])) * 16 + HexValue(s[3])
  }

  predicate HighSurrogate(u: int) {
    0xD800 <= u < 0xDC00
  }

  predicate LowSurrogate(u: int) {
    0xDC00 <= u < 0xE000
  }

  function Combine(hi: int, lo: int): (r: int)
    requires HighSurrogate(hi) && LowSurrogate(lo)
    ensures 0x10000 <= r < 0x110000
  {
    (hi - 0xD800) * 0x400 + (lo - 0xDC00) + 0x10000
  }

  predicate ShortEscape(c: char) {
    c == '"' || c == '\\' || c == '/' || c == 'b' || c == 'f' || c == 'n' || c == 'r' || c == 't'
  }

  function ShortMeaning(c: char): char {
    if c == 'b' then 8 as char else if c == 'f' then 12 as char else if c == 'n' then '\n'
    else if c == 'r' then '\r' else if c == 't' then '\t' else c
  }

  predicate Plain(c: char) {
    c as int >= 0x20 && c != '"' && c != '\\'
  }

  /** One element of a string body, as the grammar has it. */
  datatype Item = Raw(c: char) | Short(c: char) | Escaped(hex: Bytes) | Pair(hi: Bytes, lo: Bytes)

  predicate WellFormed(i: Item) {
    match i
    case Raw(c) => Plain(c)
    case Short(c) => ShortEscape(c)
    case Escaped(hex) => Hex4(hex) && !Surrogate(Unit(hex))
    case Pair(hi, lo) => Hex4(hi) && Hex4(lo) && HighSurrogate(Unit(hi)) && LowSurrogate(Unit(lo))
  }

  function ItemText(i: Item): Bytes {
    match i
    case Raw(c) => [c]
    case Short(c) => ['\\', c]
    case Escaped(hex) => ['\\', 'u'] + hex
    case Pair(hi, lo) => ['\\', 'u'] + hi + ['\\', 'u'] + lo
  }

  function ItemMeaning(i: Item): Bytes
    requires WellFormed(i)
  {
    match i
    case Raw(c) => [c]
    case Short(c) => [ShortMeaning(c)]
    case Escaped(hex) => EncodeRune(Unit(hex))
    case Pair(hi, lo) => EncodeRune(Combine(Unit(hi), Unit(lo)))
  }

  predicate AllWellFormed(items: seq<Item>) {
    forall i :: 0 <= i < |items| ==> WellFormed(items[i])
  }

  function TextOf(items: seq<Item>): Bytes {
    if items == [] then [] else ItemText(items[0]) + TextOf(items[1..])
  }

  function MeaningOf(items: seq<Item>): Bytes
    requires AllWellFormed(items)
  {
    if items == [] then [] else ItemMeaning(items[0]) + MeaningOf(items[1..])
  }

  // ----- the reader

  /** Reads one element of a string body. */
  function ReadItem(s: Bytes): Read<Item>
    requires s != []
  {
    if s[0] != '\\' then
      if Plain(s[0]) then Ok(Raw(s[0]), s[1..]) else Malformed
    else if |s| < 2 then Malformed
    else if ShortEscape(s[1]) then Ok(Short(s[1]), s[2..])
    else if s[1] != 'u' || |s| < 6 || !Hex4(s[2..6]) then Malformed
    else if !Surrogate(Unit(s[2..6])) then Ok(Escaped(s[2..6]), s[6..])
    else if |s| < 12 || s[6] != '\\' || s[7] != 'u' || !Hex4(s[8..12]) then Malformed
    else if HighSurrogate(Unit(s[2..6])) && LowSurrogate(Unit(s[8..12])) then Ok(Pair(s[2..6], s[8..12]), s[12..])
    else Malformed
  }

  lemma ReadItemSound(s: Bytes)
    requires s != [] && ReadItem(s).Ok?
    ensures WellFormed(ReadItem(s).value) && s == ItemText(ReadItem(s).value) + ReadItem(s).rest
    ensures |ReadItem(s).rest| < |s| && s[0] != '"'
  {
  }

  lemma ReadItemComplete(i: Item, rest: Bytes)
    requires WellFormed(i)
    ensures ReadItem(ItemText(i) + rest) == Ok(i, rest) && (ItemText(i) + rest)[0] != '"'
  {
    var s := ItemText(i) + rest;
    match i
    case Escaped(hex) =>
      assert s[2..6] == hex && s[6..] == rest;
    case Pair(hi, lo) =>
      assert s[2..6] == hi && s[8..12] == lo && s[12..] == rest;
    case _ =>
  }

  function Prepend(a: Bytes, r: Read<Bytes>): Read<Bytes> {
    match r
    case Malformed => Malformed
    case Ok(value, rest) => Ok(a + value, rest)
  }

  lemma PrependNothing(r: Read<Bytes>)
    ensures Prepend([], r) == r
  {
    if r.Ok? {
      assert [] + r.value == r.value;
    }
  }

  lemma PrependTwice(a: Bytes, b: Bytes, r: Read<Bytes>)
    ensures Prepend(a + b, r) == Prepend(a, Prepend(b, r))
  {
    if r.Ok? {
      assert a + b + r.value == a + (b + r.value);
    }
  }

  /** Reads a string body up to and including the closing quote. */
  function ReadBody(s: Bytes): Read<Bytes>
    decreases |s|
  {
    if s == [] then Malformed
    else if s[0] == '"' then Ok([], s[1..])
    else
      var item := ReadItem(s);
      if item.Malformed? then Malformed
      else
        ReadItemSound(s);
        Prepend(ItemMeaning(item.value), ReadBody(item.rest))
  }

  /** Reads a whole string whose decoded length may not exceed `max`. */
  function ReadString(s: Bytes, max: nat): Read<Bytes> {
    if s == [] || s[0] != '"' then Malformed
    else
      var body := ReadBody(s[1..]);
      if body.Ok? && |body.value| <= max then body else Malformed
  }

  function Quoted(items: seq<Item>): Bytes {
    ['"'] + TextOf(items) + ['"']
  }

  lemma {:induction false} ReadBodyComplete(items: seq<Item>, rest: Bytes)
    requires AllWellFormed(items)
    ensures ReadBody(TextOf(items) + ['"'] + rest) == Ok(MeaningOf(items), rest)
  {
    if items == [] {
      assert TextOf(items) + ['"'] + rest == ['"'] + rest;
    } else {
      var tail := TextOf(items[1..]) + ['"'] + rest;
      assert TextOf(items) + ['"'] + rest == ItemText(items[0]) + tail;
      ReadItemComplete(items[0], tail);
      ReadBodyComplete(items[1..], rest);
    }
  }

  lemma {:induction false} ReadBodySound(s: Bytes) returns (items: seq<Item>)
    requires ReadBody(s).Ok?
    ensures AllWellFormed(items)
    ensures s == TextOf(items) + ['"'] + ReadBody(s).rest && ReadBody(s).value == MeaningOf(items)
    decreases |s|
  {
    if s[0] == '"' {
      items := [];
    } else {
      ReadItemSound(s);
      var item := ReadItem(s);
      var tail := ReadBodySound(item.rest);
      items := [item.value] + tail;
      assert items[1..] == tail;
      assert s == ItemText(item.value) + (TextOf(tail) + ['"'] + ReadBody(s).rest);
    }
  }

  /** The reader inverts every escaping of every string within its bound. */
  lemma ReadStringInverts(items: seq<Item>, rest: Bytes, max: nat)
    requires AllWellFormed(items)
    ensures ReadString(Quoted(items) + rest, max) ==
            if |MeaningOf(items)| <= max then Ok(MeaningOf(items), rest) else Malformed
  {
    assert (Quoted(items) + rest)[1..] == TextOf(items) + ['"'] + rest;
    ReadBodyComplete(items, rest);
  }

  /** Whatever it accepts is a well-formed string, decoded to its meaning, within the bound. */
  lemma ReadStringSound(s: Bytes, max: nat) returns (items: seq<Item>)
    requires ReadString(s, max).Ok?
    ensures AllWellFormed(items) && s == Quoted(items) + ReadString(s, max).rest
    ensures ReadString(s, max).value == MeaningOf(items) && |MeaningOf(items)| <= max
  {
    hide ReadBody, TextOf, MeaningOf, AllWellFormed;
    items := ReadBodySound(s[1..]);
    assert s == ['"'] + s[1..];
  }
}
