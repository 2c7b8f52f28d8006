/**
  The streaming readers of the envelope parser, byte by byte over a buffered input.
 */
module JsonReader {
  import opened Common
  import opened JsonStrings
  import opened JsonValues

  class Reader {
    const data: Bytes
    var pos: nat

    ghost predicate Valid()
      reads this
    {
      pos <= |data|
    }

    ghost function Ahead(): Bytes
      requires Valid()
      reads this
    {
      data[pos..]
    }

    constructor (data: Bytes)
      ensures Valid() && this.data == data && Ahead() == data
    {
      this.data, pos := data, 0;
    }

    method ReadByte() returns (ok: bool, b: char)
      requires Valid()
      modifies this
      ensures Valid() && ok == (old(Ahead()) != [])
      ensures ok ==> b == old(Ahead())[0] && Ahead() == old(Ahead())[1..]
      ensures !ok ==> pos == old(pos)
    {
      if pos == |data| {
        return false, ' ';
      }
      b := data[pos];
      pos := pos + 1;
      ok := true;
    }

    /** Four hexadecimal digits. */
    method ReadHexRune() returns (ok: bool, value: int)
      requires Valid()
      modifies this
      ensures Valid()
      ensures ok == (|old(Ahead())| >= 4 && Hex4(old(Ahead())[..4]))
      ensures ok ==> value == Unit(old(Ahead())[..4]) && Ahead() == old(Ahead())[4..]
    {
      if |data| - pos < 4 {
        return false, 0;
      }
      var raw := data[pos..pos + 4];
      pos := pos + 4;
      value := 0;
      var k := 0;
      while k < 4
        invariant 0 <= k <= 4
        invariant forall j :: 0 <= j < k ==> HexDigit(raw[j])
        invariant k == 0 ==> value == 0
        invariant k == 1 ==> value == HexValue(raw[0])
        invariant k == 2 ==> value == HexValue(raw[0]) * 16 + HexValue(raw[1])
        invariant k == 3 ==> value == (HexValue(raw[0]) * 16 + HexValue(raw[1])) * 16 + HexValue(raw[2])
        invariant k == 4 ==> value == ((HexValue(raw[0]) * 16 + HexValue(raw[1])) * 16 + HexValue(raw[2])) * 16 + HexValue(raw[3])
      {
        if !HexDigit(raw[k]) {
          return false, 0;
        }
        value := value * 16 + HexValue(raw[k]);
        k := k + 1;
      }
      ok := true;
    }

    /** What follows a backslash. */
    method ReadEscape() returns (ok: bool, written: Bytes)
      requires Valid() && pos > 0 && data[pos - 1] == '\\'
      modifies this
      ensures Valid()
      ensures var item := ReadItem(['\\'] + old(Ahead()));
              ok == item.Ok? && (ok ==> WellFormed(item.value) && written == ItemMeaning(item.value) && Ahead() == item.rest)
    {
      ghost var s := ['\\'] + Ahead();
      var escaped;
      ok, escaped := ReadByte();
      if !ok {
        return false, [];
      }
      if ShortEscape(escaped) {
        return true, [ShortMeaning(escaped)];
      }
      if escaped != 'u' {
        return false, [];
      }
      assert Ahead() == s[2..];
      var r;
      ok, r := ReadHexRune();
      assert |s| >= 6 ==> s[2..][..4] == s[2..6];
      if !ok {
        return false, [];
      }
      if !Surrogate(r) {
        return true, EncodeRune(r);
      }
      if |data| - pos < 2 || data[pos] != '\\' || data[pos + 1] != 'u' {
        return false, [];
      }
      pos := pos + 2;
      assert Ahead() == s[8..];
      var r2;
      ok, r2 := ReadHexRune();
      assert |s| >= 12 ==> s[8..][..4] == s[8..12];
      if !ok || !HighSurrogate(r) || !LowSurrogate(r2) {
        return false, [];
      }
      written := EncodeRune(Combine(r, r2));
    }

    /** One element of a string body whose first byte `b` has just been read. */
    method ReadElement(b: char) returns (ok: bool, written: Bytes)
      requires Valid() && pos > 0 && data[pos - 1] == b && b != '"'
      modifies this
      ensures Valid()
      ensures var item := ReadItem([b] + old(Ahead()));
              ok == item.Ok? && (ok ==> WellFormed(item.value) && written == ItemMeaning(item.value) && Ahead() == item.rest)
    {
      if b == '\\' {
        ok, written := ReadEscape();
      } else {
        ok, written := b as int >= 0x20, [b];
      }
    }

    /** A whole string, never writing more than `max` bytes. */
    method ReadJsonString(max: nat) returns (ok: bool, written: Bytes)
      requires Valid()
      modifies this
      ensures Valid() && |written| <= max
      ensures var r := ReadString(old(Ahead()), max);
              ok == r.Ok? && (ok ==> written == r.value && Ahead() == r.rest)
    {
      var first;
      written := [];
      ok, first := ReadByte();
      if !ok || first != '"' {
        return false, [];
      }
      ghost var body := Ahead();
      PrependNothing(ReadBody(body));
      while true
        invariant Valid() && |written| <= max
        invariant Prepend(written, ReadBody(Ahead())) == ReadBody(body)
        decreases |data| - pos
      {
        hide ReadItem, ItemMeaning;
        ghost var before := Ahead();
        var b;
        ok, b := ReadByte();
        if !ok {
          return false, written;
        }
        if b == '"' {
          assert written + [] == written;
          return true, written;
        }
        assert before == [b] + Ahead();
        var more;
        ok, more := ReadElement(b);
        if !ok || |written| + |more| > max {
          return false, written;
        }
        ReadItemSound(before);
        PrependTwice(written, more, ReadBody(Ahead()));
        written := written + more;
      }
    }

    /** Leaves the first byte that is not white space unread; false at the end of the input. */
    method SkipWhitespace() returns (ok: bool)
      requires Valid()
      modifies this
      ensures Valid() && Ahead() == SkipBlanks(old(Ahead())) && ok == (Ahead() != [])
    {
      while pos < |data| && Blank(data[pos])
        invariant Valid() && SkipBlanks(Ahead()) == SkipBlanks(old(Ahead()))
        decreases |data| - pos
      {
        assert Ahead()[1..] == data[pos + 1..];
        pos := pos + 1;
      }
      ok := pos < |data|;
    }

    /** The scanner's three variables after one more byte. */
    method Follow(depth: nat, inString: bool, escaped: bool, b: char)
      returns (balanced: bool, newDepth: nat, newInString: bool, newEscaped: bool)
      requires escaped ==> inString
      requires !Ends(At(depth, inString, escaped), b)
      ensures balanced == !Unbalanced(At(depth, inString, escaped), b) && (newEscaped ==> newInString)
      ensures balanced ==> At(newDepth, newInString, newEscaped) == Advance(At(depth, inString, escaped), b)
    {
      balanced, newDepth, newInString, newEscaped := true, depth, inString, escaped;
      if inString {
        if escaped {
          newEscaped := false;
        } else if b == '\\' {
          newEscaped := true;
        } else if b == '"' {
          newInString := false;
        }
        return;
      }
      if b == '"' {
        newInString := true;
      } else if b == '{' || b == '[' {
        newDepth := depth + 1;
      } else if b == '}' || b == ']' {
        if depth == 0 {
          balanced := false;
        } else {
          newDepth := depth - 1;
        }
      }
    }

    /** One raw value, found by depth and string state alone. */
    method ReadRawValue(max: nat, valid: Bytes -> bool) returns (ok: bool, value: Bytes)
      requires Valid()
      modifies this
      ensures Valid()
      ensures var r := ReadRaw(old(Ahead()), max, valid);
              ok == r.Ok? && (ok ==> value == r.value && Ahead() == r.rest)
    {
      hide SkipBlanks, Trim, Advance;
      ok := SkipWhitespace();
      value := [];
      if !ok {
        return;
      }
      ghost var start := Ahead();
      PrependNothing(ScanFrom(start, START));
      var raw: Bytes := [];
      var depth: nat := 0;
      var inString, escaped := false, false;
      while true
        invariant Valid() && |raw| <= max && (escaped ==> inString)
        invariant Prepend(raw, ScanFrom(Ahead(), At(depth, inString, escaped))) == ScanFrom(start, START)
        decreases |data| - pos
      {
        ghost var p := At(depth, inString, escaped);
        ghost var before := Ahead();
        var b;
        ok, b := ReadByte();
        if !ok {
          return;
        }
        if !inString && depth == 0 && (b == ',' || b == '}') {
          pos := pos - 1;
          assert Ahead() == before && raw + [] == raw;
          break;
        }
        if |raw| + 1 > max {
          return false, [];
        }
        PrependTwice(raw, [b], ScanFrom(Ahead(), Advance(p, b)));
        raw := raw + [b];
        var balanced;
        balanced, depth, inString, escaped := Follow(depth, inString, escaped, b);
        if !balanced {
          return false, [];
        }
      }
      value := Trim(raw);
      ok := value != [] && valid(value);
    }
  }

  ghost function At(depth: nat, inString: bool, escaped: bool): Position {
    Position(depth, if !inString then Outside else if escaped then AfterBackslash else InString)
  }
}
