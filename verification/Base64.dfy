/**
  The payload's base64 form: the standard alphabet with padding (section 4 of RFC 4648). Decoding
  ignores line breaks.
 */
module Base64 {
  import opened Common
  import opened JsonStrings
  import opened JsonValues

  type Octet = x: int | 0 <= x < 256

  /** Needs no escape in a JSON string and is no white space. */
  predicate Visible(c: char) {
    0x20 < c as int < 0x7F && c != '"' && c != '\\'
  }

  function Digit(v: int): (c: char)
    requires 0 <= v < 64
    ensures Visible(c) && c != '='
  {
    if v < 26 then ('A' as int + v) as char
    else if v < 52 then ('a' as int + v - 26) as char
    else if v < 62 then ('0' as int + v - 52) as char
    else if v == 62 then '+' else '/'
  }

  /** -1 if the character is no digit. */
  function Value(c: char): (v: int)
    ensures -1 <= v < 64
  {
    if 'A' <= c <= 'Z' then c as int - 'A' as int
    else if 'a' <= c <= 'z' then c as int - 'a' as int + 26
    else if '0' <= c <= '9' then c as int - '0' as int + 52
    else if c == '+' then 62 else if c == '/' then 63 else -1
  }

  lemma ValueInvertsDigit(v: int)
    requires 0 <= v < 64
    ensures Value(Digit(v)) == v
  {
  }

  function EncodeGroup(b: seq<Octet>): (t: Bytes)
    requires 1 <= |b| <= 3
    ensures |t| == 4
  {
    if |b| == 1 then [Digit(b[0] / 4), Digit(b[0] % 4 * 16), '=', '=']
    else if |b| == 2 then [Digit(b[0] / 4), Digit(b[0] % 4 * 16 + b[1] / 16), Digit(b[1] % 16 * 4), '=']
    else [Digit(b[0] / 4), Digit(b[0] % 4 * 16 + b[1] / 16), Digit(b[1] % 16 * 4 + b[2] / 64), Digit(b[2] % 64)]
  }

  function Encode(b: seq<Octet>): Bytes {
    if b == [] then []
    else if |b| <= 3 then EncodeGroup(b)
    else EncodeGroup(b[..3]) + Encode(b[3..])
  }

  function DecodeGroup(t: Bytes): Option<seq<Octet>>
    requires |t| == 4
  {
    var v0, v1, v2, v3 := Value(t[0]), Value(t[1]), Value(t[2]), Value(t[3]);
    if v0 < 0 || v1 < 0 then None
    else if t[2] == '=' then
      if t[3] == '=' then Some([v0 * 4 + v1 / 16]) else None
    else if v2 < 0 then None
    else if t[3] == '=' then Some([v0 * 4 + v1 / 16, v1 % 16 * 16 + v2 / 4])
    else if v3 < 0 then None
    else Some([v0 * 4 + v1 / 16, v1 % 16 * 16 + v2 / 4, v2 % 4 * 64 + v3])
  }

  /** Padding is accepted in the last group only. */
  function DecodeGroups(t: Bytes): Option<seq<Octet>> {
    if t == [] then Some([])
    else if |t| < 4 then None
    else
      var group := DecodeGroup(t[..4]);
      if group.None? || (|group.value| < 3 && |t| > 4) then None
      else
        var tail := DecodeGroups(t[4..]);
        if tail.None? then None else Some(group.value + tail.value)
  }

  function WithoutBreaks(t: Bytes): Bytes {
    if t == [] then []
    else (if t[0] == '\r' || t[0] == '\n' then [] else [t[0]]) + WithoutBreaks(t[1..])
  }

  function Decode(t: Bytes): Option<seq<Octet>> {
    DecodeGroups(WithoutBreaks(t))
  }

  // ----- encoding

  predicate AllVisible(t: Bytes) {
    forall i :: 0 <= i < |t| ==> Visible(t[i])
  }

  lemma GroupRoundTrip(b: seq<Octet>)
    requires 1 <= |b| <= 3
    ensures DecodeGroup(EncodeGroup(b)) == Some(b)
  {
    hide Digit, Value;
    var x := b[0];
    ValueInvertsDigit(x / 4);
    if |b| == 1 {
      ValueInvertsDigit(x % 4 * 16);
      assert b == [x];
    } else {
      var y := b[1];
      ValueInvertsDigit(x % 4 * 16 + y / 16);
      if |b| == 2 {
        ValueInvertsDigit(y % 16 * 4);
        assert b == [x, y];
      } else {
        var z := b[2];
        ValueInvertsDigit(y % 16 * 4 + z / 64);
        ValueInvertsDigit(z % 64);
        assert b == [x, y, z];
      }
    }
  }

  lemma GroupIsVisible(b: seq<Octet>)
    requires 1 <= |b| <= 3
    ensures AllVisible(EncodeGroup(b))
  {
    hide Digit;
  }

  /** Encoded text is visible ASCII, without quotes or backslashes, and four characters for every three bytes begun. */
  lemma {:induction false} EncodedShape(b: seq<Octet>)
    ensures AllVisible(Encode(b)) && |Encode(b)| == (|b| + 2) / 3 * 4
  {
    hide EncodeGroup, Visible;
    if 1 <= |b| <= 3 {
      GroupIsVisible(b);
    } else if |b| > 3 {
      GroupIsVisible(b[..3]);
      EncodedShape(b[3..]);
    }
  }

  lemma {:induction false} UnbrokenIsKept(t: Bytes)
    requires AllVisible(t)
    ensures WithoutBreaks(t) == t
  {
    if t != [] {
      UnbrokenIsKept(t[1..]);
      assert t == [t[0]] + t[1..];
    }
  }

  lemma {:induction false} GroupsRoundTrip(b: seq<Octet>)
    ensures DecodeGroups(Encode(b)) == Some(b)
  {
    hide EncodeGroup, DecodeGroup;
    var t := Encode(b);
    if 1 <= |b| <= 3 {
      GroupRoundTrip(b);
      assert t[..4] == t && t[4..] == [];
      assert b + [] == b;
    } else if |b| > 3 {
      GroupRoundTrip(b[..3]);
      assert t[..4] == EncodeGroup(b[..3]) && t[4..] == Encode(b[3..]);
      GroupsRoundTrip(b[3..]);
      assert b == b[..3] + b[3..];
    }
  }

  lemma RoundTrip(b: seq<Octet>)
    ensures Decode(Encode(b)) == Some(b)
  {
    EncodedShape(b);
    UnbrokenIsKept(Encode(b));
    GroupsRoundTrip(b);
  }

  // ----- decoding

  lemma {:induction false} BreaksVanish(a: Bytes, breaks: Bytes, b: Bytes)
    requires forall i :: 0 <= i < |breaks| ==> breaks[i] == '\r' || breaks[i] == '\n'
    ensures WithoutBreaks(a + breaks + b) == WithoutBreaks(a + b)
    decreases |a| + |breaks|
  {
    if a != [] {
      assert (a + breaks + b)[1..] == a[1..] + breaks + b && (a + b)[1..] == a[1..] + b;
      BreaksVanish(a[1..], breaks, b);
    } else if breaks != [] {
      assert (a + breaks + b)[1..] == a + breaks[1..] + b;
      BreaksVanish(a, breaks[1..], b);
    } else {
      assert a + breaks + b == a + b;
    }
  }

  /** Line breaks anywhere in the text do not change what it decodes to. */
  lemma LineBreaksAreIgnored(a: Bytes, breaks: Bytes, b: Bytes)
    requires forall i :: 0 <= i < |breaks| ==> breaks[i] == '\r' || breaks[i] == '\n'
    ensures Decode(a + breaks + b) == Decode(a + b)
  {
    BreaksVanish(a, breaks, b);
  }
}
