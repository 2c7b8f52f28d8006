/**
  The text that audit metadata is stored as, against the grammar: every value is written as well-formed
  JSON whose strings read back as they were.
 */
module AuditText {
  import opened Common
  import opened MetaJson
  import J = JsonStrings
  import V = JsonValues

  // ----- UTF-8

  function Bytes(s: string): J.Bytes {
    if s == [] then [] else J.EncodeRune(s[0] as int) + Bytes(s[1..])
  }

  lemma {:induction false} BytesAppend(a: string, b: string)
    ensures Bytes(a + b) == Bytes(a) + Bytes(b)
  {
    if a == [] {
      assert a + b == b;
    } else {
      assert (a + b)[1..] == a[1..] + b;
      BytesAppend(a[1..], b);
    }
  }

  /** Sizes are counted in UTF-8 bytes. */
  lemma {:induction false} SizeIsBytes(s: string)
    ensures Size(s) == |Bytes(s)|
  {
    if s != [] {
      SizeIsBytes(s[1..]);
    }
  }

  // ----- strings

  /** How the encoder writes one character, in the grammar's terms. */
  function ItemsOf(c: char): seq<J.Item> {
    var v := c as int;
    if c == '"' || c == '\\' then [J.Short(c)]
    else if v == 8 then [J.Short('b')] else if v == 9 then [J.Short('t')] else if v == 10 then [J.Short('n')]
    else if v == 12 then [J.Short('f')] else if v == 13 then [J.Short('r')]
    else if v < 0x20 || c == '<' || c == '>' || c == '&' then [J.Escaped("00" + [HexDigit(v / 16 % 16), HexDigit(v % 16)])]
    else if v == 0x2028 then [J.Escaped("2028")] else if v == 0x2029 then [J.Escaped("2029")]
    else RawItems(J.EncodeRune(v))
  }

  function RawItems(bytes: J.Bytes): seq<J.Item> {
    seq(|bytes|, i requires 0 <= i < |bytes| => J.Raw(bytes[i]))
  }

  lemma HexReadsBack(v: int)
    requires 0 <= v < 16
    ensures J.HexDigit(HexDigit(v)) && J.HexValue(HexDigit(v)) == v
  {
  }

  lemma {:induction false} RawsRead(bytes: J.Bytes)
    requires forall i :: 0 <= i < |bytes| ==> J.Plain(bytes[i])
    ensures J.AllWellFormed(RawItems(bytes)) && J.TextOf(RawItems(bytes)) == bytes && J.MeaningOf(RawItems(bytes)) == bytes
  {
    if bytes != [] {
      RawsRead(bytes[1..]);
      assert RawItems(bytes)[1..] == RawItems(bytes[1..]);
      assert bytes == [bytes[0]] + bytes[1..];
    }
  }

  lemma OneItem(i: J.Item)
    requires J.WellFormed(i)
    ensures J.AllWellFormed([i]) && J.TextOf([i]) == J.ItemText(i) && J.MeaningOf([i]) == J.ItemMeaning(i)
  {
    assert [i][1..] == [];
  }

  lemma {:induction false} AsciiBytes(s: string)
    requires forall i :: 0 <= i < |s| ==> s[i] as int < 0x80
    ensures Bytes(s) == s
  {
    if s != [] {
      AsciiBytes(s[1..]);
      assert s == [s[0]] + s[1..];
    }
  }

  lemma RuneIsPlain(v: int)
    requires J.ScalarValue(v) && v >= 0x20 && v != '"' as int && v != '\\' as int
    ensures forall i :: 0 <= i < |J.EncodeRune(v)| ==> J.Plain(J.EncodeRune(v)[i])
  {
  }

  lemma HexCharacter(c: char)
    requires c as int < 0x80
    ensures var hex := "00" + [HexDigit(c as int / 16 % 16), HexDigit(c as int % 16)];
            J.Hex4(hex) && J.Unit(hex) == c as int && J.WellFormed(J.Escaped(hex)) && J.ItemMeaning(J.Escaped(hex)) == [c]
  {
    HexReadsBack(c as int / 16 % 16);
    HexReadsBack(c as int % 16);
    HexReadsBack(0);
  }

  lemma LineSeparators()
    ensures J.Hex4("2028") && J.Unit("2028") == 0x2028 && J.Hex4("2029") && J.Unit("2029") == 0x2029
  {
  }

  predicate HasShort(c: char) {
    var v := c as int;
    c == '"' || c == '\\' || v == 8 || v == 9 || v == 10 || v == 12 || v == 13
  }

  /** Two characters stand for one. */
  lemma ShortReads(c: char)
    requires HasShort(c)
    ensures J.AllWellFormed(ItemsOf(c)) && J.TextOf(ItemsOf(c)) == Bytes(Escape(c)) && J.MeaningOf(ItemsOf(c)) == J.EncodeRune(c as int)
  {
    var x := ItemsOf(c)[0].c;
    assert Escape(c) == ['\\', x] && J.ShortEscape(x) && J.ShortMeaning(x) == c;
    hide Escape, J.ShortEscape, J.ShortMeaning;
    OneItem(J.Short(x));
    AsciiBytes(['\\', x]);
    hide J.TextOf, J.MeaningOf, Bytes, J.AllWellFormed;
  }

  /** Six characters stand for one. */
  lemma HexReads(c: char)
    requires !HasShort(c) && (c as int < 0x20 || c == '<' || c == '>' || c == '&')
    ensures J.AllWellFormed(ItemsOf(c)) && J.TextOf(ItemsOf(c)) == Bytes(Escape(c)) && J.MeaningOf(ItemsOf(c)) == J.EncodeRune(c as int)
  {
    var a, b := HexDigit(c as int / 16 % 16), HexDigit(c as int % 16);
    assert a as int < 0x80 && b as int < 0x80;
    HexCharacter(c);
    hide HexDigit, J.Hex4, J.Unit;
    var text := "\\u00" + [a, b];
    assert Escape(c) == text && ItemsOf(c) == [J.Escaped("00" + [a, b])];
    hide Escape, ItemsOf;
    assert text == ['\\', 'u'] + ("00" + [a, b]);
    OneItem(J.Escaped("00" + [a, b]));
    assert forall i :: 0 <= i < |text| ==> text[i] as int < 0x80;
    AsciiBytes(text);
    hide J.TextOf, J.MeaningOf, Bytes, J.AllWellFormed, J.WellFormed;
  }

  lemma CharacterReads(c: char)
    ensures J.AllWellFormed(ItemsOf(c)) && J.TextOf(ItemsOf(c)) == Bytes(Escape(c)) && J.MeaningOf(ItemsOf(c)) == J.EncodeRune(c as int)
  {
    var v := c as int;
    if HasShort(c) {
      ShortReads(c);
    } else if v < 0x20 || c == '<' || c == '>' || c == '&' {
      HexReads(c);
    } else if v == 0x2028 || v == 0x2029 {
      LineSeparators();
      OneItem(ItemsOf(c)[0]);
      AsciiBytes(Escape(c));
    } else {
      RuneIsPlain(v);
      RawsRead(J.EncodeRune(v));
      assert Escape(c) == [c] && Bytes([c]) == J.EncodeRune(v) + [];
    }
  }

  function AllItems(s: string): seq<J.Item> {
    if s == [] then [] else ItemsOf(s[0]) + AllItems(s[1..])
  }

  lemma WellFormedAppend(a: seq<J.Item>, b: seq<J.Item>)
    requires J.AllWellFormed(a) && J.AllWellFormed(b)
    ensures J.AllWellFormed(a + b)
  {
    hide J.WellFormed;
  }

  lemma {:induction false} ItemsAppend(a: seq<J.Item>, b: seq<J.Item>)
    requires J.AllWellFormed(a) && J.AllWellFormed(b)
    ensures J.AllWellFormed(a + b) && J.TextOf(a + b) == J.TextOf(a) + J.TextOf(b) && J.MeaningOf(a + b) == J.MeaningOf(a) + J.MeaningOf(b)
  {
    hide J.ItemText, J.ItemMeaning, J.WellFormed;
    WellFormedAppend(a, b);
    if a == [] {
      assert a + b == b;
    } else {
      var rest := a[1..] + b;
      ItemsAppend(a[1..], b);
      assert a + b == [a[0]] + rest && (a + b)[1..] == rest;
      hide J.AllWellFormed;
      assert J.ItemText(a[0]) + (J.TextOf(a[1..]) + J.TextOf(b)) == (J.ItemText(a[0]) + J.TextOf(a[1..])) + J.TextOf(b);
      assert J.ItemMeaning(a[0]) + (J.MeaningOf(a[1..]) + J.MeaningOf(b)) == (J.ItemMeaning(a[0]) + J.MeaningOf(a[1..])) + J.MeaningOf(b);
    }
  }

  lemma {:induction false} TextReads(s: string)
    ensures J.AllWellFormed(AllItems(s)) && J.TextOf(AllItems(s)) == Bytes(EscapeAll(s)) && J.MeaningOf(AllItems(s)) == Bytes(s)
  {
    hide ItemsOf, Escape;
    if s != [] {
      CharacterReads(s[0]);
      TextReads(s[1..]);
      ItemsAppend(ItemsOf(s[0]), AllItems(s[1..]));
      BytesAppend(Escape(s[0]), EscapeAll(s[1..]));
    }
  }

  lemma QuotedText(s: string)
    ensures Bytes(Quote(s)) == J.Quoted(AllItems(s))
  {
    TextReads(s);
    hide J.TextOf, AllItems, EscapeAll;
    BytesAppend("\"", EscapeAll(s));
    BytesAppend("\"" + EscapeAll(s), "\"");
    AsciiBytes("\"");
  }

  /** Every text is written so that it reads back as itself. */
  lemma QuoteReadsBack(s: string, rest: J.Bytes, max: nat)
    ensures J.ReadString(Bytes(Quote(s)) + rest, max) == if Size(s) <= max then J.Ok(Bytes(s), rest) else J.Malformed
  {
    QuotedText(s);
    TextReads(s);
    SizeIsBytes(s);
    J.ReadStringInverts(AllItems(s), rest, max);
  }

  // ----- values

  function JsonOf(m: Meta): V.Json
    decreases m, 0
  {
    match m
    case Null => V.Atom("null")
    case Bool(b) => V.Atom(if b then "true" else "false")
    case Number(digits) => V.Atom(Bytes(digits))
    case Text(text) => V.Text(AllItems(text))
    case List(items) => V.Compound(false, "", ItemsIn(items))
    case Record(fields) => V.Compound(true, "", FieldsIn(fields))
  }

  function ItemsIn(items: seq<Meta>): V.Entries
    decreases items, 1
  {
    if items == [] then V.Nil else V.Cons("", None, JsonOf(items[0]), "", ItemsIn(items[1..]))
  }

  function FieldsIn(fields: seq<Field>): V.Entries
    decreases fields, 1
  {
    if fields == [] then V.Nil
    else V.Cons("", Some(V.Name(AllItems(fields[0].name), "", "")), JsonOf(fields[0].value), "", FieldsIn(fields[1..]))
  }

  /** Every value is written as the grammar has it. */
  lemma {:induction false} EncodingIsJson(m: Meta)
    ensures Bytes(Encode(m)) == V.JsonText(JsonOf(m))
    decreases m, 0
  {
    match m
    case Null => AsciiBytes("null");
    case Bool(b) => AsciiBytes(if b then "true" else "false");
    case Number(digits) =>
    case Text(text) => QuotedText(text);
    case List(items) =>
      ItemsAreJson(items);
      Bracketed("[", EncodeItems(items), "]");
    case Record(fields) =>
      FieldsAreJson(fields);
      Bracketed("{", EncodeFields(fields), "}");
  }

  lemma Bracketed(open: string, s: string, close: string)
    requires |open| == |close| == 1 && open[0] as int < 0x80 && close[0] as int < 0x80
    ensures Bytes(open + s + close) == open + Bytes(s) + close
  {
    BytesAppend(open, s);
    BytesAppend(open + s, close);
    AsciiBytes(open);
    AsciiBytes(close);
  }

  /** One entry, and a comma before the next. */
  lemma EntryText(name: Option<V.Name>, value: V.Json, tail: V.Entries)
    ensures V.EntriesText(V.Cons("", name, value, "", tail)) ==
            V.NameText(name) + V.JsonText(value) + if tail.Nil? then [] else "," + V.EntriesText(tail)
  {
    var more := if tail.Nil? then [] else "," + V.EntriesText(tail);
    assert V.EntriesText(V.Cons("", name, value, "", tail)) == "" + V.NameText(name) + V.JsonText(value) + "" + more;
    hide V.NameText, V.JsonText, V.EntriesText;
    NothingAround(V.NameText(name), V.JsonText(value), more);
  }

  lemma NothingAround(a: string, b: string, c: string)
    ensures "" + a + b + "" + c == a + b + c
  {
    assert "" + a == a && a + b + "" == a + b;
  }

  lemma CommaBytes(a: string, comma: string, b: string)
    requires comma == "" || comma == ","
    ensures Bytes(a + comma + b) == Bytes(a) + comma + Bytes(b)
  {
    hide Bytes;
    BytesAppend(a + comma, b);
    BytesAppend(a, comma);
    AsciiBytes(comma);
  }

  lemma NoItems()
    ensures EncodeItems([]) == [] && EncodeFields([]) == [] && Bytes([]) == []
  {
  }

  lemma {:induction false} ItemsAreJson(items: seq<Meta>)
    ensures Bytes(EncodeItems(items)) == V.EntriesText(ItemsIn(items))
    decreases items, 1
  {
    if items != [] {
      EncodingIsJson(items[0]);
      ItemsAreJson(items[1..]);
      hide Bytes, Encode, JsonOf, V.EntriesText, V.JsonText;
      EntryText(None, JsonOf(items[0]), ItemsIn(items[1..]));
      NoItems();
      var comma := if |items| == 1 then "" else ",";
      CommaBytes(Encode(items[0]), comma, EncodeItems(items[1..]));
      assert |items| == 1 ==> items[1..] == [];
      NoName(V.JsonText(JsonOf(items[0])));
      hide V.NameText;
    }
  }

  lemma NamedBytes(f: Field)
    ensures Bytes(Quote(f.name) + ":" + Encode(f.value)) == J.Quoted(AllItems(f.name)) + ":" + Bytes(Encode(f.value))
  {
    QuotedText(f.name);
    hide Bytes, Encode, Quote, AllItems, J.Quoted;
    AsciiBytes(":");
    BytesAppend(Quote(f.name), ":");
    BytesAppend(Quote(f.name) + ":", Encode(f.value));
  }

  lemma NameOnly(name: string)
    ensures V.NameText(Some(V.Name(AllItems(name), "", ""))) == J.Quoted(AllItems(name)) + ":"
  {
    hide AllItems, J.Quoted;
    assert J.Quoted(AllItems(name)) + "" + ":" + "" == J.Quoted(AllItems(name)) + ":";
  }

  lemma NoName(text: string)
    ensures V.NameText(None) + text == text
  {
  }

  lemma {:induction false} FieldsAreJson(fields: seq<Field>)
    ensures Bytes(EncodeFields(fields)) == V.EntriesText(FieldsIn(fields))
    decreases fields, 1
  {
    if fields != [] {
      var f := fields[0];
      EncodingIsJson(f.value);
      FieldsAreJson(fields[1..]);
      hide Bytes, Encode, JsonOf, Quote, AllItems, J.Quoted, V.EntriesText, V.JsonText;
      EntryText(Some(V.Name(AllItems(f.name), "", "")), JsonOf(f.value), FieldsIn(fields[1..]));
      NoItems();
      NamedBytes(f);
      var comma := if |fields| == 1 then "" else ",";
      CommaBytes(Quote(f.name) + ":" + Encode(f.value), comma, EncodeFields(fields[1..]));
      assert |fields| == 1 ==> fields[1..] == [];
      NameOnly(f.name);
      hide V.NameText;
    }
  }

  // ----- well-formed values

  /** Numbers are written with visible ASCII characters that mean nothing else in JSON. */
  predicate Numeric(m: Meta)
    decreases m, 0
  {
    match m
    case Number(digits) => digits != [] && forall i :: 0 <= i < |digits| ==> V.AtomChar(digits[i])
    case List(items) => AllNumeric(items)
    case Record(fields) => FieldsNumeric(fields)
    case _ => true
  }

  predicate AllNumeric(items: seq<Meta>)
    decreases items, 1
  {
    items == [] || (Numeric(items[0]) && AllNumeric(items[1..]))
  }

  predicate FieldsNumeric(fields: seq<Field>)
    decreases fields, 1
  {
    fields == [] || (Numeric(fields[0].value) && FieldsNumeric(fields[1..]))
  }

  /** What is written is one well-formed JSON value. */
  lemma {:induction false} WrittenIsWellFormed(m: Meta)
    requires Numeric(m)
    ensures V.JsonOk(JsonOf(m))
    decreases m, 0
  {
    match m
    case Number(digits) => AsciiBytes(digits);
    case Text(text) => TextReads(text);
    case List(items) => ItemsAreWellFormed(items);
    case Record(fields) => FieldsAreWellFormed(fields);
    case _ =>
  }

  lemma {:induction false} ItemsAreWellFormed(items: seq<Meta>)
    requires AllNumeric(items)
    ensures V.EntriesOk(ItemsIn(items), false)
    decreases items, 1
  {
    if items != [] {
      WrittenIsWellFormed(items[0]);
      ItemsAreWellFormed(items[1..]);
    }
  }

  lemma {:induction false} FieldsAreWellFormed(fields: seq<Field>)
    requires FieldsNumeric(fields)
    ensures V.EntriesOk(FieldsIn(fields), true)
    decreases fields, 1
  {
    if fields != [] {
      TextReads(fields[0].name);
      WrittenIsWellFormed(fields[0].value);
      FieldsAreWellFormed(fields[1..]);
    }
  }
}
