/**
  Audit metadata as JSON values and as the text the standard encoder writes for them. Objects keep
  their fields sorted by name, as the encoder does. Text is a sequence of Unicode scalar values;
  its size is counted in UTF-8 bytes.
 */
module MetaJson {
  import opened Common
  import opened NameLists

  datatype Meta = Null | Bool(value: bool) | Number(digits: string) | Text(text: string)
                | List(items: seq<Meta>) | Record(fields: seq<Field>)

  datatype Field = Field(name: string, value: Meta)

  // ----- fields

  function Lookup(fields: seq<Field>, name: string): Option<Meta> {
    if fields == [] then None
    else if fields[0].name == name then Some(fields[0].value) else Lookup(fields[1..], name)
  }

  /** Sets a field, in its sorted place. */
  function Put(fields: seq<Field>, name: string, value: Meta): seq<Field> {
    if fields == [] || Before(name, fields[0].name) then [Field(name, value)] + fields
    else if fields[0].name == name then [Field(name, value)] + fields[1..]
    else [fields[0]] + Put(fields[1..], name, value)
  }

  // ----- text

  function HexDigit(v: int): char
    requires 0 <= v < 16
  {
    if v < 10 then ('0' as int + v) as char else ('a' as int + v - 10) as char
  }

  function Escape(c: char): string {
    if c == '"' || c == '\\' then ['\\', c]
    else if c == '\n' then "\\n" else if c == '\r' then "\\r" else if c == '\t' then "\\t"
    else if c as int == 8 then "\\b" else if c as int == 12 then "\\f"
    else if c as int < 0x20 || c == '<' || c == '>' || c == '&' then
      "\\u00" + [HexDigit(c as int / 16 % 16), HexDigit(c as int % 16)]
    else if c as int == 0x2028 then "\\u2028" else if c as int == 0x2029 then "\\u2029"
    else [c]
  }

  function EscapeAll(s: string): string {
    if s == [] then [] else Escape(s[0]) + EscapeAll(s[1..])
  }

  function Quote(s: string): string {
    "\"" + EscapeAll(s) + "\""
  }

  function Encode(m: Meta): string
    decreases m, 0
  {
    match m
    case Null => "null"
    case Bool(b) => if b then "true" else "false"
    case Number(digits) => digits
    case Text(text) => Quote(text)
    case List(items) => "[" + EncodeItems(items) + "]"
    case Record(fields) => "{" + EncodeFields(fields) + "}"
  }

  function EncodeItems(items: seq<Meta>): string
    decreases items, 1
  {
    if items == [] then []
    else Encode(items[0]) + (if |items| == 1 then [] else ",") + EncodeItems(items[1..])
  }

  function EncodeFields(fields: seq<Field>): string
    decreases fields, 1
  {
    if fields == [] then []
    else
      Quote(fields[0].name) + ":" + Encode(fields[0].value) + (if |fields| == 1 then [] else ",")
      + EncodeFields(fields[1..])
  }

  function Utf8Size(c: char): nat {
    var v := c as int;
    if v < 0x80 then 1 else if v < 0x800 then 2 else if v < 0x10000 then 3 else 4
  }

  function Size(s: string): nat {
    if s == [] then 0 else Utf8Size(s[0]) + Size(s[1..])
  }

  lemma {:induction false} SizeAppend(a: string, b: string)
    ensures Size(a + b) == Size(a) + Size(b)
  {
    if a == [] {
      assert a + b == b;
    } else {
      assert (a + b)[1..] == a[1..] + b;
      SizeAppend(a[1..], b);
    }
  }

  /** Escaping never makes text shorter. */
  lemma {:induction false} EscapingGrows(s: string)
    ensures Size(EscapeAll(s)) >= Size(s)
  {
    if s != [] {
      SizeAppend(Escape(s[0]), EscapeAll(s[1..]));
      EscapingGrows(s[1..]);
      EscapeGrows(s[0]);
    }
  }

  lemma EscapeGrows(c: char)
    ensures Size(Escape(c)) >= Utf8Size(c)
  {
    var e := Escape(c);
    assert |e| == 1 ==> e == [c];
    assert |e| >= 1 ==> Size(e) == Utf8Size(e[0]) + Size(e[1..]);
    if |e| > 1 {
      assert Size(e[1..]) == Utf8Size(e[1]) + Size(e[2..]);
      if |e| > 2 {
        assert Size(e[2..]) == Utf8Size(e[2]) + Size(e[3..]);
      }
    }
  }

  lemma {:induction false} EscapeAppend(a: string, b: string)
    ensures EscapeAll(a + b) == EscapeAll(a) + EscapeAll(b)
  {
    if a == [] {
      assert a + b == b;
    } else {
      assert (a + b)[1..] == a[1..] + b;
      EscapeAppend(a[1..], b);
    }
  }

  /** How many bytes a string's text adds to the encoding of the record it is put into. */
  lemma {:induction false} TextAddsItsSize(fields: seq<Field>, name: string, text: string)
    ensures Size(EncodeFields(Put(fields, name, Text(text)))) ==
            Size(EncodeFields(Put(fields, name, Text("")))) + Size(EscapeAll(text))
  {
    hide EncodeFields, Size, EscapeAll, Before;
    if fields == [] || Before(name, fields[0].name) || fields[0].name == name {
      var tail := if fields != [] && !Before(name, fields[0].name) then fields[1..] else fields;
      HeadAddsItsSize(tail, name, text);
    } else {
      TextAddsItsSize(fields[1..], name, text);
      SameTail(fields[0], Put(fields[1..], name, Text(text)), Put(fields[1..], name, Text("")));
    }
  }

  lemma HeadAddsItsSize(tail: seq<Field>, name: string, text: string)
    ensures Size(EncodeFields([Field(name, Text(text))] + tail)) ==
            Size(EncodeFields([Field(name, Text(""))] + tail)) + Size(EscapeAll(text))
  {
    FieldSize(Field(name, Text(text)), tail);
    FieldSize(Field(name, Text("")), tail);
    SizeAppend("\"", EscapeAll(text));
    SizeAppend("\"" + EscapeAll(text), "\"");
    assert "\"" + EscapeAll("") + "\"" == "\"" + "\"";
  }

  lemma FieldSize(f: Field, tail: seq<Field>)
    ensures Size(EncodeFields([f] + tail)) ==
            Size(Quote(f.name)) + 1 + Size(Encode(f.value)) + (if tail == [] then 0 else 1) + Size(EncodeFields(tail))
  {
    var all := [f] + tail;
    assert all[1..] == tail;
    var comma := if tail == [] then [] else ",";
    SizeAppend(Quote(f.name), ":");
    SizeAppend(Quote(f.name) + ":", Encode(f.value));
    SizeAppend(Quote(f.name) + ":" + Encode(f.value), comma);
    SizeAppend(Quote(f.name) + ":" + Encode(f.value) + comma, EncodeFields(tail));
  }

  lemma SameTail(f: Field, a: seq<Field>, b: seq<Field>)
    requires a != [] && b != []
    ensures Size(EncodeFields([f] + a)) - Size(EncodeFields(a)) == Size(EncodeFields([f] + b)) - Size(EncodeFields(b))
  {
    FieldSize(f, a);
    FieldSize(f, b);
  }
}
