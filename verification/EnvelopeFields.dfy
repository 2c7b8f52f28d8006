/**
  What the envelope parser makes of a written envelope: each field counts once, in any order,
  with any white space and any escaping, and a repeated key is refused.
 */
module EnvelopeFields {
  import opened Common
  import opened JsonStrings
  import opened JsonValues
  import opened Base64
  import opened Envelope

  datatype Value = Metadata(json: Json) | Payload(items: seq<Item>)

  /** One written field and the white space in and around it. */
  datatype Field = Field(lead: Bytes, key: seq<Item>, beforeColon: Bytes, afterColon: Bytes, value: Value, trail: Bytes)

  predicate FieldOk(f: Field) {
    && AllBlank(f.lead) && AllBlank(f.beforeColon) && AllBlank(f.afterColon) && AllBlank(f.trail)
    && AllWellFormed(f.key)
    && (match f.value
        case Metadata(json) => JsonOk(json) && MeaningOf(f.key) != PAYLOAD
        case Payload(items) => AllWellFormed(items) && MeaningOf(f.key) == PAYLOAD)
  }

  function KeyOf(f: Field): Bytes
    requires FieldOk(f)
  {
    MeaningOf(f.key)
  }

  function ValueText(v: Value): Bytes {
    match v
    case Metadata(json) => JsonText(json)
    case Payload(items) => Quoted(items)
  }

  function FieldText(f: Field): Bytes {
    f.lead + Quoted(f.key) + f.beforeColon + [':'] + f.afterColon + ValueText(f.value) + f.trail
  }

  predicate AllOk(fields: seq<Field>) {
    forall i :: 0 <= i < |fields| ==> FieldOk(fields[i])
  }

  function FieldsText(fields: seq<Field>): Bytes
    requires fields != []
  {
    if |fields| == 1 then FieldText(fields[0]) else FieldText(fields[0]) + [','] + FieldsText(fields[1..])
  }

  // ----- what the fields mean, whatever the text

  /** The field is acceptable by itself. */
  predicate Sound(f: Field, d: Decoder)
    requires FieldOk(f)
  {
    && |KeyOf(f)| <= MAX_KEY_BYTES && Utf8(KeyOf(f))
    && (match f.value
        case Metadata(json) => |JsonText(json)| + |f.trail| <= MAX_METADATA_BYTES && d.valid(JsonText(json))
        case Payload(items) => |MeaningOf(items)| <= MAX_ENCODED_BYTES)
  }

  /** How many metadata bytes the field accounts for. */
  function Weight(f: Field): nat
    requires FieldOk(f)
  {
    |KeyOf(f)| + if f.value.Metadata? then |JsonText(f.value.json)| else 0
  }

  function Added(f: Field, g: Gathered): Gathered
    requires FieldOk(f)
  {
    match f.value
    case Metadata(json) => WithValue(g, KeyOf(f), JsonText(json))
    case Payload(items) => WithPayload(g, MeaningOf(items))
  }

  function Add(f: Field, g: Gathered, d: Decoder): Option<Gathered>
    requires FieldOk(f)
  {
    if !Sound(f, d) || KeyOf(f) in g.seen || |g.seen| >= MAX_FIELDS || g.size + Weight(f) > MAX_METADATA_BYTES then None
    else Some(Added(f, g))
  }

  function Collect(fields: seq<Field>, g: Gathered, d: Decoder): Option<Gathered>
    requires AllOk(fields)
  {
    if fields == [] then Some(g)
    else
      var next := Add(fields[0], g, d);
      if next.None? then None else Collect(fields[1..], next.value, d)
  }

  // ----- the parser reads every rendering of the fields as what they mean

  function Outcome(g: Option<Gathered>, rest: Bytes): Read<Gathered> {
    if g.None? then Malformed else Ok(g.value, rest)
  }

  lemma ReadColonPast(f: Field, rest: Bytes)
    requires FieldOk(f) && rest != [] && !Blank(rest[0])
    ensures ReadColon(f.beforeColon + [':'] + f.afterColon + rest) == Ok((), rest)
  {
    hide SkipBlanks, JsonOk;
    var s := f.beforeColon + ([':'] + f.afterColon + rest);
    assert s == f.beforeColon + [':'] + f.afterColon + rest;
    SkipBlanksPast(f.beforeColon, [':'] + f.afterColon + rest);
    assert ([':'] + f.afterColon + rest)[1..] == f.afterColon + rest;
    SkipBlanksPast(f.afterColon, rest);
  }

  predicate Delimiter(next: Bytes) {
    next != [] && (next[0] == ',' || next[0] == '}')
  }

  /** After the value, white space may be left; the delimiter comes next either way. */
  lemma ReadValuePast(f: Field, g: Gathered, d: Decoder, next: Bytes)
    requires FieldOk(f) && Delimiter(next) && |KeyOf(f)| <= MAX_KEY_BYTES && Utf8(KeyOf(f)) && Fresh(KeyOf(f), g)
    ensures var r := ReadValue(ValueText(f.value) + f.trail + next, KeyOf(f), g, d);
            match Add(f, g, d)
            case None => r.Malformed?
            case Some(h) => r.Ok? && r.value == h && SkipBlanks(r.rest) == next
  {
    hide SkipBlanks, ReadString, ReadRaw, JsonOk, MeaningOf, Utf8, AllWellFormed;
    var s := ValueText(f.value) + f.trail + next;
    match f.value {
      case Metadata(json) =>
        assert s == [] + JsonText(json) + f.trail + next;
        ReadRawReturnsValue([], json, f.trail, next, MAX_METADATA_BYTES, d.valid);
        SkipBlanksPast([], next);
        assert [] + next == next;
      case Payload(items) =>
        assert s == Quoted(items) + (f.trail + next);
        ReadStringInverts(items, f.trail + next, MAX_ENCODED_BYTES);
        SkipBlanksPast(f.trail, next);
    }
  }

  lemma ValueStarts(f: Field, tail: Bytes)
    requires FieldOk(f)
    ensures var rest := ValueText(f.value) + tail; rest != [] && !Blank(rest[0])
  {
    match f.value
    case Metadata(json) => JsonIsSolid(json);
    case Payload(_) =>
  }

  lemma ReadFieldPast(f: Field, g: Gathered, d: Decoder, next: Bytes)
    requires FieldOk(f) && Delimiter(next)
    ensures SkipBlanks(FieldText(f) + next) != [] && SkipBlanks(FieldText(f) + next)[0] == '"'
    ensures var r := ReadField(SkipBlanks(FieldText(f) + next), g, d);
            match Add(f, g, d)
            case None => r.Malformed?
            case Some(h) => r.Ok? && r.value == h && SkipBlanks(r.rest) == next
  {
    hide SkipBlanks, ReadString, ReadValue, ReadColon, JsonOk, MeaningOf, Utf8, ValueText, AllWellFormed, AllBlank;
    var value := ValueText(f.value) + f.trail + next;
    var fromColon := f.beforeColon + [':'] + f.afterColon + value;
    var fromKey := Quoted(f.key) + fromColon;
    assert FieldText(f) + next == f.lead + fromKey;
    SkipBlanksPast(f.lead, fromKey);
    ReadStringInverts(f.key, fromColon, MAX_KEY_BYTES);
    assert ValueText(f.value) + (f.trail + next) == value;
    ValueStarts(f, f.trail + next);
    ReadColonPast(f, value);
    if |KeyOf(f)| <= MAX_KEY_BYTES && Utf8(KeyOf(f)) && Fresh(KeyOf(f), g) {
      ReadValuePast(f, g, d, next);
    }
  }

  /** Reading any rendering of any fields gathers exactly what they mean, and fails when they do not
      add up to anything. */
  lemma {:induction false} ReadFieldsMeaning(fields: seq<Field>, g: Gathered, mayEnd: bool, rest: Bytes, d: Decoder)
    requires AllOk(fields) && fields != []
    ensures ReadFields(FieldsText(fields) + ['}'] + rest, g, mayEnd, d) == Outcome(Collect(fields, g, d), rest)
    decreases |fields|
  {
    hide SkipBlanks, ReadField, FieldText, FieldOk, Add;
    var f := fields[0];
    if |fields| == 1 {
      var next := ['}'] + rest;
      assert FieldsText(fields) + ['}'] + rest == FieldText(f) + next;
      ReadFieldPast(f, g, d, next);
    } else {
      var after := FieldsText(fields[1..]) + ['}'] + rest;
      var next := [','] + after;
      assert FieldsText(fields) + ['}'] + rest == FieldText(f) + next;
      ReadFieldPast(f, g, d, next);
      assert next[1..] == after;
      if Add(f, g, d).Some? {
        ReadFieldsMeaning(fields[1..], Add(f, g, d).value, false, rest, d);
      }
    }
  }

  /** A whole envelope: the fields, and white space around the object. */
  function Document(before: Bytes, fields: seq<Field>, after: Bytes): Bytes
    requires fields != []
  {
    before + ['{'] + FieldsText(fields) + ['}'] + after
  }

  /** Parsing depends on the fields' meaning alone. */
  lemma ParseMeaning(before: Bytes, fields: seq<Field>, after: Bytes, extract: bool, d: Decoder)
    requires AllBlank(before) && AllBlank(after) && fields != [] && AllOk(fields)
    requires |Document(before, fields, after)| <= MAX_UPLOAD_BYTES
    ensures Parse(Document(before, fields, after), extract, d) ==
            match Collect(fields, NOTHING, d)
            case None => None
            case Some(g) => Conclude(g, extract, d)
  {
    hide SkipBlanks, ReadFields, Collect, Conclude, AllBlank, AllOk, FieldsText;
    var tail := FieldsText(fields) + ['}'] + after;
    assert Document(before, fields, after) == before + (['{'] + tail);
    SkipBlanksPast(before, ['{'] + tail);
    assert (['{'] + tail)[1..] == tail;
    ReadFieldsMeaning(fields, NOTHING, true, after, d);
    SkipBlanksPast(after, []);
    assert after + [] == after;
  }

  // ----- order

  function Then(g: Option<Gathered>, f: Field, d: Decoder): Option<Gathered>
    requires FieldOk(f)
  {
    if g.None? then None else Add(f, g.value, d)
  }

  lemma AddedCounts(f: Field, g: Gathered)
    requires FieldOk(f)
    ensures Added(f, g).seen == g.seen + {KeyOf(f)} && Added(f, g).size == g.size + Weight(f)
  {
    hide MeaningOf, JsonText, AllWellFormed, JsonOk;
  }

  lemma AddedCommute(a: Field, b: Field, g: Gathered)
    requires FieldOk(a) && FieldOk(b) && KeyOf(a) != KeyOf(b)
    ensures Added(a, Added(b, g)) == Added(b, Added(a, g))
  {
    hide MeaningOf, JsonText, AllWellFormed, JsonOk, AllBlank, Known;
    var ab, ba := Added(a, Added(b, g)), Added(b, Added(a, g));
    assert ab.seen == ba.seen;
    assert ab.values == ba.values;
  }

  lemma AddsCommute(a: Field, b: Field, g: Gathered, d: Decoder)
    requires FieldOk(a) && FieldOk(b)
    ensures Then(Add(a, g, d), b, d) == Then(Add(b, g, d), a, d)
  {
    hide FieldOk, Sound, KeyOf, Weight, Added;
    AddedCounts(a, g);
    AddedCounts(b, g);
    if KeyOf(a) != KeyOf(b) {
      AddedCommute(a, b, g);
    }
  }

  /** One field may be moved to the front. */
  lemma {:induction false} MoveToFront(fields: seq<Field>, i: nat, g: Gathered, d: Decoder)
    requires AllOk(fields) && i < |fields|
    ensures Collect([fields[i]] + fields[..i] + fields[i + 1..], g, d) == Collect(fields, g, d)
    decreases i
  {
    hide Add, FieldOk;
    var f := fields[i];
    if i == 0 {
      assert [f] + fields[..i] + fields[i + 1..] == fields;
    } else {
      var head, tail := fields[0], fields[1..];
      var swapped := [f] + fields[..i] + fields[i + 1..];
      assert swapped[1..] == fields[..i] + fields[i + 1..];
      assert swapped[1..][0] == head && swapped[1..][1..] == fields[1..i] + fields[i + 1..];
      var moved := [tail[i - 1]] + tail[..i - 1] + tail[i..];
      assert tail[..i - 1] == fields[1..i] && tail[i..] == fields[i + 1..];
      assert moved[0] == f && moved[1..] == fields[1..i] + fields[i + 1..];
      AddsCommute(f, head, g, d);
      if Add(head, g, d).Some? {
        MoveToFront(tail, i - 1, Add(head, g, d).value, d);
      }
    }
  }

  lemma Matching<T>(a: seq<T>, b: seq<T>) returns (i: nat)
    requires a != [] && multiset(a) == multiset(b)
    ensures i < |b| && b[i] == a[0] && multiset(a[1..]) == multiset(b[..i] + b[i + 1..])
  {
    assert a[0] in multiset(a);
    i :| 0 <= i < |b| && b[i] == a[0];
    assert multiset(a) == multiset{a[0]} + multiset(a[1..]) by {
      assert a == [a[0]] + a[1..];
    }
    assert multiset(b) == multiset(b[..i]) + multiset{b[i]} + multiset(b[i + 1..]) by {
      assert b == b[..i] + [b[i]] + b[i + 1..];
    }
    assert multiset(b[..i] + b[i + 1..]) == multiset(b) - multiset{a[0]};
  }

  /** Any reordering of the fields means the same. */
  lemma {:induction false} OrderDoesNotMatter(a: seq<Field>, b: seq<Field>, g: Gathered, d: Decoder)
    requires AllOk(a) && AllOk(b) && multiset(a) == multiset(b)
    ensures Collect(a, g, d) == Collect(b, g, d)
    decreases |a|
  {
    hide Add, FieldOk;
    if a == [] {
      assert |multiset(b)| == 0;
    } else {
      var i := Matching(a, b);
      var others := b[..i] + b[i + 1..];
      assert ([b[i]] + b[..i] + b[i + 1..])[1..] == others;
      MoveToFront(b, i, g, d);
      if Add(a[0], g, d).Some? {
        OrderDoesNotMatter(a[1..], others, Add(a[0], g, d).value, d);
      }
    }
  }

  /** Two envelopes with the same fields in any order, under any surrounding white space, parse alike. */
  lemma ReorderedEnvelopesParseAlike(a: seq<Field>, b: seq<Field>, before: Bytes, after: Bytes, extract: bool, d: Decoder)
    requires AllBlank(before) && AllBlank(after) && a != [] && b != [] && AllOk(a) && AllOk(b)
    requires multiset(a) == multiset(b)
    requires |Document(before, a, after)| <= MAX_UPLOAD_BYTES && |Document(before, b, after)| <= MAX_UPLOAD_BYTES
    ensures Parse(Document(before, a, after), extract, d) == Parse(Document(before, b, after), extract, d)
  {
    hide Parse, Document, Collect, AllOk, AllBlank, Conclude;
    ParseMeaning(before, a, after, extract, d);
    ParseMeaning(before, b, after, extract, d);
    OrderDoesNotMatter(a, b, NOTHING, d);
  }

  // ----- exactly which field lists are accepted; repetition

  predicate AllSound(fields: seq<Field>, d: Decoder)
    requires AllOk(fields)
  {
    forall i :: 0 <= i < |fields| ==> Sound(fields[i], d)
  }

  predicate DistinctKeys(fields: seq<Field>)
    requires AllOk(fields)
  {
    forall i, j :: 0 <= i < j < |fields| ==> KeyOf(fields[i]) != KeyOf(fields[j])
  }

  predicate Unseen(fields: seq<Field>, g: Gathered)
    requires AllOk(fields)
  {
    forall i :: 0 <= i < |fields| ==> KeyOf(fields[i]) !in g.seen
  }

  function TotalWeight(fields: seq<Field>): nat
    requires AllOk(fields)
  {
    if fields == [] then 0 else Weight(fields[0]) + TotalWeight(fields[1..])
  }

  function AddedAll(fields: seq<Field>, g: Gathered): Gathered
    requires AllOk(fields)
  {
    if fields == [] then g else AddedAll(fields[1..], Added(fields[0], g))
  }

  predicate Acceptable(fields: seq<Field>, g: Gathered, d: Decoder)
    requires AllOk(fields)
  {
    && AllSound(fields, d) && DistinctKeys(fields) && Unseen(fields, g)
    && |g.seen| + |fields| <= MAX_FIELDS && g.size + TotalWeight(fields) <= MAX_METADATA_BYTES
  }

  /** The checks made field by field amount to checks on the whole list. */
  lemma {:induction false} AcceptedExactlyWhen(fields: seq<Field>, g: Gathered, d: Decoder)
    requires AllOk(fields) && |g.seen| <= MAX_FIELDS && g.size <= MAX_METADATA_BYTES
    ensures Collect(fields, g, d) == if Acceptable(fields, g, d) then Some(AddedAll(fields, g)) else None
  {
    hide FieldOk, KeyOf, Weight, Sound, Added;
    if fields != [] {
      AddedCounts(fields[0], g);
      AcceptableSplits(fields, g, d);
      if Add(fields[0], g, d).Some? {
        AcceptedExactlyWhen(fields[1..], Added(fields[0], g), d);
      }
    }
  }

  lemma AcceptableSplits(fields: seq<Field>, g: Gathered, d: Decoder)
    requires AllOk(fields) && fields != []
    ensures Acceptable(fields, g, d) <==>
            Add(fields[0], g, d).Some? && Acceptable(fields[1..], Added(fields[0], g), d)
  {
    hide FieldOk, KeyOf, Weight, Sound, Added;
    var f, tail, h := fields[0], fields[1..], Added(fields[0], g);
    AddedCounts(f, g);
    assert AllSound(fields, d) <==> Sound(f, d) && AllSound(tail, d) by {
      SplitForall(fields, d);
    }
    assert DistinctKeys(fields) && Unseen(fields, g) <==> KeyOf(f) !in g.seen && DistinctKeys(tail) && Unseen(tail, h) by {
      SplitKeys(fields, g);
    }
  }

  lemma SplitForall(fields: seq<Field>, d: Decoder)
    requires AllOk(fields) && fields != []
    ensures AllSound(fields, d) <==> Sound(fields[0], d) && AllSound(fields[1..], d)
  {
    hide FieldOk, Sound;
    assert fields == [fields[0]] + fields[1..];
  }

  lemma SplitKeys(fields: seq<Field>, g: Gathered)
    requires AllOk(fields) && fields != []
    ensures DistinctKeys(fields) && Unseen(fields, g) <==>
            KeyOf(fields[0]) !in g.seen && DistinctKeys(fields[1..]) && Unseen(fields[1..], Added(fields[0], g))
  {
    hide FieldOk, KeyOf, Added;
    AddedCounts(fields[0], g);
    assert fields == [fields[0]] + fields[1..];
  }

  /** An envelope that repeats a key is malformed, however the key is escaped. */
  lemma RepeatedKeyIsMalformed(fields: seq<Field>, i: nat, j: nat, before: Bytes, after: Bytes, extract: bool, d: Decoder)
    requires AllBlank(before) && AllBlank(after) && AllOk(fields)
    requires i < j < |fields| && KeyOf(fields[i]) == KeyOf(fields[j])
    ensures Parse(Document(before, fields, after), extract, d) == None
  {
    hide ReadFields, Document, Collect, AllOk, AllBlank, Conclude, SkipBlanks, KeyOf, TotalWeight;
    if |Document(before, fields, after)| <= MAX_UPLOAD_BYTES {
      ParseMeaning(before, fields, after, extract, d);
      AcceptedExactlyWhen(fields, NOTHING, d);
    }
  }
}
