/**
  The envelope parser itself: one pass over the input, field by field.
 */
module EnvelopeParser {
  import opened Common
  import opened JsonStrings
  import opened JsonValues
  import opened JsonReader
  import opened Base64
  import opened Envelope

  method Colon(reader: Reader) returns (ok: bool)
    requires reader.Valid()
    modifies reader
    ensures reader.Valid() && ok == ReadColon(old(reader.Ahead())).Ok?
    ensures ok ==> reader.Ahead() == ReadColon(old(reader.Ahead())).rest
  {
    hide SkipBlanks;
    ok := reader.SkipWhitespace();
    if !ok {
      return;
    }
    var colon;
    ok, colon := reader.ReadByte();
    if !ok || colon != ':' {
      return false;
    }
    ok := reader.SkipWhitespace();
  }

  /** One key, its colon and its value; `g` is what the loop has gathered so far. */
  method OneField(reader: Reader, g: Gathered, d: Decoder) returns (ok: bool, next: Gathered)
    requires reader.Valid()
    modifies reader
    ensures reader.Valid()
    ensures var r := ReadField(old(reader.Ahead()), g, d);
            ok == r.Ok? && (ok ==> next == r.value && reader.Ahead() == r.rest)
  {
    hide ReadString, ReadRaw, Utf8, ReadColon;
    next := g;
    var key, value;
    ok, key := reader.ReadJsonString(MAX_KEY_BYTES);
    if !ok || !Utf8(key) {
      return false, g;
    }
    var metadataBytes := g.size + |key|;
    if metadataBytes > MAX_METADATA_BYTES || |g.seen| >= MAX_FIELDS || key in g.seen {
      return false, g;
    }
    ok := Colon(reader);
    if !ok {
      return;
    }
    if key == PAYLOAD {
      ok, value := reader.ReadJsonString(MAX_ENCODED_BYTES);
      if ok {
        next := Gathered(g.seen + {key}, metadataBytes, g.values, Some(value));
      }
      return;
    }
    ok, value := reader.ReadRawValue(MAX_METADATA_BYTES, d.valid);
    if !ok {
      return;
    }
    metadataBytes := metadataBytes + |value|;
    if metadataBytes > MAX_METADATA_BYTES {
      return false, g;
    }
    var values := g.values;
    if Known(key) {
      values := values[key := value];
    }
    next := Gathered(g.seen + {key}, metadataBytes, values, g.payload);
  }

  method Fields(reader: Reader, d: Decoder) returns (ok: bool, g: Gathered)
    requires reader.Valid()
    modifies reader
    ensures reader.Valid()
    ensures var r := ReadFields(old(reader.Ahead()), NOTHING, true, d);
            ok == r.Ok? && (ok ==> g == r.value && reader.Ahead() == r.rest)
  {
    hide SkipBlanks, ReadField;
    g := NOTHING;
    var allowObjectEnd := true;
    while true
      invariant reader.Valid()
      invariant ReadFields(reader.Ahead(), g, allowObjectEnd, d) == ReadFields(old(reader.Ahead()), NOTHING, true, d)
      decreases |reader.Ahead()|
    {
      ghost var s := reader.Ahead();
      SkipBlanksShortens(s);
      ok := reader.SkipWhitespace();
      if !ok {
        return;
      }
      if reader.data[reader.pos] == '}' {
        var _, _ := reader.ReadByte();
        ok := allowObjectEnd;
        return;
      }
      ghost var t := reader.Ahead();
      ghost var before := g;
      ok, g := OneField(reader, g, d);
      if !ok {
        return;
      }
      ReadFieldShortens(t, before, d);
      SkipBlanksShortens(reader.Ahead());
      ok := reader.SkipWhitespace();
      if !ok {
        return;
      }
      var separator;
      ok, separator := reader.ReadByte();
      if separator == '}' {
        return;
      }
      if separator != ',' {
        return false, g;
      }
      allowObjectEnd := false;
    }
  }

  /** None is a malformed envelope. */
  method ParseEnvelope(data: Bytes, extract: bool, d: Decoder) returns (r: Option<(Header, seq<Octet>)>)
    ensures r == Parse(data, extract, d)
  {
    hide SkipBlanks, ReadFields, Conclude;
    if |data| == 0 || |data| > MAX_UPLOAD_BYTES {
      NothingToSkip();
      return None;
    }
    var reader := new Reader(data);
    var ok := reader.SkipWhitespace();
    if !ok {
      return None;
    }
    var opening, g;
    ok, opening := reader.ReadByte();
    if opening != '{' {
      return None;
    }
    ok, g := Fields(reader, d);
    if !ok {
      return None;
    }
    ok := reader.SkipWhitespace();
    if ok {
      return None;
    }
    r := Conclude(g, extract, d);
  }

  lemma NothingToSkip()
    ensures SkipBlanks("") == ""
  {
  }
}
