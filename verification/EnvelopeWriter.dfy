/**
  Writing the envelope and reading it back: encryption followed by decryption is the identity, and
  no size limit of the reader is ever met by what the writer produces.
 */
module EnvelopeWriter {
  import opened Common
  import opened JsonStrings
  import opened JsonValues
  import opened Base64
  import opened Envelope
  import opened EnvelopeFields

  const MAX_ARCHIVE_BYTES := 269_484_032
  const FORMAT_NAME := "simplelinuxupdater-backup"
  const FORMAT_VERSION := 1
  const SCRYPT_N := 32768
  const SCRYPT_R := 8
  const SCRYPT_P := 1

  // ----- what the standard encoder makes of the header: compact, plain strings unescaped

  function Plainly(t: Bytes): seq<Item> {
    seq(|t|, i requires 0 <= i < |t| => Raw(t[i]))
  }

  function Member(name: Bytes, value: Json, tail: Entries): Entries {
    Cons("", Some(Name(Plainly(name), "", "")), value, "", tail)
  }

  function Str(t: Bytes): Json {
    Text(Plainly(t))
  }

  function KdfJson(salt: seq<Octet>): Json {
    Compound(true, "", Member("name", Str("scrypt"), Member("N", Atom("32768"), Member("r", Atom("8"),
      Member("p", Atom("1"), Member("salt_b64", Str(Encode(salt)), Nil))))))
  }

  function CipherJson(nonce: seq<Octet>): Json {
    Compound(true, "", Member("name", Str("aes-256-gcm"), Member("nonce_b64", Str(Encode(nonce)), Nil)))
  }

  function Compact(key: Bytes, value: Value): Field {
    Field("", Plainly(key), "", "", value, "")
  }

  /** The header's fields, in the order of the writer's struct. */
  function HeaderFields(at: Bytes, salt: seq<Octet>, nonce: seq<Octet>): seq<Field> {
    [Compact(FORMAT, Metadata(Str(FORMAT_NAME))), Compact(VERSION, Metadata(Atom("1"))),
     Compact(CREATED_AT, Metadata(Str(at))), Compact(KDF, Metadata(KdfJson(salt))),
     Compact(CIPHER, Metadata(CipherJson(nonce)))]
  }

  function MarshalHeader(at: Bytes, salt: seq<Octet>, nonce: seq<Octet>): Bytes {
    ['{'] + FieldsText(HeaderFields(at, salt, nonce)) + ['}']
  }

  // ----- the writer

  datatype Written = TooLarge | NoObject | Done(text: Bytes)

  /** The payload is spliced in where the header's object ended. */
  method WriteEnvelope(metadata: Bytes, ciphertext: seq<Octet>) returns (r: Written)
    ensures r == Splice(metadata, ciphertext)
  {
    if |metadata| == 0 || metadata[|metadata| - 1] != '}' {
      return NoObject;
    }
    var out := metadata[..|metadata| - 1];
    out := out + ",\"payload_b64\":\"";
    out := out + Encode(ciphertext);
    out := out + "\"}";
    if |out| > MAX_UPLOAD_BYTES {
      return TooLarge;
    }
    r := Done(out);
  }

  function Splice(metadata: Bytes, ciphertext: seq<Octet>): Written {
    if |metadata| == 0 || metadata[|metadata| - 1] != '}' then NoObject
    else
      var text := metadata[..|metadata| - 1] + ",\"payload_b64\":\"" + Encode(ciphertext) + "\"}";
      if |text| > MAX_UPLOAD_BYTES then TooLarge else Done(text)
  }

  // ----- the written text is a rendering of six fields

  lemma {:induction false} PlainlyMeans(t: Bytes)
    requires forall i :: 0 <= i < |t| ==> Plain(t[i])
    ensures AllWellFormed(Plainly(t)) && TextOf(Plainly(t)) == t && MeaningOf(Plainly(t)) == t
  {
    if t != [] {
      PlainlyMeans(t[1..]);
      assert Plainly(t)[1..] == Plainly(t[1..]);
      assert t == [t[0]] + t[1..];
    }
  }

  function PayloadField(ciphertext: seq<Octet>): Field {
    Compact(PAYLOAD, Payload(Plainly(Encode(ciphertext))))
  }

  function WrittenFields(at: Bytes, salt: seq<Octet>, nonce: seq<Octet>, ciphertext: seq<Octet>): seq<Field> {
    HeaderFields(at, salt, nonce) + [PayloadField(ciphertext)]
  }

  lemma {:induction false} FieldsTextAppend(fields: seq<Field>, last: Field)
    requires fields != []
    ensures FieldsText(fields + [last]) == FieldsText(fields) + [','] + FieldText(last)
  {
    hide FieldText;
    var all := fields + [last];
    if |fields| == 1 {
      assert all[1..] == [last];
    } else {
      assert all[1..] == fields[1..] + [last];
      FieldsTextAppend(fields[1..], last);
    }
  }

  lemma VisibleIsPlain(t: Bytes)
    requires AllVisible(t)
    ensures AllWellFormed(Plainly(t)) && TextOf(Plainly(t)) == t && MeaningOf(Plainly(t)) == t
  {
    PlainlyMeans(t);
  }

  // ----- the header is well formed and small

  predicate Fits(j: Json, n: nat) {
    JsonOk(j) && |JsonText(j)| <= n
  }

  predicate EntriesFit(e: Entries, n: nat) {
    EntriesOk(e, true) && |EntriesText(e)| <= n
  }

  lemma StrFits(t: Bytes)
    requires AllVisible(t)
    ensures Fits(Str(t), |t| + 2)
  {
    VisibleIsPlain(t);
  }

  lemma AtomFits(t: Bytes)
    requires t != [] && forall i :: 0 <= i < |t| ==> '0' <= t[i] <= '9'
    ensures Fits(Atom(t), |t|)
  {
  }

  lemma MemberFits(name: Bytes, value: Json, n: nat, tail: Entries, m: nat)
    requires AllVisible(name) && Fits(value, n) && EntriesFit(tail, m)
    ensures EntriesFit(Member(name, value, tail), |name| + 4 + n + m)
  {
    VisibleIsPlain(name);
  }

  lemma LiteralsAreVisible()
    ensures AllVisible("name") && AllVisible("N") && AllVisible("r") && AllVisible("p")
    ensures AllVisible("salt_b64") && AllVisible("nonce_b64") && AllVisible("scrypt") && AllVisible("aes-256-gcm")
  {
  }

  lemma KdfFits(salt: seq<Octet>)
    requires |salt| == 16
    ensures Fits(KdfJson(salt), 200)
  {
    hide Fits, EntriesFit, Encode, Plainly, Member, Str, Visible, AllVisible, JsonOk, JsonText, EntriesOk, EntriesText;
    var e0 := Nil;
    NilFits();
    EncodedShape(salt);
    LiteralsAreVisible();
    StrFits(Encode(salt));
    MemberFits("salt_b64", Str(Encode(salt)), 26, e0, 0);
    var e1 := Member("salt_b64", Str(Encode(salt)), e0);
    AtomFits("1");
    MemberFits("p", Atom("1"), 1, e1, 38);
    var e2 := Member("p", Atom("1"), e1);
    AtomFits("8");
    MemberFits("r", Atom("8"), 1, e2, 44);
    var e3 := Member("r", Atom("8"), e2);
    AtomFits("32768");
    MemberFits("N", Atom("32768"), 5, e3, 50);
    var e4 := Member("N", Atom("32768"), e3);
    StrFits("scrypt");
    MemberFits("name", Str("scrypt"), 8, e4, 60);
    ObjectFits(Member("name", Str("scrypt"), e4), 76);
    FitsMore(KdfJson(salt), 78, 200);
  }

  lemma CipherFits(nonce: seq<Octet>)
    requires |nonce| == 12
    ensures Fits(CipherJson(nonce), 200)
  {
    hide Fits, EntriesFit, Encode, Plainly, Member, Str, Visible, AllVisible, JsonOk, JsonText, EntriesOk, EntriesText;
    var e0 := Nil;
    NilFits();
    EncodedShape(nonce);
    LiteralsAreVisible();
    StrFits(Encode(nonce));
    MemberFits("nonce_b64", Str(Encode(nonce)), 18, e0, 0);
    var e1 := Member("nonce_b64", Str(Encode(nonce)), e0);
    StrFits("aes-256-gcm");
    MemberFits("name", Str("aes-256-gcm"), 13, e1, 31);
    ObjectFits(Member("name", Str("aes-256-gcm"), e1), 52);
    FitsMore(CipherJson(nonce), 54, 200);
  }

  lemma NilFits()
    ensures EntriesFit(Nil, 0)
  {
  }

  lemma ObjectFits(e: Entries, n: nat)
    requires EntriesFit(e, n)
    ensures Fits(Compound(true, "", e), n + 2)
  {
  }

  lemma FitsMore(j: Json, n: nat, m: nat)
    requires Fits(j, n) && n <= m
    ensures Fits(j, m)
  {
  }

  // ----- the fields as the parser counts them

  lemma {:induction false} AsciiIsUtf8(t: Bytes)
    requires forall i :: 0 <= i < |t| ==> t[i] as int < 128
    ensures Utf8(t)
  {
    if t != [] {
      AsciiIsUtf8(t[1..]);
      assert EncodeRune(DecodeRune(t)) == [t[0]];
    }
  }

  predicate Neat(f: Field, key: Bytes, weight: nat, d: Decoder) {
    FieldOk(f) && KeyOf(f) == key && Sound(f, d) && Weight(f) <= weight
  }

  lemma CompactIsNeat(key: Bytes, json: Json, n: nat, d: Decoder)
    requires AllVisible(key) && key != PAYLOAD && |key| <= 20 && Fits(json, n) && n <= 300 && d.valid(JsonText(json))
    ensures Neat(Compact(key, Metadata(json)), key, |key| + n, d)
    ensures |FieldText(Compact(key, Metadata(json)))| <= |key| + 3 + n
  {
    hide JsonOk, JsonText, Utf8;
    VisibleIsPlain(key);
    AsciiIsUtf8(key);
  }

  lemma CompactPayload(key: Bytes, text: Bytes, d: Decoder)
    requires AllVisible(key) && key == PAYLOAD && AllVisible(text) && |text| <= MAX_ENCODED_BYTES
    ensures Neat(Compact(key, Payload(Plainly(text))), key, |key|, d)
  {
    hide Utf8, Plainly, Visible, AllWellFormed, MeaningOf;
    VisibleIsPlain(text);
    VisibleIsPlain(key);
    VisibleIsUtf8(key);
  }

  lemma VisibleIsUtf8(t: Bytes)
    requires AllVisible(t)
    ensures Utf8(t)
  {
    AsciiIsUtf8(t);
  }

  lemma PayloadKeyIsVisible()
    ensures AllVisible(PAYLOAD) && |PAYLOAD| == 11
  {
  }

  lemma PayloadIsNeat(ciphertext: seq<Octet>, d: Decoder)
    requires |ciphertext| <= MAX_CIPHERTEXT_BYTES
    ensures Neat(PayloadField(ciphertext), PAYLOAD, 11, d) && |Encode(ciphertext)| <= MAX_ENCODED_BYTES
  {
    hide Encode, Neat, Plainly, Visible, AllVisible;
    PayloadKeyIsVisible();
    EncodedShape(ciphertext);
    CompactPayload(PAYLOAD, Encode(ciphertext), d);
  }

  lemma CompactPayloadText(key: Bytes, text: Bytes)
    requires AllVisible(key) && AllVisible(text)
    ensures FieldText(Compact(key, Payload(Plainly(text)))) == ['"'] + key + ['"', ':', '"'] + text + ['"']
  {
    hide Plainly, AllVisible, TextOf;
    VisibleIsPlain(text);
    VisibleIsPlain(key);
  }

  lemma PayloadText(ciphertext: seq<Octet>)
    ensures FieldText(PayloadField(ciphertext)) == "\"payload_b64\":\"" + Encode(ciphertext) + "\""
  {
    hide Encode, Plainly, Visible, AllVisible, FieldText, Compact;
    PayloadKeyIsVisible();
    EncodedShape(ciphertext);
    CompactPayloadText(PAYLOAD, Encode(ciphertext));
    assert ['"'] + PAYLOAD + ['"', ':', '"'] == "\"payload_b64\":\"";
  }

  /** What the writer is handed: a time stamp in the fixed UTC form, a random salt and nonce. */
  predicate Inputs(at: Bytes, salt: seq<Octet>, nonce: seq<Octet>) {
    AllVisible(at) && |at| <= 64 && |salt| == 16 && |nonce| == 12
  }

  /** The standard decoder reads back the values the standard encoder wrote for this header. */
  predicate ReadsBack(d: Decoder, at: Bytes, salt: seq<Octet>, nonce: seq<Octet>) {
    && d.valid(JsonText(Str(FORMAT_NAME))) && d.text(JsonText(Str(FORMAT_NAME))) == Some(FORMAT_NAME)
    && d.valid("1") && d.number("1") == Some(FORMAT_VERSION)
    && d.valid(JsonText(Str(at))) && d.text(JsonText(Str(at))) == Some(at)
    && d.valid(JsonText(KdfJson(salt)))
    && d.kdf(JsonText(KdfJson(salt))) == Some(KdfSpec("scrypt", SCRYPT_N, SCRYPT_R, SCRYPT_P, Encode(salt)))
    && d.valid(JsonText(CipherJson(nonce)))
    && d.cipher(JsonText(CipherJson(nonce))) == Some(CipherSpec("aes-256-gcm", Encode(nonce)))
  }

  lemma HeaderLiteralsAreVisible()
    ensures AllVisible(FORMAT) && AllVisible(VERSION) && AllVisible(CREATED_AT) && AllVisible(KDF) && AllVisible(CIPHER)
    ensures AllVisible(FORMAT_NAME)
  {
  }

  lemma HeaderIsNeat(at: Bytes, salt: seq<Octet>, nonce: seq<Octet>, d: Decoder)
    requires Inputs(at, salt, nonce) && ReadsBack(d, at, salt, nonce)
    ensures var h := HeaderFields(at, salt, nonce);
            && Neat(h[0], FORMAT, 40, d) && Neat(h[1], VERSION, 10, d) && Neat(h[2], CREATED_AT, 80, d)
            && Neat(h[3], KDF, 210, d) && Neat(h[4], CIPHER, 210, d)
            && |FieldText(h[0])| <= 250 && |FieldText(h[1])| <= 250 && |FieldText(h[2])| <= 250
            && |FieldText(h[3])| <= 250 && |FieldText(h[4])| <= 250
  {
    hide Fits, FieldText, Str, KdfJson, CipherJson, Encode, Visible, AllVisible, Compact, JsonText;
    AtomText("1");
    HeaderLiteralsAreVisible();
    StrFits(FORMAT_NAME);
    CompactIsNeat(FORMAT, Str(FORMAT_NAME), 27, d);
    AtomFits("1");
    CompactIsNeat(VERSION, Atom("1"), 1, d);
    StrFits(at);
    CompactIsNeat(CREATED_AT, Str(at), |at| + 2, d);
    KdfFits(salt);
    CompactIsNeat(KDF, KdfJson(salt), 200, d);
    CipherFits(nonce);
    CompactIsNeat(CIPHER, CipherJson(nonce), 200, d);
  }

  lemma AtomText(t: Bytes)
    ensures JsonText(Atom(t)) == t
  {
  }

  lemma FieldsTextOfFive(f: seq<Field>, n: nat)
    requires |f| == 5 && forall i :: 0 <= i < 5 ==> |FieldText(f[i])| <= n
    ensures |FieldsText(f)| <= 5 * n + 4
  {
    hide FieldText;
    assert |FieldsText(f[4..])| <= n;
    assert f[3..][1..] == f[4..] && |FieldsText(f[3..])| <= 2 * n + 1;
    assert f[2..][1..] == f[3..] && |FieldsText(f[2..])| <= 3 * n + 2;
    assert f[1..][1..] == f[2..] && |FieldsText(f[1..])| <= 4 * n + 3;
  }

  /** Splicing the payload into the header's text gives the rendering of the six fields, within the
      upload limit. */
  lemma SpliceIsDocument(at: Bytes, salt: seq<Octet>, nonce: seq<Octet>, ciphertext: seq<Octet>, d: Decoder)
    requires Inputs(at, salt, nonce) && ReadsBack(d, at, salt, nonce) && |ciphertext| <= MAX_CIPHERTEXT_BYTES
    ensures |Document("", WrittenFields(at, salt, nonce, ciphertext), "")| <= MAX_UPLOAD_BYTES
    ensures Splice(MarshalHeader(at, salt, nonce), ciphertext) ==
            Done(Document("", WrittenFields(at, salt, nonce, ciphertext), ""))
  {
    hide FieldText, FieldsText, Encode, Neat, Inputs, ReadsBack, PayloadField, HeaderFields;
    var h := HeaderFields(at, salt, nonce);
    HeaderIsNeat(at, salt, nonce, d);
    HeaderHasFive(at, salt, nonce);
    FieldsTextOfFive(h, 250);
    PayloadIsNeat(ciphertext, d);
    PayloadText(ciphertext);
    FieldsTextAppend(h, PayloadField(ciphertext));
    var metadata := MarshalHeader(at, salt, nonce);
    assert metadata[..|metadata| - 1] == ['{'] + FieldsText(h);
    var text := metadata[..|metadata| - 1] + ",\"payload_b64\":\"" + Encode(ciphertext) + "\"}";
    assert text == Document("", WrittenFields(at, salt, nonce, ciphertext), "");
  }

  lemma HeaderHasFive(at: Bytes, salt: seq<Octet>, nonce: seq<Octet>)
    ensures |HeaderFields(at, salt, nonce)| == 5
  {
  }

  // ----- the round trip

  function HeaderWritten(at: Bytes, salt: seq<Octet>, nonce: seq<Octet>): Header {
    Header(FORMAT_NAME, FORMAT_VERSION, at, KdfSpec("scrypt", SCRYPT_N, SCRYPT_R, SCRYPT_P, Encode(salt)),
           CipherSpec("aes-256-gcm", Encode(nonce)))
  }

  /** The values the parser has gathered at the end. */
  function ValuesWritten(at: Bytes, salt: seq<Octet>, nonce: seq<Octet>): map<Bytes, Bytes> {
    map[FORMAT := JsonText(Str(FORMAT_NAME)), VERSION := "1", CREATED_AT := JsonText(Str(at)),
        KDF := JsonText(KdfJson(salt)), CIPHER := JsonText(CipherJson(nonce))]
  }

  lemma HeaderReadsBack(at: Bytes, salt: seq<Octet>, nonce: seq<Octet>, d: Decoder)
    requires ReadsBack(d, at, salt, nonce)
    ensures HeaderOf(ValuesWritten(at, salt, nonce), d) == Some(HeaderWritten(at, salt, nonce))
  {
    hide JsonText, Str, KdfJson, CipherJson, Encode, Trim;
    TrimPast(FORMAT_NAME, []);
    assert FORMAT_NAME + [] == FORMAT_NAME;
  }

  predicate AllNeat(fields: seq<Field>, keys: seq<Bytes>, d: Decoder) {
    |fields| == |keys| && forall i :: 0 <= i < |fields| ==> Neat(fields[i], keys[i], 300, d)
  }

  predicate AllDiffer(keys: seq<Bytes>) {
    forall i, j :: 0 <= i < j < |keys| ==> keys[i] != keys[j]
  }

  lemma {:induction false} NeatWeight(fields: seq<Field>, keys: seq<Bytes>, d: Decoder)
    requires AllNeat(fields, keys, d)
    ensures AllOk(fields) && TotalWeight(fields) <= 300 * |fields|
  {
    hide FieldOk, Weight;
    if fields != [] {
      NeatWeight(fields[1..], keys[1..], d);
    }
  }

  lemma NeatIsAcceptable(fields: seq<Field>, keys: seq<Bytes>, d: Decoder)
    requires AllNeat(fields, keys, d) && AllDiffer(keys) && |fields| <= MAX_FIELDS
    ensures AllOk(fields) && Acceptable(fields, NOTHING, d)
  {
    hide FieldOk, Weight, Sound, KeyOf, TotalWeight;
    NeatWeight(fields, keys, d);
  }

  const KEYS: seq<Bytes> := [FORMAT, VERSION, CREATED_AT, KDF, CIPHER, PAYLOAD]

  lemma KeysDiffer()
    ensures AllDiffer(KEYS)
  {
    assert FORMAT[0] == 'f' && CIPHER[0] == 'c';
  }

  lemma WrittenIsNeat(at: Bytes, salt: seq<Octet>, nonce: seq<Octet>, ciphertext: seq<Octet>, d: Decoder)
    requires Inputs(at, salt, nonce) && ReadsBack(d, at, salt, nonce) && |ciphertext| <= MAX_CIPHERTEXT_BYTES
    ensures AllNeat(WrittenFields(at, salt, nonce, ciphertext), KEYS, d)
  {
    HeaderHasFive(at, salt, nonce);
    hide FieldOk, KeyOf, Sound, Weight, Encode, Inputs, ReadsBack, PayloadField, HeaderFields;
    HeaderIsNeat(at, salt, nonce, d);
    PayloadIsNeat(ciphertext, d);
  }

  lemma AddsValue(key: Bytes, json: Json, g: Gathered)
    requires FieldOk(Compact(key, Metadata(json))) && KeyOf(Compact(key, Metadata(json))) == key && Known(key)
    ensures Added(Compact(key, Metadata(json)), g).values == g.values[key := JsonText(json)]
    ensures Added(Compact(key, Metadata(json)), g).payload == g.payload
  {
  }

  lemma GathersWritten(at: Bytes, salt: seq<Octet>, nonce: seq<Octet>, ciphertext: seq<Octet>, d: Decoder)
    requires var f := WrittenFields(at, salt, nonce, ciphertext); AllNeat(f, KEYS, d) && AllOk(f)
    ensures AddedAll(WrittenFields(at, salt, nonce, ciphertext), NOTHING).values == ValuesWritten(at, salt, nonce)
    ensures AddedAll(WrittenFields(at, salt, nonce, ciphertext), NOTHING).payload == Some(Encode(ciphertext))
  {
    hide FieldOk, KeyOf, Sound, Weight, Encode, Compact, JsonText, Str, KdfJson, CipherJson, Plainly, MeaningOf, WithValue;
    var f := WrittenFields(at, salt, nonce, ciphertext);
    var g1 := Added(f[0], NOTHING);
    AddsValue(FORMAT, Str(FORMAT_NAME), NOTHING);
    var g2 := Added(f[1], g1);
    AddsValue(VERSION, Atom("1"), g1);
    AtomText("1");
    var g3 := Added(f[2], g2);
    AddsValue(CREATED_AT, Str(at), g2);
    var g4 := Added(f[3], g3);
    AddsValue(KDF, KdfJson(salt), g3);
    var g5 := Added(f[4], g4);
    AddsValue(CIPHER, CipherJson(nonce), g4);
    assert f[1..][1..] == f[2..] && f[2..][1..] == f[3..] && f[3..][1..] == f[4..] && f[4..][1..] == f[5..];
    assert f[5..][1..] == [];
    assert AddedAll(f[5..], g5) == Added(f[5], g5);
    assert AddedAll(f[3..], g3) == AddedAll(f[5..], g5);
    assert AddedAll(f[1..], g1) == AddedAll(f[3..], g3);
    PayloadAdds(ciphertext, g5);
  }

  lemma PayloadAdds(ciphertext: seq<Octet>, g: Gathered)
    requires FieldOk(PayloadField(ciphertext))
    ensures Added(PayloadField(ciphertext), g).values == g.values
    ensures Added(PayloadField(ciphertext), g).payload == Some(Encode(ciphertext))
  {
    hide Encode, Plainly;
    EncodedShape(ciphertext);
    VisibleIsPlain(Encode(ciphertext));
  }

  /** Parsing what was written gives back the header and the ciphertext, for every ciphertext
      within the limit: no size check of writer or parser ever fails. */
  lemma WrittenEnvelopeParses(at: Bytes, salt: seq<Octet>, nonce: seq<Octet>, ciphertext: seq<Octet>, d: Decoder)
    requires Inputs(at, salt, nonce) && ReadsBack(d, at, salt, nonce)
    requires 0 < |ciphertext| <= MAX_CIPHERTEXT_BYTES
    ensures var w := Splice(MarshalHeader(at, salt, nonce), ciphertext);
            && w.Done?
            && Parse(w.text, true, d) == Some((HeaderWritten(at, salt, nonce), ciphertext))
            && Parse(w.text, false, d) == Some((HeaderWritten(at, salt, nonce), []))
  {
    hide Inputs, ReadsBack, Splice, MarshalHeader, Parse, Document, AllNeat, Collect, AllOk, AddedAll, HeaderOf, Encode, Decode, Acceptable, WrittenFields, AllDiffer, AllBlank;
    var fields := WrittenFields(at, salt, nonce, ciphertext);
    SpliceIsDocument(at, salt, nonce, ciphertext, d);
    WrittenIsNeat(at, salt, nonce, ciphertext, d);
    KeysDiffer();
    SixFields(at, salt, nonce, ciphertext);
    NeatIsAcceptable(fields, KEYS, d);
    AcceptedExactlyWhen(fields, NOTHING, d);
    GathersWritten(at, salt, nonce, ciphertext, d);
    HeaderReadsBack(at, salt, nonce, d);
    RoundTrip(ciphertext);
    NoBlanks();
    ParseMeaning("", fields, "", true, d);
    ParseMeaning("", fields, "", false, d);
  }

  lemma SixFields(at: Bytes, salt: seq<Octet>, nonce: seq<Octet>, ciphertext: seq<Octet>)
    ensures |WrittenFields(at, salt, nonce, ciphertext)| == 6
  {
  }

  lemma NoBlanks()
    ensures AllBlank("")
  {
  }

  // ----- encryption and decryption

  /** Key derivation and authenticated encryption. */
  datatype Suite = Suite(
    derive: (Bytes, seq<Octet>) -> seq<Octet>,
    seal: (seq<Octet>, seq<Octet>, seq<Octet>) -> seq<Octet>,
    open: (seq<Octet>, seq<Octet>, seq<Octet>) -> Option<seq<Octet>>)

  datatype Decrypted = BadEnvelope | Unsupported | WrongPassphrase | Plaintext(bytes: seq<Octet>)

  function Encrypt(plain: seq<Octet>, passphrase: Bytes, at: Bytes, salt: seq<Octet>, nonce: seq<Octet>, c: Suite): Written {
    if |plain| > MAX_ARCHIVE_BYTES then TooLarge
    else Splice(MarshalHeader(at, salt, nonce), c.seal(c.derive(passphrase, salt), nonce, plain))
  }

  predicate Supported(h: Header) {
    && h.format == FORMAT_NAME && h.version == FORMAT_VERSION
    && h.kdf.name == "scrypt" && h.cipher.name == "aes-256-gcm"
    && h.kdf.n == SCRYPT_N && h.kdf.r == SCRYPT_R && h.kdf.p == SCRYPT_P
  }

  function Decrypt(s: Bytes, passphrase: Bytes, d: Decoder, c: Suite): Decrypted {
    var parsed := Parse(s, true, d);
    if parsed.None? then BadEnvelope
    else
      var (header, ciphertext) := parsed.value;
      var salt, nonce := Decode(Trim(header.kdf.salt)), Decode(Trim(header.cipher.nonce));
      if !Supported(header) then Unsupported
      else if salt.None? || salt.value == [] || nonce.None? || |nonce.value| != 12 then BadEnvelope
      else
        var plain := c.open(c.derive(passphrase, salt.value), nonce.value, ciphertext);
        if plain.None? then WrongPassphrase
        else if |plain.value| > MAX_ARCHIVE_BYTES then BadEnvelope else Plaintext(plain.value)
  }

  lemma TrimmedEncoding(b: seq<Octet>)
    requires b != []
    ensures Decode(Trim(Encode(b))) == Some(b)
  {
    hide Trim, Encode, Decode, WhiteHead, WhiteTail;
    EncodedShape(b);
    RoundTrip(b);
    TrimPast(Encode(b), []);
    assert Encode(b) + [] == Encode(b);
  }

  /** Decrypting an exported archive with its passphrase gives back the archive, whatever its bytes,
      for every archive the exporter accepts. */
  lemma DecryptInvertsEncrypt(plain: seq<Octet>, passphrase: Bytes, at: Bytes, salt: seq<Octet>, nonce: seq<Octet>, d: Decoder, c: Suite)
    requires Inputs(at, salt, nonce) && ReadsBack(d, at, salt, nonce) && |plain| <= MAX_ARCHIVE_BYTES
    requires var key := c.derive(passphrase, salt);
             |c.seal(key, nonce, plain)| == |plain| + 16 && c.open(key, nonce, c.seal(key, nonce, plain)) == Some(plain)
    ensures var w := Encrypt(plain, passphrase, at, salt, nonce, c);
            w.Done? && Decrypt(w.text, passphrase, d, c) == Plaintext(plain)
  {
    hide ReadsBack, Splice, MarshalHeader, Parse, Encode, Decode, Trim;
    var ciphertext := c.seal(c.derive(passphrase, salt), nonce, plain);
    WrittenEnvelopeParses(at, salt, nonce, ciphertext, d);
    TrimmedEncoding(salt);
    TrimmedEncoding(nonce);
  }

  /** A written envelope decrypts under any passphrase to exactly what the cipher opens it to, and is
      refused as a wrong passphrase exactly when the cipher refuses. */
  lemma WrongPassphraseIsRefused(plain: seq<Octet>, passphrase: Bytes, other: Bytes, at: Bytes, salt: seq<Octet>,
                                 nonce: seq<Octet>, d: Decoder, c: Suite)
    requires Inputs(at, salt, nonce) && ReadsBack(d, at, salt, nonce) && |plain| <= MAX_ARCHIVE_BYTES
    requires |c.seal(c.derive(passphrase, salt), nonce, plain)| == |plain| + 16
    ensures var w, result := Encrypt(plain, passphrase, at, salt, nonce, c),
                             c.open(c.derive(other, salt), nonce, c.seal(c.derive(passphrase, salt), nonce, plain));
            && w.Done?
            && (Decrypt(w.text, other, d, c) == WrongPassphrase <==> result.None?)
            && (result.Some? && |result.value| <= MAX_ARCHIVE_BYTES ==> Decrypt(w.text, other, d, c) == Plaintext(result.value))
  {
    hide ReadsBack, Splice, MarshalHeader, Parse, Encode, Decode, Trim;
    var ciphertext := c.seal(c.derive(passphrase, salt), nonce, plain);
    WrittenEnvelopeParses(at, salt, nonce, ciphertext, d);
    TrimmedEncoding(salt);
    TrimmedEncoding(nonce);
  }

  /** The parameters this program encrypts with. */
  predicate OwnParameters(h: Header) {
    && h.format == "simplelinuxupdater-backup" && h.version == 1
    && h.kdf.name == "scrypt" && h.kdf.n == 32768 && h.kdf.r == 8 && h.kdf.p == 1 && h.cipher.name == "aes-256-gcm"
  }

  /** Salt and nonce are usable. */
  predicate Prepared(h: Header, salt: seq<Octet>, nonce: seq<Octet>) {
    Decode(Trim(h.kdf.salt)) == Some(salt) && salt != [] && Decode(Trim(h.cipher.nonce)) == Some(nonce) && |nonce| == 12
  }

  /** The text is an envelope of this program's own kind, with a usable salt and nonce. */
  ghost predicate Decryptable(s: Bytes, d: Decoder, salt: seq<Octet>, nonce: seq<Octet>, ciphertext: seq<Octet>) {
    exists h :: Parse(s, true, d) == Some((h, ciphertext)) && OwnParameters(h) && Prepared(h, salt, nonce)
  }

  /** Every outcome of decryption, for every text: a plaintext comes only from a decryptable envelope that
      the cipher opens to it within the limit, and a wrong passphrase is reported only where the
      cipher refuses. */
  lemma DecryptsExactlyWhen(s: Bytes, passphrase: Bytes, d: Decoder, c: Suite)
    ensures forall p :: Decrypt(s, passphrase, d, c) == Plaintext(p) <==>
              |p| <= MAX_ARCHIVE_BYTES &&
              exists salt, nonce, ciphertext :: Decryptable(s, d, salt, nonce, ciphertext) && c.open(c.derive(passphrase, salt), nonce, ciphertext) == Some(p)
    ensures Decrypt(s, passphrase, d, c) == WrongPassphrase <==>
              exists salt, nonce, ciphertext :: Decryptable(s, d, salt, nonce, ciphertext) && c.open(c.derive(passphrase, salt), nonce, ciphertext) == None
    ensures Decrypt(s, passphrase, d, c) == Unsupported <==> Parse(s, true, d).Some? && !OwnParameters(Parse(s, true, d).value.0)
  {
    hide Parse, Decode, Trim;
    var parsed := Parse(s, true, d);
    if parsed.Some? {
      var (h, ciphertext) := parsed.value;
      var salt, nonce := Decode(Trim(h.kdf.salt)), Decode(Trim(h.cipher.nonce));
      assert Supported(h) <==> OwnParameters(h);
      if Supported(h) && salt.Some? && salt.value != [] && nonce.Some? && |nonce.value| == 12 {
        assert Decryptable(s, d, salt.value, nonce.value, ciphertext);
      }
    }
  }
}
