/**
  The encrypted archive's JSON envelope: one object holding the key-derivation and cipher
  parameters and the base64 payload, read in one pass with bounds on everything.
 */
module Envelope {
  import opened Common
  import opened JsonStrings
  import opened JsonValues
  import opened Base64

  const MAX_KEY_BYTES := 256
  const MAX_FIELDS := 32
  const MAX_METADATA_BYTES := 1_048_576
  const MAX_CIPHERTEXT_BYTES := 269_484_048
  const MAX_ENCODED_BYTES := 359_312_064
  const MAX_UPLOAD_BYTES := 360_364_736

  const PAYLOAD := "payload_b64"
  const FORMAT := "format"
  const VERSION := "version"
  const CREATED_AT := "created_at"
  const KDF := "kdf"
  const CIPHER := "cipher"

  predicate Known(key: Bytes) {
    key == FORMAT || key == VERSION || key == CREATED_AT || key == KDF || key == CIPHER
  }

  /** Well-formed UTF-8: no overlong forms, no surrogates. */
  predicate Utf8(s: Bytes) {
    s == [] ||
    var r := DecodeRune(s);
    ScalarValue(r) && EncodeRune(r) <= s && Utf8(s[|EncodeRune(r)|..])
  }

  datatype KdfSpec = KdfSpec(name: Bytes, n: int, r: int, p: int, salt: Bytes)

  datatype CipherSpec = CipherSpec(name: Bytes, nonce: Bytes)

  datatype Header = Header(format: Bytes, version: int, createdAt: Bytes, kdf: KdfSpec, cipher: CipherSpec)

  /** The standard JSON decoder: its grammar check, and its typed decoding of one raw value. */
  datatype Decoder = Decoder(
    valid: Bytes -> bool,
    text: Bytes -> Option<Bytes>,
    number: Bytes -> Option<int>,
    kdf: Bytes -> Option<KdfSpec>,
    cipher: Bytes -> Option<CipherSpec>)

  // ----- the field loop

  /** What the loop has gathered: keys seen, metadata bytes counted, known raw values, and the
      payload's text. */
  datatype Gathered = Gathered(seen: set<Bytes>, size: nat, values: map<Bytes, Bytes>, payload: Option<Bytes>)

  const NOTHING: Gathered := Gathered({}, 0, map[], None)

  predicate Fresh(key: Bytes, g: Gathered) {
    g.size + |key| <= MAX_METADATA_BYTES && |g.seen| < MAX_FIELDS && key !in g.seen
  }

  function WithPayload(g: Gathered, text: Bytes): Gathered {
    Gathered(g.seen + {PAYLOAD}, g.size + |PAYLOAD|, g.values, Some(text))
  }

  function WithValue(g: Gathered, key: Bytes, raw: Bytes): Gathered {
    Gathered(g.seen + {key}, g.size + |key| + |raw|, if Known(key) then g.values[key := raw] else g.values, g.payload)
  }

  /** The value of a field whose key has been accepted. */
  function ReadValue(s: Bytes, key: Bytes, g: Gathered, d: Decoder): Read<Gathered> {
    if key == PAYLOAD then
      var text := ReadString(s, MAX_ENCODED_BYTES);
      if text.Malformed? then Malformed else Ok(WithPayload(g, text.value), text.rest)
    else
      var raw := ReadRaw(s, MAX_METADATA_BYTES, d.valid);
      if raw.Malformed? || g.size + |key| + |raw.value| > MAX_METADATA_BYTES then Malformed
      else Ok(WithValue(g, key, raw.value), raw.rest)
  }

  function ReadColon(s: Bytes): Read<()> {
    var t := SkipBlanks(s);
    if t != [] && t[0] == ':' && SkipBlanks(t[1..]) != [] then Ok((), SkipBlanks(t[1..])) else Malformed
  }

  function ReadField(s: Bytes, g: Gathered, d: Decoder): Read<Gathered> {
    var key := ReadString(s, MAX_KEY_BYTES);
    if key.Malformed? || !Utf8(key.value) || !Fresh(key.value, g) then Malformed
    else
      var colon := ReadColon(key.rest);
      if colon.Malformed? then Malformed else ReadValue(colon.rest, key.value, g, d)
  }

  /** Everything after the opening brace. `mayEnd` is false right after a comma. */
  function ReadFields(s: Bytes, g: Gathered, mayEnd: bool, d: Decoder): Read<Gathered>
    decreases |s|
  {
    var t := SkipBlanks(s);
    if t == [] then Malformed
    else if t[0] == '}' then if mayEnd then Ok(g, t[1..]) else Malformed
    else
      var field := ReadField(t, g, d);
      if field.Malformed? then Malformed
      else
        var u := SkipBlanks(field.rest);
        if u == [] then Malformed
        else if u[0] == '}' then Ok(field.value, u[1..])
        else if u[0] != ',' then Malformed
        else
          SkipBlanksShortens(s);
          SkipBlanksShortens(field.rest);
          ReadFieldShortens(t, g, d);
          ReadFields(u[1..], field.value, false, d)
  }

  // ----- the envelope

  function HeaderOf(values: map<Bytes, Bytes>, d: Decoder): Option<Header> {
    if FORMAT !in values || VERSION !in values then None
    else
      var format, version := d.text(values[FORMAT]), d.number(values[VERSION]);
      var created := if CREATED_AT in values then d.text(values[CREATED_AT]) else Some("");
      var kdf := if KDF in values then d.kdf(values[KDF]) else Some(KdfSpec("", 0, 0, 0, ""));
      var cipher := if CIPHER in values then d.cipher(values[CIPHER]) else Some(CipherSpec("", ""));
      if format.None? || version.None? || created.None? || kdf.None? || cipher.None? then None
      else if Trim(format.value) == [] || version.value <= 0 then None
      else Some(Header(format.value, version.value, created.value, kdf.value, cipher.value))
  }

  function PayloadOf(text: Option<Bytes>): Option<seq<Octet>> {
    if text.None? then None
    else
      var bytes := Decode(text.value);
      if bytes.None? || bytes.value == [] || |bytes.value| > MAX_CIPHERTEXT_BYTES then None else bytes
  }

  /** What the gathered fields amount to: a header, and the ciphertext if it is wanted. */
  function Conclude(g: Gathered, extract: bool, d: Decoder): Option<(Header, seq<Octet>)> {
    var header := HeaderOf(g.values, d);
    if header.None? then None
    else if !extract then Some((header.value, []))
    else
      var payload := PayloadOf(g.payload);
      if payload.None? then None else Some((header.value, payload.value))
  }

  /** None is a malformed envelope. */
  function Parse(s: Bytes, extract: bool, d: Decoder): Option<(Header, seq<Octet>)> {
    var t := SkipBlanks(s);
    if |s| > MAX_UPLOAD_BYTES || t == [] || t[0] != '{' then None
    else
      var fields := ReadFields(t[1..], NOTHING, true, d);
      if fields.Malformed? || SkipBlanks(fields.rest) != [] then None
      else Conclude(fields.value, extract, d)
  }

  // ----- termination

  lemma ReadStringShortens(s: Bytes, max: nat)
    requires ReadString(s, max).Ok?
    ensures |ReadString(s, max).rest| < |s|
  {
    var items := ReadStringSound(s, max);
  }

  lemma ReadFieldShortens(s: Bytes, g: Gathered, d: Decoder)
    requires ReadField(s, g, d).Ok?
    ensures |ReadField(s, g, d).rest| < |s|
  {
    hide ReadString, ReadRaw, SkipBlanks, Utf8;
    var key := ReadString(s, MAX_KEY_BYTES);
    ReadStringShortens(s, MAX_KEY_BYTES);
    SkipBlanksShortens(key.rest);
    var t := SkipBlanks(key.rest);
    SkipBlanksShortens(t[1..]);
    var v := ReadColon(key.rest).rest;
    if key.value == PAYLOAD {
      ReadStringShortens(v, MAX_ENCODED_BYTES);
    } else {
      ReadRawIsBounded(v, MAX_METADATA_BYTES, d.valid);
    }
  }
}
