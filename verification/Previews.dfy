/**
  Cutting audit metadata to its byte limit: a binary search for the longest preview of the redacted
  text that fits beside the retained facts.
 */
module Previews {
  import opened Common
  import opened NameLists
  import opened MetaJson
  import opened Redaction
  import opened RetainedMeta

  const FALLBACK := "{\"_truncated\":true}"

  function Decimal(n: nat): string {
    if n < 10 then [('0' as int + n) as char] else Decimal(n / 10) + [('0' as int + n % 10) as char]
  }

  /** The record written in place of metadata that is too long, before the preview is chosen. */
  function Truncated(redacted: seq<Field>, raw: string): seq<Field> {
    var notice := Put(Put(Put(Put([], "_truncated", Bool(true)), "original_length", Number(Decimal(Size(raw)))),
                          "fields", Number(Decimal(|redacted|))), "preview", Text(""));
    Retain(notice, redacted)
  }

  function Preview(raw: string, k: nat): string
    requires k <= |raw|
  {
    if k < |raw| then raw[..k] + "..." else raw[..k]
  }

  function Cut(truncated: seq<Field>, raw: string, k: nat): seq<Field>
    requires k <= |raw|
  {
    Put(truncated, "preview", Text(Preview(raw, k)))
  }

  predicate Fits(truncated: seq<Field>, raw: string, k: nat)
    requires k <= |raw|
  {
    EncodedSize(Cut(truncated, raw, k)) <= META_MAX_LEN
  }

  /** The record with the longest preview that fits, or the fallback if none does. */
  predicate Longest(r: string, truncated: seq<Field>, raw: string) {
    || (r == FALLBACK && NoneFits(truncated, raw))
    || (exists k: nat :: k <= |raw| && IsLongest(r, truncated, raw, k))
  }

  predicate NoneFits(truncated: seq<Field>, raw: string) {
    forall j: nat :: j <= |raw| ==> !Fits(truncated, raw, j)
  }

  predicate IsLongest(r: string, truncated: seq<Field>, raw: string, k: nat)
    requires k <= |raw|
  {
    && r == Encode(Record(Cut(truncated, raw, k))) && Fits(truncated, raw, k)
    && forall j: nat :: k < j <= |raw| ==> !Fits(truncated, raw, j)
  }

  // ----- longer previews take more room

  lemma RecordSize(fields: seq<Field>)
    ensures EncodedSize(fields) == Size(EncodeFields(fields)) + 2
  {
    SizeAppend("{", EncodeFields(fields));
    SizeAppend("{" + EncodeFields(fields), "}");
  }

  function Room(truncated: seq<Field>): nat {
    EncodedSize(Put(truncated, "preview", Text("")))
  }

  lemma CutSize(truncated: seq<Field>, raw: string, k: nat)
    requires k <= |raw|
    ensures EncodedSize(Cut(truncated, raw, k)) == Room(truncated) + Size(EscapeAll(Preview(raw, k)))
  {
    hide EncodedSize;
    RecordSize(Cut(truncated, raw, k));
    RecordSize(Put(truncated, "preview", Text("")));
    TextAddsItsSize(truncated, "preview", Preview(raw, k));
  }

  lemma ShorterFits(truncated: seq<Field>, raw: string, j: nat, k: nat)
    requires j <= k < |raw| && Fits(truncated, raw, k)
    ensures Fits(truncated, raw, j)
  {
    hide EncodedSize, Size, EscapeAll, Room;
    CutSize(truncated, raw, j);
    CutSize(truncated, raw, k);
    assert raw[..k] == raw[..j] + raw[j..k];
    EscapeAppend(raw[..j], raw[j..k]);
    EscapeAppend(raw[..j], "...");
    EscapeAppend(raw[..k], "...");
    SizeAppend(EscapeAll(raw[..j]), EscapeAll(raw[j..k]));
    SizeAppend(EscapeAll(raw[..j]), EscapeAll("..."));
    SizeAppend(EscapeAll(raw[..k]), EscapeAll("..."));
  }

  /** Text that is too long is too long inside the record, too. */
  lemma WholeNeverFits(truncated: seq<Field>, raw: string)
    requires Size(raw) > META_MAX_LEN
    ensures !Fits(truncated, raw, |raw|)
  {
    hide EncodedSize, Size, EscapeAll, Room;
    CutSize(truncated, raw, |raw|);
    assert raw[..|raw|] == raw;
    EscapingGrows(raw);
  }

  /** The binary search. */
  method LongestPreview(truncated: seq<Field>, raw: string) returns (best: string)
    requires Size(raw) > META_MAX_LEN
    ensures Longest(best, truncated, raw)
  {
    hide Fits, Encode, Cut;
    var lo, hi := 0, |raw|;
    best := FALLBACK;
    while lo <= hi
      invariant 0 <= lo <= hi + 1 <= |raw| + 1
      invariant forall j: nat :: hi < j <= |raw| ==> !Fits(truncated, raw, j)
      invariant lo == 0 ==> best == FALLBACK
      invariant lo > 0 ==> best == Encode(Record(Cut(truncated, raw, lo - 1))) && Fits(truncated, raw, lo - 1)
      decreases hi - lo + 1
    {
      var mid := (lo + hi) / 2;
      var candidate := Encode(Record(Cut(truncated, raw, mid)));
      FitsMeans(truncated, raw, mid);
      if Size(candidate) <= META_MAX_LEN {
        best := candidate;
        lo := mid + 1;
        continue;
      }
      forall j: nat | mid <= j <= |raw| ensures !Fits(truncated, raw, j) {
        TooLongStays(truncated, raw, mid, j);
      }
      hi := mid - 1;
    }
    assert lo > 0 ==> IsLongest(best, truncated, raw, lo - 1);
  }

  lemma FitsMeans(truncated: seq<Field>, raw: string, k: nat)
    requires k <= |raw|
    ensures Fits(truncated, raw, k) <==> Size(Encode(Record(Cut(truncated, raw, k)))) <= META_MAX_LEN
  {
  }

  lemma TooLongStays(truncated: seq<Field>, raw: string, k: nat, j: nat)
    requires k <= j <= |raw| && !Fits(truncated, raw, k) && Size(raw) > META_MAX_LEN
    ensures !Fits(truncated, raw, j)
  {
    hide Fits;
    if j == |raw| {
      WholeNeverFits(truncated, raw);
    } else if Fits(truncated, raw, j) {
      ShorterFits(truncated, raw, k, j);
    }
  }

  /** The stored text; `meta` is None for metadata that is absent or cannot be encoded. */
  method SanitizeMeta(meta: Option<seq<Field>>) returns (r: string)
    ensures meta.None? ==> r == "{}"
    ensures meta.Some? ==> Sanitized(r, meta.value)
  {
    if meta.None? {
      return "{}";
    }
    var redacted := RedactFields(meta.value);
    var raw := Encode(Record(redacted));
    if Size(raw) > META_MAX_LEN {
      r := LongestPreview(Truncated(redacted, raw), raw);
      return;
    }
    r := raw;
  }

  predicate Sanitized(r: string, fields: seq<Field>) {
    var redacted := RedactFields(fields);
    var raw := Encode(Record(redacted));
    if Size(raw) <= META_MAX_LEN then r == raw else Longest(r, Truncated(redacted, raw), raw)
  }

  // ----- what is stored

  lemma TruncatedIsClean(redacted: seq<Field>, raw: string)
    requires CleanFields(redacted)
    ensures CleanFields(Truncated(redacted, raw))
  {
    hide Sensitive, CleanFields, Decimal, Retain;
    LongNames();
    ShortNames();
    NothingIsClean();
    var a := Put([], "_truncated", Bool(true));
    CleanPut([], "_truncated", Bool(true));
    var b := Put(a, "original_length", Number(Decimal(Size(raw))));
    CleanPut(a, "original_length", Number(Decimal(Size(raw))));
    var c := Put(b, "fields", Number(Decimal(|redacted|)));
    CleanPut(b, "fields", Number(Decimal(|redacted|)));
    CleanPut(c, "preview", Text(""));
    RetainedIsClean(Put(c, "preview", Text("")), redacted);
  }

  /** Whatever is stored is the text of a record without any sensitive name at any depth, and takes
      at most 4096 bytes. */
  lemma StoredIsCleanAndShort(r: string, fields: seq<Field>) returns (stored: seq<Field>)
    requires Sanitized(r, fields)
    ensures r == Encode(Record(stored)) && CleanFields(stored) && Size(r) <= META_MAX_LEN
  {
    hide Sensitive, CleanFields, Truncated, RedactFields, Encode, Size;
    var redacted := RedactFields(fields);
    var raw := Encode(Record(redacted));
    RedactedFieldsAreClean(fields);
    if Size(raw) <= META_MAX_LEN {
      stored := redacted;
    } else {
      var truncated := Truncated(redacted, raw);
      TruncatedIsClean(redacted, raw);
      ShortNames();
      if r == FALLBACK {
        stored := Put([], "_truncated", Bool(true));
        FallbackIsShort();
      } else {
        var k: nat :| k <= |raw| && IsLongest(r, truncated, raw, k);
        stored := Cut(truncated, raw, k);
        CleanPut(truncated, "preview", Text(Preview(raw, k)));
      }
    }
  }

  lemma {:induction false} PlainWordIsUnescaped(s: string)
    requires forall i :: 0 <= i < |s| ==> 'a' <= s[i] <= 'z' || s[i] == '_'
    ensures EscapeAll(s) == s
  {
    if s != [] {
      assert Escape(s[0]) == [s[0]];
      hide Escape;
      PlainWordIsUnescaped(s[1..]);
      assert s == [s[0]] + s[1..];
    }
  }

  lemma FallbackText(name: string)
    requires EscapeAll(name) == name
    ensures Encode(Record([Field(name, Bool(true))])) == "{\"" + name + "\":true}"
  {
    hide EscapeAll;
    var fields := [Field(name, Bool(true))];
    assert fields[1..] == [] && EncodeFields([]) == [];
    assert EncodeFields(fields) == "\"" + name + "\"" + ":" + "true" + [] + [];
    assert "{" + EncodeFields(fields) + "}" == "{\"" + name + "\":true}";
  }

  lemma FallbackIsShort()
    ensures FALLBACK == Encode(Record(Put([], "_truncated", Bool(true)))) && CleanFields(Put([], "_truncated", Bool(true)))
    ensures Size(FALLBACK) <= META_MAX_LEN
  {
    hide Sensitive, Size, Encode, EscapeAll;
    LongNames();
    SizeBound(FALLBACK);
    PlainWordIsUnescaped("_truncated");
    FallbackText("_truncated");
    assert Put([], "_truncated", Bool(true)) == [Field("_truncated", Bool(true))];
    assert FALLBACK == "{\"" + "_truncated" + "\":true}";
  }

  lemma {:induction false} SizeBound(s: string)
    ensures Size(s) <= 4 * |s|
  {
    if s != [] {
      SizeBound(s[1..]);
    }
  }

  /** No preview fits, and the fallback is stored, exactly when the retained facts leave no room for
      the three dots of an empty preview. */
  lemma FallbackExactlyWhen(truncated: seq<Field>, raw: string)
    requires Size(raw) > META_MAX_LEN
    ensures NoneFits(truncated, raw) <==> Room(truncated) + 3 > META_MAX_LEN
  {
    assert raw != [];
    hide Fits, Room, Size;
    FirstFitsWhen(truncated, raw);
    if !Fits(truncated, raw, 0) {
      forall j: nat | j <= |raw| ensures !Fits(truncated, raw, j) {
        TooLongStays(truncated, raw, 0, j);
      }
    }
  }

  lemma FirstFitsWhen(truncated: seq<Field>, raw: string)
    requires raw != []
    ensures Fits(truncated, raw, 0) <==> Room(truncated) + 3 <= META_MAX_LEN
  {
    hide EncodedSize, Room, Cut, EscapeAll;
    CutSize(truncated, raw, 0);
    assert Preview(raw, 0) == "...";
    Dots();
  }

  lemma Dots()
    ensures Size(EscapeAll("...")) == 3
  {
    assert EscapeAll("...") == "...";
  }

  /** Whatever preview is chosen, every small fact of the redacted metadata stands beside it. */
  lemma CutKeepsFacts(redacted: seq<Field>, raw: string, k: nat, name: string)
    requires k <= |raw| && name in FACTS && !Composite(name) && name != "preview"
    requires Lookup(redacted, name).Some? && Brief(Lookup(redacted, name).value)
    ensures Lookup(Cut(Truncated(redacted, raw), raw, k), name) == Lookup(redacted, name)
  {
    hide Put, Retain, Brief, Decimal;
    var notice := Put(Put(Put(Put([], "_truncated", Bool(true)), "original_length", Number(Decimal(Size(raw)))),
                          "fields", Number(Decimal(|redacted|))), "preview", Text(""));
    FactsAreRetained(notice, redacted, name);
    PutElsewhere(Truncated(redacted, raw), "preview", Text(Preview(raw, k)), name);
  }

  /** And so does every supported health check, with its last outcome. */
  lemma CutKeepsChecks(redacted: seq<Field>, raw: string, k: nat, key: string, name: string)
    requires k <= |raw| && (key == POST || key == PRE) && name in CHECKS
    requires Lookup(redacted, key).Some? && Lookup(redacted, key).value.List?
    requires LastNamed(Lookup(redacted, key).value.items, name).Some?
    ensures Listed(Cut(Truncated(redacted, raw), raw, k), key, name, LastNamed(Lookup(redacted, key).value.items, name).value)
  {
    hide Put, Retain, Decimal, LastNamed, Reports;
    var notice := Put(Put(Put(Put([], "_truncated", Bool(true)), "original_length", Number(Decimal(Size(raw)))),
                          "fields", Number(Decimal(|redacted|))), "preview", Text(""));
    ChecksAreRetained(notice, redacted, key, name);
    PutElsewhere(Truncated(redacted, raw), "preview", Text(Preview(raw, k)), key);
  }

  /** The number that decimal digits stand for. */
  function ValueOf(digits: string): int {
    if digits == [] then 0 else 10 * ValueOf(digits[..|digits| - 1]) + (digits[|digits| - 1] as int - '0' as int)
  }

  lemma {:induction false} DecimalReads(n: nat)
    ensures ValueOf(Decimal(n)) == n && Decimal(n) != [] && forall i :: 0 <= i < |Decimal(n)| ==> '0' <= Decimal(n)[i] <= '9'
  {
    if n < 10 {
      assert Decimal(n)[..0] == [];
    } else {
      DecimalReads(n / 10);
      assert Decimal(n)[..|Decimal(n)| - 1] == Decimal(n / 10);
    }
  }

  /** What is cut says so: the flag, the original length in bytes, the number of fields, and a preview that
      begins as the redacted text does. */
  lemma CutSaysSo(redacted: seq<Field>, raw: string, k: nat)
    requires k <= |raw|
    ensures var stored := Cut(Truncated(redacted, raw), raw, k);
            && Lookup(stored, "_truncated") == Some(Bool(true))
            && Lookup(stored, "original_length") == Some(Number(Decimal(Size(raw))))
            && Lookup(stored, "fields") == Some(Number(Decimal(|redacted|)))
            && Lookup(stored, "preview") == Some(Text(if k < |raw| then raw[..k] + "..." else raw))
  {
    OwnNamesAreNotFacts();
    hide Cut, Truncated, Decimal, Composite;
    NoticeSays(Number(Decimal(Size(raw))), Number(Decimal(|redacted|)));
    OwnFieldStays(redacted, raw, k, "_truncated");
    OwnFieldStays(redacted, raw, k, "original_length");
    OwnFieldStays(redacted, raw, k, "fields");
    PreviewThere(redacted, raw, k);
  }

  function Notice(length: Meta, fields: Meta): seq<Field> {
    Put(Put(Put(Put([], "_truncated", Bool(true)), "original_length", length), "fields", fields), "preview", Text(""))
  }

  lemma OwnFieldStays(redacted: seq<Field>, raw: string, k: nat, name: string)
    requires k <= |raw| && name !in FACTS && !Composite(name) && name != "preview"
    ensures Lookup(Cut(Truncated(redacted, raw), raw, k), name) ==
            Lookup(Notice(Number(Decimal(Size(raw))), Number(Decimal(|redacted|))), name)
  {
    hide Put, Retain, Decimal, Brief, Composite;
    FactsAreRetained(Notice(Number(Decimal(Size(raw))), Number(Decimal(|redacted|))), redacted, name);
    PutElsewhere(Truncated(redacted, raw), "preview", Text(Preview(raw, k)), name);
  }

  lemma PreviewThere(redacted: seq<Field>, raw: string, k: nat)
    requires k <= |raw|
    ensures Lookup(Cut(Truncated(redacted, raw), raw, k), "preview") == Some(Text(if k < |raw| then raw[..k] + "..." else raw))
  {
    hide Put, Truncated;
    PutElsewhere(Truncated(redacted, raw), "preview", Text(Preview(raw, k)), "preview");
    assert raw[..|raw|] == raw;
  }

  lemma OwnNamesAreNotFacts()
    ensures "_truncated" !in FACTS && "original_length" !in FACTS && "fields" !in FACTS
    ensures !Composite("_truncated") && !Composite("original_length") && !Composite("fields")
  {
    FactsStartOtherwise();
    assert "_truncated"[0] == '_' && "original_length"[0] == 'o' && "fields"[0] == 'f';
    hide Composite;
    OwnNamesAreNotComposite();
  }

  lemma FactsStartOtherwise()
    ensures forall name :: name in FACTS ==> |name| > 0 && name[0] != '_' && name[0] != 'o' && name[0] != 'f'
  {
  }

  lemma OwnNamesAreNotComposite()
    ensures !Composite("_truncated") && !Composite("original_length") && !Composite("fields")
  {
    assert "_truncated"[0] == '_' && "original_length"[0] == 'o' && "fields"[0] == 'f';
  }

  lemma NoticeSays(length: Meta, fields: Meta)
    ensures var notice := Notice(length, fields);
            && Lookup(notice, "_truncated") == Some(Bool(true)) && Lookup(notice, "original_length") == Some(length)
            && Lookup(notice, "fields") == Some(fields)
  {
    hide Put;
    var a := Put([], "_truncated", Bool(true));
    var b := Put(a, "original_length", length);
    var c := Put(b, "fields", fields);
    PutElsewhere([], "_truncated", Bool(true), "_truncated");
    PutElsewhere(a, "original_length", length, "_truncated");
    PutElsewhere(a, "original_length", length, "original_length");
    PutElsewhere(b, "fields", fields, "_truncated");
    PutElsewhere(b, "fields", fields, "original_length");
    PutElsewhere(b, "fields", fields, "fields");
    PutElsewhere(c, "preview", Text(""), "_truncated");
    PutElsewhere(c, "preview", Text(""), "original_length");
    PutElsewhere(c, "preview", Text(""), "fields");
  }
}
