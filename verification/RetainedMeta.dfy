/**
  The facts kept beside the preview when metadata is cut: counters and flags, small package lists,
  and the status of each health check, with as much of their text as there is room for.
 */
module RetainedMeta {
  import opened Common
  import opened NameLists
  import opened MetaJson
  import opened Redaction

  const META_MAX_LEN := 4096

  const FACTS: seq<string> := [
    "account_id", "personal_token_id", "pending_package_count", "approved_package_count", "security_package_count",
    "approval_scope", "execution_duration_ms", "duration_ms", "total_elapsed_ms", "status", "last_error_class",
    "prechecks_passed", "precheck_failed", "postchecks_enabled", "postchecks_passed", "postcheck_failed",
    "upgrade_completed", "interrupted", "retry_exhausted", "job_id", "deferral_revision", "deferral_rule_count",
    "deferred_package_count", "deferral_decision", "deferral_block_reason", "deferral_observed_revision"]
  const CHECKS: seq<string> := ["disk_space", "apt_health", "post_apt_health", "reboot_required"]
  const COUNTS: seq<string> := ["pending_package_count", "security_package_count"]
  const POST := "postcheck_results"
  const PRE := "precheck_results"

  function EncodedSize(fields: seq<Field>): nat {
    Size(Encode(Record(fields)))
  }

  // ----- plain facts

  predicate SmallFact(v: Meta) {
    match v
    case Text(text) => Size(text) <= 128
    case Bool(_) => true
    case Number(_) => true
    case Null => true
    case _ => false
  }

  function CopyFacts(into: seq<Field>, src: seq<Field>, keys: seq<string>): seq<Field>
    decreases |keys|
  {
    if keys == [] then into
    else
      var value := Lookup(src, keys[0]);
      CopyFacts(if value.Some? && SmallFact(value.value) then Put(into, keys[0], value.value) else into, src, keys[1..])
  }

  function CopyCounts(into: seq<Field>, src: seq<Field>, keys: seq<string>): seq<Field>
    decreases |keys|
  {
    if keys == [] then into
    else
      var value := Lookup(src, keys[0]);
      CopyCounts(if value.Some? && value.value.Number? then Put(into, keys[0], value.value) else into, src, keys[1..])
  }

  function CopyDiscovery(into: seq<Field>, src: seq<Field>): seq<Field> {
    var discovery := Lookup(src, "discovery");
    if discovery.None? || !discovery.value.Record? then into
    else
      var counts := CopyCounts([], discovery.value.fields, COUNTS);
      if counts == [] then into else Put(into, "discovery", Record(counts))
  }

  function CopyPackages(into: seq<Field>, src: seq<Field>): seq<Field> {
    var packages := Lookup(src, "approved_packages");
    if packages.None? || !packages.value.List? || (exists i :: 0 <= i < |packages.value.items| && !packages.value.items[i].Text?)
       || Size(Encode(packages.value)) > 1024 then into
    else
      var more := Put(into, "approved_packages", packages.value);
      if EncodedSize(more) > META_MAX_LEN - 1024 then into else more
  }

  // ----- health checks

  datatype Check = Check(compact: seq<Field>, original: seq<Field>)

  predicate Named(m: Meta, name: string) {
    m.Record? && Lookup(m.fields, "name") == Some(Text(name))
  }

  /** The last result of that name, if any. */
  function LastNamed(values: seq<Meta>, name: string): Option<seq<Field>> {
    if values == [] then None
    else if Named(values[|values| - 1], name) then Some(values[|values| - 1].fields)
    else LastNamed(values[..|values| - 1], name)
  }

  function Compact(name: string, original: seq<Field>): seq<Field> {
    var passed := Lookup(original, "passed") == Some(Bool(true));
    var status := Put(Put([], "name", Text(name)), "passed", Bool(passed));
    var error := Lookup(original, "error");
    if error.Some? && error.value.Text? && error.value.text != "" then Put(status, "error", Text("...")) else status
  }

  function ChecksIn(values: seq<Meta>, names: seq<string>): seq<Check>
    decreases |names|
  {
    if names == [] then []
    else
      var original := LastNamed(values, names[0]);
      (if original.None? then [] else [Check(Compact(names[0], original.value), original.value)]) + ChecksIn(values, names[1..])
  }

  function ResultsOf(src: seq<Field>, key: string): Option<seq<Check>> {
    var values := Lookup(src, key);
    if values.None? || !values.value.List? then None else Some(ChecksIn(values.value.items, CHECKS))
  }

  /** The record under construction; the check results are still being filled in. */
  datatype Draft = Draft(base: seq<Field>, post: Option<seq<Check>>, pre: Option<seq<Check>>)

  function Compacts(checks: seq<Check>): seq<Meta> {
    if checks == [] then [] else [Record(checks[0].compact)] + Compacts(checks[1..])
  }

  function WithResults(into: seq<Field>, key: string, checks: Option<seq<Check>>): seq<Field> {
    if checks.None? then into else Put(into, key, List(Compacts(checks.value)))
  }

  function Assemble(d: Draft): seq<Field> {
    WithResults(WithResults(d.base, POST, d.post), PRE, d.pre)
  }

  function Shortened(text: string): string {
    if |text| > 128 then text[..128] + "..." else text
  }

  function SetText(checks: Option<seq<Check>>, i: nat, field: string): Option<seq<Check>> {
    if checks.None? || i >= |checks.value| then checks
    else
      var c := checks.value[i];
      var text := Lookup(c.original, field);
      if text.None? || !text.value.Text? then checks
      else Some(checks.value[i := Check(Put(c.compact, field, Text(Shortened(text.value.text))), c.original)])
  }

  /** One optional text: kept only if the whole record still leaves 256 bytes. */
  function TryText(d: Draft, inPost: bool, i: nat, field: string): Draft {
    var e := if inPost then d.(post := SetText(d.post, i, field)) else d.(pre := SetText(d.pre, i, field));
    if EncodedSize(Assemble(e)) > META_MAX_LEN - 256 then d else e
  }

  function TryTexts(d: Draft, inPost: bool, i: nat): Draft {
    TryText(TryText(TryText(d, inPost, i, "error"), inPost, i, "output"), inPost, i, "details")
  }

  function Fill(d: Draft, inPost: bool, i: nat, n: nat): Draft
    requires i <= n
    decreases n - i
  {
    if i == n then d else Fill(TryTexts(d, inPost, i), inPost, i + 1, n)
  }

  function CountOf(checks: Option<seq<Check>>): nat {
    if checks.None? then 0 else |checks.value|
  }

  function FillAll(d: Draft): Draft {
    Fill(Fill(d, true, 0, CountOf(d.post)), false, 0, CountOf(d.pre))
  }

  /** Everything but the optional texts. */
  function Reserve(into: seq<Field>, src: seq<Field>): Draft {
    Draft(CopyPackages(CopyDiscovery(CopyFacts(into, src, FACTS), src), src), ResultsOf(src, POST), ResultsOf(src, PRE))
  }

  function Retain(into: seq<Field>, src: seq<Field>): seq<Field> {
    Assemble(FillAll(Reserve(into, src)))
  }

  // ----- texts never take the room or the place of a status

  predicate SameStatus(a: seq<Field>, b: seq<Field>) {
    Lookup(a, "name") == Lookup(b, "name") && Lookup(a, "passed") == Lookup(b, "passed")
  }

  predicate SameStatuses(a: Option<seq<Check>>, b: Option<seq<Check>>) {
    && a.Some? == b.Some?
    && (a.Some? ==> |a.value| == |b.value|)
    && (a.Some? ==> forall i :: 0 <= i < |a.value| ==> SameStatus(a.value[i].compact, b.value[i].compact))
  }

  predicate Refines(d: Draft, e: Draft) {
    d.base == e.base && SameStatuses(d.post, e.post) && SameStatuses(d.pre, e.pre)
  }

  predicate Roomy(d: Draft, room: nat) {
    EncodedSize(Assemble(d)) <= room
  }

  lemma {:induction false} PutElsewhere(fields: seq<Field>, name: string, value: Meta, other: string)
    ensures Lookup(Put(fields, name, value), other) == if other == name then Some(value) else Lookup(fields, other)
  {
    hide Before;
    if fields != [] && !Before(name, fields[0].name) && fields[0].name != name {
      PutElsewhere(fields[1..], name, value, other);
    }
  }

  predicate Optional(field: string) {
    field == "error" || field == "output" || field == "details"
  }

  lemma SetTextKeepsStatuses(checks: Option<seq<Check>>, i: nat, field: string)
    requires Optional(field)
    ensures SameStatuses(checks, SetText(checks, i, field))
  {
    hide Put;
    if checks.Some? && i < |checks.value| {
      var c := checks.value[i];
      var text := Lookup(c.original, field);
      if text.Some? && text.value.Text? {
        PutElsewhere(c.compact, field, Text(Shortened(text.value.text)), "name");
        PutElsewhere(c.compact, field, Text(Shortened(text.value.text)), "passed");
      }
    }
  }

  lemma TryTextRefines(d: Draft, inPost: bool, i: nat, field: string, room: nat)
    requires Optional(field) && Roomy(d, room) && META_MAX_LEN - 256 <= room
    ensures Refines(d, TryText(d, inPost, i, field)) && Roomy(TryText(d, inPost, i, field), room)
  {
    hide EncodedSize, Assemble, SetText;
    SetTextKeepsStatuses(d.post, i, field);
    SetTextKeepsStatuses(d.pre, i, field);
  }

  lemma TryTextsRefines(d: Draft, inPost: bool, i: nat, room: nat)
    requires Roomy(d, room) && META_MAX_LEN - 256 <= room
    ensures Refines(d, TryTexts(d, inPost, i)) && Roomy(TryTexts(d, inPost, i), room)
  {
    hide TryText, Roomy;
    var a := TryText(d, inPost, i, "error");
    TryTextRefines(d, inPost, i, "error", room);
    var b := TryText(a, inPost, i, "output");
    TryTextRefines(a, inPost, i, "output", room);
    TryTextRefines(b, inPost, i, "details", room);
  }

  lemma {:induction false} FillRefines(d: Draft, inPost: bool, i: nat, n: nat, room: nat)
    requires i <= n && Roomy(d, room) && META_MAX_LEN - 256 <= room
    ensures Refines(d, Fill(d, inPost, i, n)) && Roomy(Fill(d, inPost, i, n), room)
    decreases n - i
  {
    hide TryTexts, Roomy;
    if i < n {
      TryTextsRefines(d, inPost, i, room);
      FillRefines(TryTexts(d, inPost, i), inPost, i + 1, n, room);
    }
  }

  /** The optional texts change no check's name or outcome, and never push the record over its size
      without them or the cap less 256 bytes, whichever is more. */
  lemma StatusesSurvive(into: seq<Field>, src: seq<Field>)
    ensures var d := Reserve(into, src);
            && Refines(d, FillAll(d))
            && EncodedSize(Retain(into, src)) <= Larger(EncodedSize(Assemble(d)), META_MAX_LEN - 256)
  {
    hide Fill, EncodedSize, Assemble, Refines, Reserve;
    var d := Reserve(into, src);
    var room := Larger(EncodedSize(Assemble(d)), META_MAX_LEN - 256);
    assert Roomy(d, room);
    FillRefines(d, true, 0, CountOf(d.post), room);
    var e := Fill(d, true, 0, CountOf(d.post));
    FillRefines(e, false, 0, CountOf(d.pre), room);
    RefinesChains(d, e, FillAll(d));
  }

  function Larger(a: nat, b: nat): nat {
    if a > b then a else b
  }

  lemma RefinesChains(a: Draft, b: Draft, c: Draft)
    requires Refines(a, b) && Refines(b, c)
    ensures Refines(a, c)
  {
  }

  // ----- what is retained of the source

  /** The value of a fact after copying: the source's if it is small, else what was there. */
  lemma {:induction false} CopiedFact(into: seq<Field>, src: seq<Field>, keys: seq<string>, name: string)
    ensures var value := Lookup(src, name);
            Lookup(CopyFacts(into, src, keys), name) ==
            if name in keys && value.Some? && SmallFact(value.value) then value else Lookup(into, name)
    decreases |keys|
  {
    hide SmallFact, Put;
    if keys != [] {
      var value := Lookup(src, keys[0]);
      var more := if value.Some? && SmallFact(value.value) then Put(into, keys[0], value.value) else into;
      if value.Some? {
        PutElsewhere(into, keys[0], value.value, name);
      }
      CopiedFact(more, src, keys[1..], name);
    }
  }

  predicate Composite(name: string) {
    name == "discovery" || name == "approved_packages" || name == POST || name == PRE
  }

  lemma ResultsElsewhere(into: seq<Field>, key: string, checks: Option<seq<Check>>, name: string)
    requires name != key
    ensures Lookup(WithResults(into, key, checks), name) == Lookup(into, name)
  {
    hide Put;
    if checks.Some? {
      PutElsewhere(into, key, List(Compacts(checks.value)), name);
    }
  }

  lemma CompositesElsewhere(into: seq<Field>, src: seq<Field>, name: string)
    requires !Composite(name)
    ensures Lookup(CopyPackages(CopyDiscovery(into, src), src), name) == Lookup(into, name)
  {
    hide Put, EncodedSize, Encode, Size, CopyCounts;
    var discovery, packages := Lookup(src, "discovery"), Lookup(src, "approved_packages");
    if discovery.Some? && discovery.value.Record? {
      PutElsewhere(into, "discovery", Record(CopyCounts([], discovery.value.fields, COUNTS)), name);
    }
    if packages.Some? {
      PutElsewhere(CopyDiscovery(into, src), "approved_packages", packages.value, name);
    }
  }

  /** Flags, numbers and short texts. */
  predicate Brief(v: Meta) {
    v.Bool? || v.Number? || v.Null? || (v.Text? && Size(v.text) <= 128)
  }

  lemma SmallFactsAreBrief(v: Meta)
    ensures SmallFact(v) <==> Brief(v)
  {
  }

  /** Every small fact of the source is in the final record with its own value, however much check
      text, discovery data or packages come with it; other fields of the record stay as they were. */
  lemma FactsAreRetained(into: seq<Field>, src: seq<Field>, name: string)
    requires !Composite(name)
    ensures var value := Lookup(src, name);
            Lookup(Retain(into, src), name) ==
            if name in FACTS && value.Some? && Brief(value.value) then value else Lookup(into, name)
  {
    if Lookup(src, name).Some? {
      SmallFactsAreBrief(Lookup(src, name).value);
    }
    hide Fill, SmallFact, Brief, CopyFacts, CopyDiscovery, CopyPackages, WithResults, SameStatuses, EncodedSize, ResultsOf;
    var d := Reserve(into, src);
    StatusesSurvive(into, src);
    var e := FillAll(d);
    ResultsElsewhere(e.base, POST, e.post, name);
    ResultsElsewhere(WithResults(e.base, POST, e.post), PRE, e.pre, name);
    CompositesElsewhere(CopyFacts(into, src, FACTS), src, name);
    CopiedFact(into, src, FACTS, name);
  }

  ghost predicate AllTexts(items: seq<Meta>) {
    forall i :: 0 <= i < |items| ==> items[i].Text?
  }

  /** The package list is retained whole or not at all: exactly if it is a list of names of at most 1024
      bytes that leaves 1024 bytes free. */
  lemma PackagesAreWhole(into: seq<Field>, src: seq<Field>)
    requires Lookup(into, "approved_packages").None?
    ensures var packages, kept := Lookup(src, "approved_packages"), Lookup(CopyPackages(into, src), "approved_packages");
            && (kept.Some? <==>
                  && packages.Some? && packages.value.List? && AllTexts(packages.value.items) && Size(Encode(packages.value)) <= 1024
                  && EncodedSize(Put(into, "approved_packages", packages.value)) <= META_MAX_LEN - 1024)
            && (kept.Some? ==> kept == packages && EncodedSize(CopyPackages(into, src)) <= META_MAX_LEN - 1024)
            && (kept.None? ==> CopyPackages(into, src) == into)
  {
    hide Put, EncodedSize, Encode, Size;
    var packages := Lookup(src, "approved_packages");
    if packages.Some? {
      PutElsewhere(into, "approved_packages", packages.value, "approved_packages");
    }
  }

  lemma {:induction false} CopiedCount(into: seq<Field>, src: seq<Field>, keys: seq<string>, name: string)
    ensures var value := Lookup(src, name);
            Lookup(CopyCounts(into, src, keys), name) ==
            if name in keys && value.Some? && value.value.Number? then value else Lookup(into, name)
    decreases |keys|
  {
    hide Put;
    if keys != [] {
      var value := Lookup(src, keys[0]);
      if value.Some? {
        PutElsewhere(into, keys[0], value.value, name);
      }
      CopiedCount(if value.Some? && value.value.Number? then Put(into, keys[0], value.value) else into, src, keys[1..], name);
    }
  }

  lemma SomethingCounted(fields: seq<Field>, name: string)
    requires Lookup(fields, name).Some?
    ensures fields != []
  {
  }

  /** Of the discovery data exactly the package counts that are numbers are retained, and nothing if there
      are none. */
  lemma DiscoveryIsRetained(into: seq<Field>, src: seq<Field>, name: string)
    requires Lookup(into, "discovery").None? && Lookup(src, "discovery").Some? && Lookup(src, "discovery").value.Record?
    ensures var counts, kept := Lookup(src, "discovery").value.fields, Lookup(CopyDiscovery(into, src), "discovery");
            var value := Lookup(counts, name);
            if (name == "pending_package_count" || name == "security_package_count") && value.Some? && value.value.Number?
            then kept.Some? && kept.value.Record? && Lookup(kept.value.fields, name) == value
            else kept.Some? ==> kept.value.Record? && Lookup(kept.value.fields, name).None?
  {
    hide Put;
    var counts := Lookup(src, "discovery").value.fields;
    var copied := CopyCounts([], counts, COUNTS);
    CopiedCount([], counts, COUNTS, name);
    PutElsewhere(into, "discovery", Record(copied), "discovery");
    hide CopyCounts;
    if Lookup(copied, name).Some? {
      SomethingCounted(copied, name);
    }
  }

  /** The last result of a name is the last in the list that has it. */
  lemma {:induction false} LastNamedMeans(values: seq<Meta>, name: string)
    ensures LastNamed(values, name).None? <==> forall i :: 0 <= i < |values| ==> !HasName(values[i], name)
    ensures forall i :: 0 <= i < |values| && HasName(values[i], name) && (forall j :: i < j < |values| ==> !HasName(values[j], name)) ==>
              LastNamed(values, name) == Some(values[i].fields)
  {
    if values != [] {
      LastNamedMeans(values[..|values| - 1], name);
    }
  }

  predicate HasName(m: Meta, name: string) {
    m.Record? && Lookup(m.fields, "name").Some? && Lookup(m.fields, "name").value == Text(name)
  }

  /** An optional text is added, cut to 128 characters, exactly if the whole record then leaves 256 bytes;
      it changes nothing but that text of that check. */
  lemma TextIsKeptIfItFits(d: Draft, inPost: bool, i: nat, field: string)
    requires var checks := if inPost then d.post else d.pre;
             checks.Some? && i < |checks.value| && Lookup(checks.value[i].original, field).Some? && Lookup(checks.value[i].original, field).value.Text?
    ensures var checks, e := if inPost then d.post.value else d.pre.value, TryText(d, inPost, i, field);
            var text := Lookup(checks[i].original, field).value.text;
            var more := checks[i := Check(Put(checks[i].compact, field, Text(if |text| <= 128 then text else text[..128] + "...")), checks[i].original)];
            var wanted := if inPost then Draft(d.base, Some(more), d.pre) else Draft(d.base, d.post, Some(more));
            e == if EncodedSize(Assemble(wanted)) <= 3840 then wanted else d
  {
    hide EncodedSize, Assemble, Put;
  }

  /** A check's record: its name and whether the source's last result of that name passed. */
  predicate Reports(m: Meta, name: string, original: seq<Field>) {
    m.Record? && Lookup(m.fields, "name") == Some(Text(name))
    && Lookup(m.fields, "passed") == Some(Bool(Lookup(original, "passed") == Some(Bool(true))))
  }

  lemma CompactReports(name: string, original: seq<Field>)
    ensures Reports(Record(Compact(name, original)), name, original)
  {
    hide Put;
    var passed := Bool(Lookup(original, "passed") == Some(Bool(true)));
    var status := Put(Put([], "name", Text(name)), "passed", passed);
    PutElsewhere([], "name", Text(name), "name");
    PutElsewhere(Put([], "name", Text(name)), "passed", passed, "name");
    PutElsewhere(Put([], "name", Text(name)), "passed", passed, "passed");
    PutElsewhere(status, "error", Text("..."), "name");
    PutElsewhere(status, "error", Text("..."), "passed");
  }

  lemma {:induction false} ListedCheck(values: seq<Meta>, names: seq<string>, name: string) returns (i: nat)
    requires name in names && LastNamed(values, name).Some?
    ensures i < |ChecksIn(values, names)|
    ensures ChecksIn(values, names)[i].compact == Compact(name, LastNamed(values, name).value)
    decreases |names|
  {
    hide Compact, LastNamed;
    if names[0] == name {
      i := 0;
    } else {
      i := ListedCheck(values, names[1..], name);
      i := i + if LastNamed(values, names[0]).None? then 0 else 1;
    }
  }

  lemma {:induction false} CompactAt(checks: seq<Check>, i: nat)
    requires i < |checks|
    ensures i < |Compacts(checks)| && Compacts(checks)[i] == Record(checks[i].compact)
  {
    if i > 0 {
      CompactAt(checks[1..], i - 1);
    }
  }

  /** The record lists, under `key`, a report of the check. */
  ghost predicate Listed(record: seq<Field>, key: string, name: string, original: seq<Field>) {
    var results := Lookup(record, key);
    results.Some? && results.value.List?
    && exists i :: 0 <= i < |results.value.items| && Reports(results.value.items[i], name, original)
  }

  lemma ResultsThere(d: Draft)
    ensures d.post.Some? ==> Lookup(Assemble(d), POST) == Some(List(Compacts(d.post.value)))
    ensures d.pre.Some? ==> Lookup(Assemble(d), PRE) == Some(List(Compacts(d.pre.value)))
  {
    hide Put, Compacts;
    var base := WithResults(d.base, POST, d.post);
    if d.post.Some? {
      PutElsewhere(d.base, POST, List(Compacts(d.post.value)), POST);
    }
    if d.pre.Some? {
      PutElsewhere(base, PRE, List(Compacts(d.pre.value)), PRE);
      PutElsewhere(base, PRE, List(Compacts(d.pre.value)), POST);
    }
  }

  lemma ReportSurvives(before: Option<seq<Check>>, after: Option<seq<Check>>, values: seq<Meta>, name: string)
    requires SameStatuses(before, after) && before == Some(ChecksIn(values, CHECKS))
    requires name in CHECKS && LastNamed(values, name).Some?
    ensures after.Some? && exists i :: 0 <= i < |Compacts(after.value)| && Reports(Compacts(after.value)[i], name, LastNamed(values, name).value)
  {
    var i := ListedCheck(values, CHECKS, name);
    CompactReports(name, LastNamed(values, name).value);
    hide Compact, LastNamed, Compacts, ChecksIn;
    CompactAt(after.value, i);
    assert SameStatus(before.value[i].compact, after.value[i].compact);
    assert Reports(Compacts(after.value)[i], name, LastNamed(values, name).value);
  }

  /** Every supported check in the source is in the final record, with its name and its last outcome,
      however long the texts that come with it. */
  lemma ChecksAreRetained(into: seq<Field>, src: seq<Field>, key: string, name: string)
    requires (key == POST || key == PRE) && name in CHECKS
    requires Lookup(src, key).Some? && Lookup(src, key).value.List? && LastNamed(Lookup(src, key).value.items, name).Some?
    ensures Listed(Retain(into, src), key, name, LastNamed(Lookup(src, key).value.items, name).value)
  {
    hide Fill, CopyFacts, CopyDiscovery, CopyPackages, WithResults, SameStatuses, EncodedSize, ChecksIn, Compacts, LastNamed, Reports, Assemble;
    var d := Reserve(into, src);
    StatusesSurvive(into, src);
    var e := FillAll(d);
    ResultsThere(e);
    ReportSurvives(if key == POST then d.post else d.pre, if key == POST then e.post else e.pre, Lookup(src, key).value.items, name);
  }

  // ----- nothing sensitive is retained

  /** A word that lacks a letter of every sensitive pattern is not sensitive. */
  lemma {:induction false} ContainsNeeds(s: string, t: string, c: char)
    requires Contains(s, t) && c in t
    ensures c in s
  {
    if t <= s {
      var i :| 0 <= i < |t| && t[i] == c;
      assert s[i] == c;
    } else {
      ContainsNeeds(s[1..], t, c);
    }
  }

  lemma SuffixNeeds(s: string, t: string, c: char)
    requires HasSuffix(s, t) && c in t
    ensures c in s
  {
    assert c in s[|s| - |t|..];
  }

  lemma SuffixStarts(s: string, t: string)
    requires HasSuffix(s, t) && t != []
    ensures |t| <= |s| && s[|s| - |t|] == t[0]
  {
    assert s[|s| - |t|..][0] == t[0];
  }

  predicate Harmless(s: string) {
    && 'k' !in s && ('s' !in s || 'w' !in s) && ('s' !in s || 'c' !in s)
    && (|s| == 4 ==> s[0] != 'p') && (|s| >= 5 ==> s[4] != '_' && s[|s| - 5] != '_')
  }

  lemma HarmlessIsNotSensitive(s: string)
    requires Harmless(s)
    ensures !SensitiveWord(s)
  {
    hide Contains, HasSuffix;
    if Contains(s, "password") { ContainsNeeds(s, "password", 's'); ContainsNeeds(s, "password", 'w'); }
    if Contains(s, "secret") { ContainsNeeds(s, "secret", 's'); ContainsNeeds(s, "secret", 'c'); }
    if Contains(s, "token") { ContainsNeeds(s, "token", 'k'); }
    if HasSuffix(s, "_key") { SuffixNeeds(s, "_key", 'k'); }
    if HasSuffix(s, "_secret") { SuffixNeeds(s, "_secret", 's'); SuffixNeeds(s, "_secret", 'c'); }
    assert "pass"[0] == 'p' && "pass_"[4] == '_' && "_pass"[0] == '_';
    if HasSuffix(s, "_pass") { SuffixStarts(s, "_pass"); }
    assert "api_key"[4] == "access_key"[7] == "secret_key"[7] == "private_key"[8] == "ssh_key"[4] == "key"[0] == "key_"[0] == 'k';
  }

  predicate PlainWord(s: string) {
    s != [] && forall i :: 0 <= i < |s| ==> 'a' <= s[i] <= 'z' || s[i] == '_'
  }

  lemma PlainWordIsItself(s: string)
    requires PlainWord(s)
    ensures LowerAll(TrimSpace(s)) == s
  {
    assert TrimLeft(s) == s && TrimRight(s) == s;
    assert LowerAll(s) == s;
  }

  lemma OwnName(s: string)
    requires PlainWord(s) && Harmless(s)
    ensures !Sensitive(s)
  {
    hide SensitiveWord, LowerAll, TrimLeft, TrimRight;
    PlainWordIsItself(s);
    HarmlessIsNotSensitive(s);
  }

  // The names the sanitizer itself introduces.

  lemma LongNames()
    ensures !Sensitive("_truncated") && !Sensitive("original_length")
  {
    hide Sensitive;
    OwnName("_truncated");
    OwnName("original_length");
  }

  lemma ShortNames()
    ensures !Sensitive("fields") && !Sensitive("preview")
  {
    hide Sensitive;
    OwnName("fields");
    OwnName("preview");
  }

  lemma StatusNames()
    ensures !Sensitive("name") && !Sensitive("passed")
  {
    hide Sensitive;
    OwnName("name");
    OwnName("passed");
  }

  lemma TextNames()
    ensures !Sensitive("error") && !Sensitive("output") && !Sensitive("details")
  {
    hide Sensitive;
    OwnName("error");
    OwnName("output");
    OwnName("details");
  }

  lemma {:induction false} CleanFacts(into: seq<Field>, src: seq<Field>, keys: seq<string>)
    requires CleanFields(into) && CleanFields(src)
    ensures CleanFields(CopyFacts(into, src, keys)) && CleanFields(CopyCounts(into, src, keys))
    decreases |keys|
  {
    hide Sensitive, CleanFields, Clean;
    if keys != [] {
      var value := Lookup(src, keys[0]);
      if value.Some? {
        CleanLookup(src, keys[0]);
        CleanPut(into, keys[0], value.value);
        CleanFacts(Put(into, keys[0], value.value), src, keys[1..]);
      }
      CleanFacts(into, src, keys[1..]);
    }
  }

  lemma CleanDiscovery(into: seq<Field>, src: seq<Field>)
    requires CleanFields(into) && CleanFields(src)
    ensures CleanFields(CopyDiscovery(into, src))
  {
    hide Sensitive;
    var discovery := Lookup(src, "discovery");
    if discovery.Some? && discovery.value.Record? {
      CleanLookup(src, "discovery");
      CleanFacts([], discovery.value.fields, COUNTS);
      CleanPut(into, "discovery", Record(CopyCounts([], discovery.value.fields, COUNTS)));
    }
  }

  lemma CleanPackages(into: seq<Field>, src: seq<Field>)
    requires CleanFields(into) && CleanFields(src)
    ensures CleanFields(CopyPackages(into, src))
  {
    hide Sensitive, CleanFields, Clean, EncodedSize, Encode, Size;
    var packages := Lookup(src, "approved_packages");
    if packages.Some? {
      CleanLookup(src, "approved_packages");
      CleanPut(into, "approved_packages", packages.value);
    }
  }

  predicate CleanChecks(checks: Option<seq<Check>>) {
    checks.Some? ==> forall i :: 0 <= i < |checks.value| ==> CleanFields(checks.value[i].compact)
  }

  predicate CleanDraft(d: Draft) {
    && CleanFields(d.base) && CleanChecks(d.post) && CleanChecks(d.pre)
    && (d.post.Some? ==> !Sensitive(POST)) && (d.pre.Some? ==> !Sensitive(PRE))
  }

  lemma CleanCompact(name: string, original: seq<Field>)
    ensures CleanFields(Compact(name, original))
  {
    hide Sensitive, CleanFields;
    StatusNames();
    TextNames();
    NothingIsClean();
    var passed := Lookup(original, "passed") == Some(Bool(true));
    CleanPut([], "name", Text(name));
    CleanPut(Put([], "name", Text(name)), "passed", Bool(passed));
    CleanPut(Put(Put([], "name", Text(name)), "passed", Bool(passed)), "error", Text("..."));
  }

  lemma NothingIsClean()
    ensures CleanFields([])
  {
  }

  lemma {:induction false} CleanChecksIn(values: seq<Meta>, names: seq<string>)
    ensures CleanChecks(Some(ChecksIn(values, names)))
    decreases |names|
  {
    hide CleanFields, Compact, LastNamed;
    if names != [] {
      CleanChecksIn(values, names[1..]);
      var original := LastNamed(values, names[0]);
      if original.Some? {
        CleanCompact(names[0], original.value);
      }
    }
  }

  lemma CleanReserve(into: seq<Field>, src: seq<Field>)
    requires CleanFields(into) && CleanFields(src)
    ensures CleanDraft(Reserve(into, src))
  {
    hide Sensitive, CleanFields, CleanChecks, CopyFacts, CopyDiscovery, CopyPackages, ChecksIn;
    CleanFacts(into, src, FACTS);
    CleanDiscovery(CopyFacts(into, src, FACTS), src);
    CleanPackages(CopyDiscovery(CopyFacts(into, src, FACTS), src), src);
    CleanResults(src, POST);
    CleanResults(src, PRE);
  }

  lemma CleanResults(src: seq<Field>, key: string)
    requires CleanFields(src)
    ensures CleanChecks(ResultsOf(src, key)) && (ResultsOf(src, key).Some? ==> !Sensitive(key))
  {
    hide Sensitive, CleanFields, ChecksIn;
    var values := Lookup(src, key);
    if values.Some? && values.value.List? {
      CleanLookup(src, key);
      CleanChecksIn(values.value.items, CHECKS);
    }
  }

  lemma CleanSetText(checks: Option<seq<Check>>, i: nat, field: string)
    requires CleanChecks(checks) && Optional(field)
    ensures CleanChecks(SetText(checks, i, field))
  {
    hide Sensitive, CleanFields;
    TextNames();
    if checks.Some? && i < |checks.value| {
      var c := checks.value[i];
      var text := Lookup(c.original, field);
      if text.Some? && text.value.Text? {
        CleanPut(c.compact, field, Text(Shortened(text.value.text)));
      }
    }
  }

  lemma CleanTryText(d: Draft, inPost: bool, i: nat, field: string)
    requires CleanDraft(d) && Optional(field)
    ensures CleanDraft(TryText(d, inPost, i, field))
  {
    hide Sensitive, CleanFields, CleanChecks, EncodedSize, Assemble, SetText;
    CleanSetText(d.post, i, field);
    CleanSetText(d.pre, i, field);
    SetTextKeepsStatuses(d.post, i, field);
    SetTextKeepsStatuses(d.pre, i, field);
  }

  lemma {:induction false} CleanFill(d: Draft, inPost: bool, i: nat, n: nat)
    requires CleanDraft(d) && i <= n
    ensures CleanDraft(Fill(d, inPost, i, n))
    decreases n - i
  {
    hide CleanDraft, TryText;
    if i < n {
      CleanTryText(d, inPost, i, "error");
      CleanTryText(TryText(d, inPost, i, "error"), inPost, i, "output");
      CleanTryText(TryText(TryText(d, inPost, i, "error"), inPost, i, "output"), inPost, i, "details");
      CleanFill(TryTexts(d, inPost, i), inPost, i + 1, n);
    }
  }

  lemma {:induction false} CleanCompacts(checks: seq<Check>)
    requires CleanChecks(Some(checks))
    ensures CleanItems(Compacts(checks))
  {
    hide CleanFields;
    if checks != [] {
      CleanCompacts(checks[1..]);
    }
  }

  lemma CleanWithResults(into: seq<Field>, key: string, checks: Option<seq<Check>>)
    requires CleanFields(into) && CleanChecks(checks) && (checks.Some? ==> !Sensitive(key))
    ensures CleanFields(WithResults(into, key, checks))
  {
    hide Sensitive, CleanFields;
    if checks.Some? {
      CleanCompacts(checks.value);
      CleanPut(into, key, List(Compacts(checks.value)));
    }
  }

  /** Retaining facts from redacted metadata retains no sensitive name at any depth. */
  lemma RetainedIsClean(into: seq<Field>, src: seq<Field>)
    requires CleanFields(into) && CleanFields(src)
    ensures CleanFields(Retain(into, src))
  {
    hide Sensitive, CleanFields, CleanChecks, Reserve, Fill, WithResults;
    CleanReserve(into, src);
    var d := Reserve(into, src);
    CleanFill(d, true, 0, CountOf(d.post));
    CleanFill(Fill(d, true, 0, CountOf(d.post)), false, 0, CountOf(d.pre));
    var e := FillAll(d);
    CleanWithResults(e.base, POST, e.post);
    CleanWithResults(WithResults(e.base, POST, e.post), PRE, e.pre);
  }
}
