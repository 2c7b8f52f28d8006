/**
  Backup archives. A tar stream is a sequence of entries that may break off with a read error. Two
  inspectors, one in memory and one extracting to files, decide whether an archive can be restored
  and what it lacks; the builder writes one. Hashing and the manifest's JSON form are functions of
  the environment, and the order in which a map is visited is arbitrary.
 */
module Archives {
  import opened Common
  import opened NameLists

  type Bytes = string

  datatype Entry = Entry(name: string, regular: bool, data: Bytes)

  datatype FileInfo = FileInfo(size: int, sha: string)

  /** `files` is None when the manifest has no such field. */
  datatype Manifest = Manifest(format: string, version: int, createdAt: string, files: Option<map<string, FileInfo>>)

  /** `packed` is the size of the compressed archive of some entries. */
  datatype Library = Library(
    decode: Bytes -> Option<Manifest>, encode: Manifest -> Bytes, digest: Bytes -> string, packed: seq<Entry> -> nat)

  datatype Limits = Limits(file: int, total: int)

  datatype Verdict = Rejected
                   | Accepted(files: map<string, Bytes>, manifest: Manifest, compatible: bool, missing: seq<string>)

  const MANIFEST := "manifest.json"
  const DATABASE := "servers.db"
  const CONFIG := "config.json"
  const HOSTS := "known_hosts"
  const FORMAT_NAME := "simplelinuxupdater-backup"
  const FORMAT_VERSION := 1
  const MAX_MANIFEST_BYTES := 1_048_576
  const MAX_EXTRACTED_BYTES := 268_435_456
  const MAX_ARCHIVE_BYTES := 269_484_032

  predicate Restorable(name: string) {
    name == DATABASE || name == CONFIG || name == HOSTS
  }

  predicate EntryName(name: string) {
    name == MANIFEST || Restorable(name)
  }

  function Lower(c: char): char {
    if 'A' <= c <= 'Z' then (c as int + 32) as char else c
  }

  /** Equal up to the case of ASCII letters. */
  predicate EqualFold(a: string, b: string) {
    |a| == |b| && forall i :: 0 <= i < |a| ==> Lower(a[i]) == Lower(b[i])
  }

  // ----- what makes an archive acceptable

  function TotalSize(entries: seq<Entry>): nat {
    if entries == [] then 0 else TotalSize(entries[..|entries| - 1]) + |entries[|entries| - 1].data|
  }

  function Contents(entries: seq<Entry>): map<string, Bytes> {
    if entries == [] then map[]
    else Contents(entries[..|entries| - 1])[entries[|entries| - 1].name := entries[|entries| - 1].data]
  }

  predicate GoodEntry(e: Entry, max: Limits) {
    EntryName(e.name) && e.regular && |e.data| <= max.file
  }

  predicate WellPacked(entries: seq<Entry>, max: Limits) {
    && (forall i :: 0 <= i < |entries| ==> GoodEntry(entries[i], max))
    && (forall i, j :: 0 <= i < j < |entries| ==> entries[i].name != entries[j].name)
    && (entries != [] ==> TotalSize(entries) <= max.total)
  }

  function ManifestOf(files: map<string, Bytes>, lib: Library): Option<Manifest> {
    if MANIFEST !in files then None
    else
      var m := lib.decode(files[MANIFEST]);
      if m.None? || m.value.files.None? then None else m
  }

  predicate Matches(data: Bytes, info: FileInfo, lib: Library) {
    |data| == info.size && EqualFold(lib.digest(data), info.sha)
  }

  predicate GoodDeclaration(name: string, files: map<string, Bytes>, declared: map<string, FileInfo>, lib: Library)
    requires name in declared
  {
    Restorable(name) && (name in files ==> Matches(files[name], declared[name], lib))
  }

  predicate Consistent(files: map<string, Bytes>, declared: map<string, FileInfo>, lib: Library) {
    && (HOSTS in files ==> HOSTS in declared)
    && forall name | name in declared :: GoodDeclaration(name, files, declared, lib)
  }

  predicate Acceptable(entries: seq<Entry>, intact: bool, max: Limits, lib: Library) {
    && intact && WellPacked(entries, max)
    && ManifestOf(Contents(entries), lib).Some?
    && Consistent(Contents(entries), ManifestOf(Contents(entries), lib).value.files.value, lib)
  }

  function Unfulfilled(files: map<string, Bytes>, declared: map<string, FileInfo>): set<string> {
    set name | name in declared && name !in files
  }

  function Absent(files: map<string, Bytes>, declared: map<string, FileInfo>): set<string> {
    set name | name in {DATABASE, CONFIG} && (name !in files || name !in declared)
  }

  predicate Compatible(m: Manifest) {
    m.format == FORMAT_NAME && m.version == FORMAT_VERSION
  }

  /** The one verdict an archive deserves: `fits` is any further condition the inspector has. */
  predicate Deserved(v: Verdict, entries: seq<Entry>, intact: bool, max: Limits, fits: bool, lib: Library) {
    && (v.Rejected? <==> !(Acceptable(entries, intact, max, lib) && fits))
    && (v.Accepted? ==>
          var m := ManifestOf(Contents(entries), lib);
          && m.Some? && m.value.files.Some? && v.files == Contents(entries) && v.manifest == m.value
          && v.compatible == Compatible(m.value) && Ascending(v.missing)
          && Elements(v.missing) == Absent(v.files, m.value.files.value) + Unfulfilled(v.files, m.value.files.value))
  }

  /** The manifest is small enough for the extracting inspector. */
  predicate SmallManifest(entries: seq<Entry>) {
    MANIFEST in Contents(entries) ==> |Contents(entries)[MANIFEST]| <= MAX_MANIFEST_BYTES
  }

  // ----- the loops

  lemma {:induction false} PrefixIsWellPacked(entries: seq<Entry>, i: nat, max: Limits)
    requires WellPacked(entries, max) && i <= |entries|
    ensures WellPacked(entries[..i], max)
    decreases |entries| - i
  {
    hide GoodEntry;
    if i < |entries| {
      PrefixIsWellPacked(entries, i + 1, max);
      assert entries[..i + 1][..i] == entries[..i];
    } else {
      assert entries[..i] == entries;
    }
  }

  /** One more entry: exactly the checks both inspectors make. */
  lemma OneMoreEntry(entries: seq<Entry>, i: nat, max: Limits)
    requires i < |entries| && WellPacked(entries[..i], max)
    ensures var e := entries[i];
            && Contents(entries[..i + 1]) == Contents(entries[..i])[e.name := e.data]
            && TotalSize(entries[..i + 1]) == TotalSize(entries[..i]) + |e.data|
            && (WellPacked(entries[..i + 1], max) <==>
                (GoodEntry(e, max) && e.name !in Contents(entries[..i]) && TotalSize(entries[..i]) + |e.data| <= max.total))
  {
    hide GoodEntry;
    assert entries[..i + 1][..i] == entries[..i];
    NamesOf(entries[..i]);
    assert entries[..i + 1] == entries[..i] + [entries[i]];
  }

  lemma {:induction false} NamesOf(entries: seq<Entry>)
    ensures forall name :: name in Contents(entries) <==> exists i :: 0 <= i < |entries| && entries[i].name == name
  {
    if entries != [] {
      var init := entries[..|entries| - 1];
      NamesOf(init);
      assert entries == init + [entries[|entries| - 1]];
    }
  }

  method UnpackInMemory(entries: seq<Entry>, intact: bool, max: Limits) returns (ok: bool, files: map<string, Bytes>)
    ensures ok == (intact && WellPacked(entries, max))
    ensures ok ==> files == Contents(entries)
  {
    hide WellPacked, GoodEntry;
    files := map[];
    var totalExtracted := 0;
    var i := 0;
    NothingPacked(entries, max);
    while i < |entries|
      invariant 0 <= i <= |entries| && WellPacked(entries[..i], max)
      invariant files == Contents(entries[..i]) && totalExtracted == TotalSize(entries[..i])
    {
      OneMoreEntry(entries, i, max);
      GoodEntryMeans(entries[i], max);
      var hdr := entries[i];
      if !EntryName(hdr.name) || !hdr.regular || hdr.name in files || |hdr.data| > max.file
         || totalExtracted + |hdr.data| > max.total {
        if WellPacked(entries, max) {
          PrefixIsWellPacked(entries, i + 1, max);
        }
        return false, files;
      }
      totalExtracted := totalExtracted + |hdr.data|;
      files := files[hdr.name := hdr.data];
      i := i + 1;
    }
    assert entries[..i] == entries;
    ok := intact;
  }

  lemma NothingIn(entries: seq<Entry>)
    ensures Contents(entries[..0]) == map[]
  {
  }

  lemma NothingPacked(entries: seq<Entry>, max: Limits)
    ensures WellPacked(entries[..0], max)
  {
  }

  lemma GoodEntryMeans(e: Entry, max: Limits)
    ensures GoodEntry(e, max) <==> EntryName(e.name) && e.regular && |e.data| <= max.file
  {
  }

  /** What the extracting inspector records of each file it has written. */
  function Observed(files: map<string, Bytes>, lib: Library): map<string, FileInfo> {
    map name | name in files :: FileInfo(|files[name]|, lib.digest(files[name]))
  }

  lemma OneMoreObserved(files: map<string, Bytes>, name: string, data: Bytes, lib: Library)
    ensures Observed(files[name := data], lib) == Observed(files, lib)[name := FileInfo(|data|, lib.digest(data))]
  {
  }

  method UnpackToFiles(entries: seq<Entry>, intact: bool, max: Limits, lib: Library)
    returns (ok: bool, files: map<string, Bytes>, actual: map<string, FileInfo>)
    ensures ok == (intact && WellPacked(entries, max))
    ensures ok ==> files == Contents(entries) && actual == Observed(files, lib)
  {
    files, actual := map[], map[];
    assert Observed(files, lib) == actual;
    hide WellPacked, GoodEntry, Observed, Contents;
    NothingIn(entries);
    var seen: set<string> := {};
    var total := 0;
    var i := 0;
    NothingPacked(entries, max);
    while i < |entries|
      invariant 0 <= i <= |entries| && WellPacked(entries[..i], max)
      invariant files == Contents(entries[..i]) && total == TotalSize(entries[..i])
      invariant seen == files.Keys && actual == Observed(files, lib)
    {
      OneMoreEntry(entries, i, max);
      GoodEntryMeans(entries[i], max);
      var hdr := entries[i];
      if !EntryName(hdr.name) || !hdr.regular || hdr.name in seen || |hdr.data| > max.file
         || total + |hdr.data| > max.total {
        if WellPacked(entries, max) {
          PrefixIsWellPacked(entries, i + 1, max);
        }
        return false, files, actual;
      }
      OneMoreObserved(files, hdr.name, hdr.data, lib);
      seen := seen + {hdr.name};
      total := total + |hdr.data|;
      files := files[hdr.name := hdr.data];
      actual := actual[hdr.name := FileInfo(|hdr.data|, lib.digest(hdr.data))];
      i := i + 1;
    }
    assert entries[..i] == entries;
    ok := intact;
  }

  /** The required files that are not there or not declared. */
  method RequiredMissing(files: map<string, Bytes>, declared: map<string, FileInfo>) returns (missing: seq<string>)
    ensures Elements(missing) == Absent(files, declared)
  {
    missing := [];
    EmptyElements(missing);
    if DATABASE !in files || DATABASE !in declared {
      ElementsAround(DATABASE, missing);
      missing := missing + [DATABASE];
    }
    if CONFIG !in files || CONFIG !in declared {
      ElementsAround(CONFIG, missing);
      missing := missing + [CONFIG];
    }
  }

  predicate AllGood(names: set<string>, files: map<string, Bytes>, declared: map<string, FileInfo>, lib: Library)
    requires names <= declared.Keys
  {
    forall name | name in names :: GoodDeclaration(name, files, declared, lib)
  }

  /** Visits the declared files in any order, against the data itself. */
  method CheckDeclaredInMemory(files: map<string, Bytes>, declared: map<string, FileInfo>, lib: Library, before: seq<string>)
    returns (ok: bool, missing: seq<string>)
    ensures ok == AllGood(declared.Keys, files, declared, lib)
    ensures ok ==> Elements(missing) == Elements(before) + Unfulfilled(files, declared)
  {
    hide Elements, EqualFold, Restorable;
    missing := before;
    var names := declared.Keys;
    while names != {}
      invariant names <= declared.Keys && AllGood(declared.Keys - names, files, declared, lib)
      invariant Elements(missing) == Elements(before) + (set n | n in declared.Keys - names && n !in files)
    {
      var name :| name in names;
      names := names - {name};
      assert declared.Keys - names == (declared.Keys - (names + {name})) + {name};
      if !Restorable(name) {
        return false, missing;
      }
      if name !in files {
        ElementsAround(name, missing);
        missing := missing + [name];
        continue;
      }
      if |files[name]| != declared[name].size {
        return false, missing;
      }
      if !EqualFold(lib.digest(files[name]), declared[name].sha) {
        return false, missing;
      }
    }
    assert declared.Keys - names == declared.Keys;
    ok := true;
  }

  /** The same against what was recorded during extraction. */
  method CheckDeclaredFiles(actual: map<string, FileInfo>, declared: map<string, FileInfo>, before: seq<string>,
                            ghost files: map<string, Bytes>, ghost lib: Library)
    returns (ok: bool, missing: seq<string>)
    requires actual == Observed(files, lib)
    ensures ok == AllGood(declared.Keys, files, declared, lib)
    ensures ok ==> Elements(missing) == Elements(before) + Unfulfilled(files, declared)
  {
    hide Elements, EqualFold;
    missing := before;
    var names := declared.Keys;
    while names != {}
      invariant names <= declared.Keys && AllGood(declared.Keys - names, files, declared, lib)
      invariant Elements(missing) == Elements(before) + (set n | n in declared.Keys - names && n !in files)
    {
      var name :| name in names;
      names := names - {name};
      assert declared.Keys - names == (declared.Keys - (names + {name})) + {name};
      if !EntryName(name) || name == MANIFEST {
        return false, missing;
      }
      if name !in actual {
        ElementsAround(name, missing);
        missing := missing + [name];
        continue;
      }
      if actual[name].size != declared[name].size {
        return false, missing;
      }
      if !EqualFold(actual[name].sha, declared[name].sha) {
        return false, missing;
      }
    }
    assert declared.Keys - names == declared.Keys;
    ok := true;
  }

  method SortAndCompact(missing: seq<string>) returns (r: seq<string>)
    ensures Ascending(r) && Elements(r) == Elements(missing)
  {
    hide Ascending, Elements;
    var sorted := Sort(missing);
    var values := new string[|sorted|](i requires 0 <= i < |sorted| => sorted[i]);
    assert values[..] == sorted;
    var n := CompactStrings(values);
    SortedAndCompacted(missing);
    r := values[..n];
  }

  method InspectInMemory(entries: seq<Entry>, intact: bool, max: Limits, lib: Library) returns (v: Verdict)
    ensures Deserved(v, entries, intact, max, true, lib)
  {
    hide WellPacked, Ascending, Elements, GoodDeclaration, Absent, Unfulfilled;
    var ok, files := UnpackInMemory(entries, intact, max);
    if !ok || MANIFEST !in files {
      return Rejected;
    }
    var m := lib.decode(files[MANIFEST]);
    if m.None? || m.value.files.None? {
      return Rejected;
    }
    var declared := m.value.files.value;
    var missing := RequiredMissing(files, declared);
    if HOSTS in files && HOSTS !in declared {
      return Rejected;
    }
    ok, missing := CheckDeclaredInMemory(files, declared, lib, missing);
    if !ok {
      return Rejected;
    }
    missing := SortAndCompact(missing);
    v := Accepted(files, m.value, Compatible(m.value), missing);
  }

  method InspectFiles(entries: seq<Entry>, intact: bool, max: Limits, lib: Library) returns (v: Verdict)
    ensures Deserved(v, entries, intact, max, SmallManifest(entries), lib)
  {
    hide WellPacked, Ascending, Elements, GoodDeclaration, Absent, Unfulfilled;
    var ok, files, actual := UnpackToFiles(entries, intact, max, lib);
    if !ok || MANIFEST !in files {
      return Rejected;
    }
    if |files[MANIFEST]| > MAX_MANIFEST_BYTES {
      return Rejected;
    }
    var m := lib.decode(files[MANIFEST]);
    if m.None? || m.value.files.None? {
      return Rejected;
    }
    var declared := m.value.files.value;
    var missing := RequiredMissing(files, declared);
    if HOSTS in files && HOSTS !in declared {
      return Rejected;
    }
    ok, missing := CheckDeclaredFiles(actual, declared, missing, files, lib);
    if !ok {
      return Rejected;
    }
    missing := SortAndCompact(missing);
    v := Accepted(files, m.value, Compatible(m.value), missing);
  }

  /** There is only one verdict to reach, so visiting the manifest in another order changes nothing,
      and the two inspectors agree on every archive except those whose manifest is over 1 MiB, which
      only the one in memory can accept. */
  lemma InspectorsAgree(memory: Verdict, files: Verdict, entries: seq<Entry>, intact: bool, max: Limits, lib: Library)
    requires Deserved(memory, entries, intact, max, true, lib)
    requires Deserved(files, entries, intact, max, SmallManifest(entries), lib)
    ensures files == if SmallManifest(entries) then memory else Rejected
  {
    hide WellPacked, Ascending, Elements, Consistent, Absent, Unfulfilled;
    if files.Accepted? {
      AscendingIsUnique(memory.missing, files.missing);
    }
    if !SmallManifest(entries) {
      assert files.Rejected?;
    }
  }

  // ----- acceptance, entry by entry

  /** Equal, or the same letter in the other case. */
  predicate SameLetter(a: char, b: char) {
    a == b || ('A' <= a <= 'Z' && b as int == a as int + 32) || ('A' <= b <= 'Z' && a as int == b as int + 32)
  }

  predicate SameHash(a: string, b: string) {
    |a| == |b| && forall i :: 0 <= i < |a| ==> SameLetter(a[i], b[i])
  }

  lemma FoldingMeans(a: string, b: string)
    ensures EqualFold(a, b) <==> SameHash(a, b)
  {
    if |a| == |b| {
      assert forall i :: 0 <= i < |a| ==> (Lower(a[i]) == Lower(b[i]) <==> SameLetter(a[i], b[i]));
    }
  }

  lemma {:induction false} ContentsMeans(entries: seq<Entry>)
    requires forall i, j :: 0 <= i < j < |entries| ==> entries[i].name != entries[j].name
    ensures forall i :: 0 <= i < |entries| ==> entries[i].name in Contents(entries) && Contents(entries)[entries[i].name] == entries[i].data
  {
    if entries != [] {
      ContentsMeans(entries[..|entries| - 1]);
    }
  }

  predicate DataName(name: string) {
    name == "servers.db" || name == "config.json" || name == "known_hosts"
  }

  /** Every entry is a regular file of a known name, within the limit, and no name comes twice. */
  ghost predicate SoundEntries(entries: seq<Entry>, max: Limits) {
    && (forall i :: 0 <= i < |entries| ==>
          (entries[i].name == "manifest.json" || DataName(entries[i].name)) && entries[i].regular && |entries[i].data| <= max.file)
    && (forall i, j :: 0 <= i < j < |entries| ==> entries[i].name != entries[j].name)
    && (entries != [] ==> TotalSize(entries) <= max.total)
  }

  /** The entry is what the manifest says of it, if it says anything. */
  predicate AsDeclared(e: Entry, declared: map<string, FileInfo>, lib: Library) {
    && (e.name in declared ==> |e.data| == declared[e.name].size && SameHash(lib.digest(e.data), declared[e.name].sha))
    && (e.name == "known_hosts" ==> e.name in declared)
  }

  /** The manifest is there, declares only data files, and every entry is as declared. */
  ghost predicate Describes(m: Manifest, entries: seq<Entry>, lib: Library) {
    && m.files.Some? && (exists k :: 0 <= k < |entries| && entries[k].name == "manifest.json" && lib.decode(entries[k].data) == Some(m))
    && (forall name :: name in m.files.value ==> DataName(name))
    && (forall i :: 0 <= i < |entries| ==> AsDeclared(entries[i], m.files.value, lib))
  }

  lemma NamesSpelledOut(name: string)
    ensures Restorable(name) <==> DataName(name)
    ensures EntryName(name) <==> name == "manifest.json" || DataName(name)
  {
  }

  lemma PackedMeans(entries: seq<Entry>, max: Limits)
    ensures WellPacked(entries, max) <==> SoundEntries(entries, max)
  {
    forall i | 0 <= i < |entries| ensures GoodEntry(entries[i], max) <==>
      (entries[i].name == "manifest.json" || DataName(entries[i].name)) && entries[i].regular && |entries[i].data| <= max.file
    {
      NamesSpelledOut(entries[i].name);
    }
    hide GoodEntry, DataName;
  }

  lemma ManifestThere(entries: seq<Entry>, max: Limits, lib: Library, m: Manifest)
    requires SoundEntries(entries, max)
    ensures ManifestOf(Contents(entries), lib) == Some(m) <==>
              m.files.Some? && exists k :: 0 <= k < |entries| && entries[k].name == "manifest.json" && lib.decode(entries[k].data) == Some(m)
  {
    ContentsMeans(entries);
    NamesOf(entries);
    hide Contents, DataName;
    if MANIFEST in Contents(entries) {
      var k :| 0 <= k < |entries| && entries[k].name == MANIFEST;
      assert Contents(entries)[MANIFEST] == entries[k].data;
    }
  }

  lemma ConsistentMeans(entries: seq<Entry>, max: Limits, declared: map<string, FileInfo>, lib: Library)
    requires SoundEntries(entries, max)
    ensures Consistent(Contents(entries), declared, lib) <==>
              (forall name :: name in declared ==> DataName(name)) && (forall i :: 0 <= i < |entries| ==> AsDeclared(entries[i], declared, lib))
  {
    ContentsMeans(entries);
    NamesOf(entries);
    var files := Contents(entries);
    hide Contents, SameHash, EqualFold;
    forall name | name in declared ensures GoodDeclaration(name, files, declared, lib) <==>
      DataName(name) && (name in files ==> |files[name]| == declared[name].size && SameHash(lib.digest(files[name]), declared[name].sha))
    {
      NamesSpelledOut(name);
      if name in files {
        FoldingMeans(lib.digest(files[name]), declared[name].sha);
      }
    }
    hide GoodDeclaration, DataName;
    if Consistent(files, declared, lib) {
      forall i | 0 <= i < |entries| ensures AsDeclared(entries[i], declared, lib) {
        assert entries[i].name in files;
      }
    }
    if (forall name :: name in declared ==> DataName(name)) && (forall i :: 0 <= i < |entries| ==> AsDeclared(entries[i], declared, lib)) {
      forall name | name in declared && name in files
        ensures |files[name]| == declared[name].size && SameHash(lib.digest(files[name]), declared[name].sha)
      {
        var i :| 0 <= i < |entries| && entries[i].name == name;
        assert AsDeclared(entries[i], declared, lib);
      }
      if HOSTS in files {
        var i :| 0 <= i < |entries| && entries[i].name == HOSTS;
        assert AsDeclared(entries[i], declared, lib);
      }
    }
  }

  /** An archive is accepted exactly if it reads to the end, its entries are sound and its manifest describes
      them; the verdict then holds that manifest and those files. */
  lemma AcceptedExactlyWhen(v: Verdict, entries: seq<Entry>, intact: bool, max: Limits, lib: Library)
    requires Deserved(v, entries, intact, max, true, lib)
    ensures v.Accepted? <==> intact && SoundEntries(entries, max) && exists m :: Describes(m, entries, lib)
    ensures v.Accepted? ==> Describes(v.manifest, entries, lib)
    ensures v.Accepted? ==> forall i :: 0 <= i < |entries| ==> entries[i].name in v.files && v.files[entries[i].name] == entries[i].data
    ensures v.Accepted? ==> (v.compatible <==> v.manifest.format == "simplelinuxupdater-backup" && v.manifest.version == 1)
  {
    PackedMeans(entries, max);
    if SoundEntries(entries, max) {
      var m := ManifestOf(Contents(entries), lib);
      if m.Some? {
        ManifestThere(entries, max, lib, m.value);
        ConsistentMeans(entries, max, m.value.files.value, lib);
      }
      if x :| Describes(x, entries, lib) {
        ManifestThere(entries, max, lib, x);
        assert Acceptable(entries, intact, max, lib) <==> intact;
      }
      if m.Some? && Consistent(Contents(entries), m.value.files.value, lib) {
        assert Describes(m.value, entries, lib);
      }
      ContentsMeans(entries);
    }
    hide WellPacked, SoundEntries, Consistent, Contents, ManifestOf, AsDeclared, DataName, Ascending, Elements, Absent, Unfulfilled;
  }

  /** What an accepted archive lacks: a required file that is not there or not declared, or a declared one
      that is not there. */
  lemma MissingExactlyWhen(v: Verdict, entries: seq<Entry>, intact: bool, max: Limits, lib: Library, name: string)
    requires Deserved(v, entries, intact, max, true, lib) && v.Accepted?
    ensures var there := exists i :: 0 <= i < |entries| && entries[i].name == name;
            name in v.missing <==>
              || ((name == "servers.db" || name == "config.json") && (!there || name !in v.manifest.files.value))
              || (name in v.manifest.files.value && !there)
  {
    NamesOf(entries);
    hide WellPacked, Consistent, Contents, Ascending;
    assert name in v.missing <==> name in Elements(v.missing);
  }

  /** The difference is there: an archive of a manifest alone, over 1 MiB and declaring no files, is
      accepted in memory and rejected by the extracting inspector. */
  lemma LargeManifestDiffers(memory: Verdict, files: Verdict, data: Bytes, max: Limits, lib: Library)
    requires MAX_MANIFEST_BYTES < |data| <= max.file && |data| <= max.total
    requires lib.decode(data).Some? && lib.decode(data).value.files == Some(map[])
    requires Deserved(memory, [Entry(MANIFEST, true, data)], true, max, true, lib)
    requires Deserved(files, [Entry(MANIFEST, true, data)], true, max, SmallManifest([Entry(MANIFEST, true, data)]), lib)
    ensures memory.Accepted? && files.Rejected?
  {
    hide WellPacked, Ascending, Elements, Absent, Unfulfilled, Contents;
    NamesApart();
    ManifestAlone(Entry(MANIFEST, true, data), max);
  }

  // ----- the builder

  /** A source file as it was when hashed and as it was when archived. */
  datatype Source = Source(hashed: Bytes, archived: Bytes)

  function Infos(sources: map<string, Source>, lib: Library): map<string, FileInfo> {
    map name | name in sources :: FileInfo(|sources[name].hashed|, lib.digest(sources[name].hashed))
  }

  function ManifestFor(sources: map<string, Source>, at: string, lib: Library): Manifest {
    Manifest(FORMAT_NAME, FORMAT_VERSION, at, Some(Infos(sources, lib)))
  }

  function SizeIf(present: bool, name: string, sources: map<string, Source>): nat
    requires present ==> name in sources
  {
    if present then |sources[name].hashed| else 0
  }

  /** The bytes to archive among the names visited. */
  function SizeOf(names: set<string>, sources: map<string, Source>): nat
    requires names <= sources.Keys
  {
    SizeIf(DATABASE in names, DATABASE, sources) + SizeIf(CONFIG in names, CONFIG, sources)
    + SizeIf(HOSTS in names, HOSTS, sources)
  }

  predicate AllRestorable(names: set<string>) {
    forall name | name in names :: Restorable(name)
  }

  lemma OneMoreSource(names: set<string>, name: string, sources: map<string, Source>)
    requires names <= sources.Keys && name in sources && name !in names && Restorable(name)
    ensures SizeOf(names + {name}, sources) == SizeOf(names, sources) + |sources[name].hashed|
  {
  }

  lemma FewerBytes(names: set<string>, sources: map<string, Source>)
    requires names <= sources.Keys
    ensures SizeOf(names, sources) <= SizeOf(sources.Keys, sources)
  {
  }

  /** Hashes the sources in any order. */
  method HashSources(sources: map<string, Source>, lib: Library) returns (ok: bool, infos: map<string, FileInfo>, total: nat)
    ensures ok == (AllRestorable(sources.Keys) && SizeOf(sources.Keys, sources) <= MAX_EXTRACTED_BYTES)
    ensures ok ==> infos == Infos(sources, lib) && total == SizeOf(sources.Keys, sources)
  {
    hide SizeOf;
    infos, total := map[], 0;
    var names := sources.Keys;
    NoBytes(sources);
    while names != {}
      invariant names <= sources.Keys && AllRestorable(sources.Keys - names)
      invariant infos.Keys == sources.Keys - names && (forall n | n in infos :: infos[n] == Infos(sources, lib)[n])
      invariant total == SizeOf(sources.Keys - names, sources) <= MAX_EXTRACTED_BYTES
    {
      var name :| name in names;
      ghost var visited := sources.Keys - names;
      names := names - {name};
      assert sources.Keys - names == visited + {name};
      if !EntryName(name) || name == MANIFEST {
        return false, infos, total;
      }
      OneMoreSource(visited, name, sources);
      FewerBytes(visited + {name}, sources);
      var size := |sources[name].hashed|;
      if size > MAX_EXTRACTED_BYTES || total + size > MAX_EXTRACTED_BYTES {
        return false, infos, total;
      }
      total := total + size;
      infos := infos[name := FileInfo(size, lib.digest(sources[name].hashed))];
    }
    assert sources.Keys - names == sources.Keys;
    ok := true;
  }

  lemma NoBytes(sources: map<string, Source>)
    ensures SizeOf({}, sources) == 0 && sources.Keys - sources.Keys == {}
  {
  }

  /** The copy into the archive saw what the hashing saw. */
  predicate Unchanged(src: Source, lib: Library) {
    |src.archived| == |src.hashed| && (lib.digest(src.hashed) == "" || EqualFold(lib.digest(src.hashed), lib.digest(src.archived)))
  }

  function Part(name: string, sources: map<string, Source>): seq<Entry> {
    if name in sources then [Entry(name, true, sources[name].archived)] else []
  }

  function EntriesFor(sources: map<string, Source>, at: string, lib: Library): seq<Entry> {
    [Entry(MANIFEST, true, lib.encode(ManifestFor(sources, at, lib)))]
    + Part(DATABASE, sources) + Part(CONFIG, sources) + Part(HOSTS, sources)
  }

  predicate Buildable(sources: map<string, Source>, at: string, lib: Library) {
    && AllRestorable(sources.Keys)
    && SizeOf(sources.Keys, sources) + |lib.encode(ManifestFor(sources, at, lib))| <= MAX_EXTRACTED_BYTES
    && (forall name | name in sources :: Unchanged(sources[name], lib))
    && lib.packed(EntriesFor(sources, at, lib)) <= MAX_ARCHIVE_BYTES
  }

  /** None when a source is unknown, too large or changed under way, or the result is too large. */
  method BuildArchive(sources: map<string, Source>, at: string, lib: Library) returns (r: Option<seq<Entry>>)
    ensures r == if Buildable(sources, at, lib) then Some(EntriesFor(sources, at, lib)) else None
  {
    hide SizeOf, Unchanged;
    var ok, infos, total := HashSources(sources, lib);
    if !ok {
      return None;
    }
    var manifestData := lib.encode(Manifest(FORMAT_NAME, FORMAT_VERSION, at, Some(infos)));
    if |manifestData| + total > MAX_EXTRACTED_BYTES {
      return None;
    }
    var out := [Entry(MANIFEST, true, manifestData)];
    if DATABASE in sources {
      ok, out := WriteEntry(DATABASE, infos[DATABASE], sources[DATABASE], out, lib);
      if !ok {
        return None;
      }
    }
    if CONFIG in sources {
      ok, out := WriteEntry(CONFIG, infos[CONFIG], sources[CONFIG], out, lib);
      if !ok {
        return None;
      }
    }
    if HOSTS in sources {
      ok, out := WriteEntry(HOSTS, infos[HOSTS], sources[HOSTS], out, lib);
      if !ok {
        return None;
      }
    }
    assert out == EntriesFor(sources, at, lib);
    if lib.packed(out) > MAX_ARCHIVE_BYTES {
      return None;
    }
    r := Some(out);
  }

  method WriteEntry(name: string, info: FileInfo, src: Source, before: seq<Entry>, lib: Library)
    returns (ok: bool, out: seq<Entry>)
    requires info == FileInfo(|src.hashed|, lib.digest(src.hashed))
    ensures ok == Unchanged(src, lib) && out == before + [Entry(name, true, src.archived)]
  {
    out := before + [Entry(name, true, src.archived)];
    ok := |src.archived| == info.size && (info.sha == "" || EqualFold(info.sha, lib.digest(src.archived)));
  }

  /** An archive is built exactly from data files that did not change while they were archived, within the
      limits on the contents and on the result. */
  lemma BuildableExactlyWhen(sources: map<string, Source>, at: string, lib: Library)
    ensures Buildable(sources, at, lib) <==>
              && (forall name :: name in sources ==> DataName(name))
              && SizeOf(sources.Keys, sources) + |lib.encode(ManifestFor(sources, at, lib))| <= 268_435_456
              && (forall name :: name in sources ==> SameFile(sources[name], lib))
              && lib.packed(EntriesFor(sources, at, lib)) <= 269_484_032
  {
    forall name | name in sources
      ensures (Restorable(name) <==> DataName(name)) && (Unchanged(sources[name], lib) <==> SameFile(sources[name], lib))
    {
      NamesSpelledOut(name);
      FoldingMeans(lib.digest(sources[name].hashed), lib.digest(sources[name].archived));
    }
    hide Restorable, DataName, Unchanged, SameFile, SizeOf, EntriesFor, ManifestFor;
  }

  /** As long as before, and with the same hash where there is one. */
  predicate SameFile(src: Source, lib: Library) {
    |src.archived| == |src.hashed| && (lib.digest(src.hashed) == "" || SameHash(lib.digest(src.hashed), lib.digest(src.archived)))
  }

  // ----- every archive built is accepted

  function Delivered(sources: map<string, Source>, at: string, lib: Library): map<string, Bytes> {
    (map name | name in sources :: sources[name].archived)[MANIFEST := lib.encode(ManifestFor(sources, at, lib))]
  }

  lemma PartAppends(entries: seq<Entry>, name: string, sources: map<string, Source>, max: Limits)
    requires WellPacked(entries, max) && entries != [] && name !in Contents(entries) && Restorable(name)
    requires name in sources ==> |sources[name].archived| == |sources[name].hashed|
    requires TotalSize(entries) + SizeIf(name in sources, name, sources) <= max.total <= max.file
    ensures var more := entries + Part(name, sources);
            && WellPacked(more, max) && TotalSize(more) == TotalSize(entries) + SizeIf(name in sources, name, sources)
            && Contents(more) == if name in sources then Contents(entries)[name := sources[name].archived] else Contents(entries)
  {
    var more := entries + Part(name, sources);
    if name in sources {
      assert more[..|entries|] == entries && more[..|entries| + 1] == more;
      OneMoreEntry(more, |entries|, max);
    } else {
      assert more == entries;
    }
  }

  lemma BuiltIsWellPacked(sources: map<string, Source>, at: string, lib: Library)
    requires Buildable(sources, at, lib)
    ensures var e := EntriesFor(sources, at, lib);
            WellPacked(e, Limits(MAX_EXTRACTED_BYTES, MAX_EXTRACTED_BYTES)) && Contents(e) == Delivered(sources, at, lib)
  {
    hide WellPacked, Part, Contents, TotalSize, Infos, SizeIf, SizeOf, EqualFold, ManifestFor, Delivered, Restorable;
    NamesApart();
    DeliveredParts(sources, at, lib);
    var max := Limits(MAX_EXTRACTED_BYTES, MAX_EXTRACTED_BYTES);
    var e0 := [Entry(MANIFEST, true, lib.encode(ManifestFor(sources, at, lib)))];
    ManifestAlone(e0[0], max);
    SizesAdd(sources);
    PartAppends(e0, DATABASE, sources, max);
    var e1 := e0 + Part(DATABASE, sources);
    PartAppends(e1, CONFIG, sources, max);
    var e2 := e1 + Part(CONFIG, sources);
    PartAppends(e2, HOSTS, sources, max);
  }

  lemma NamesApart()
    ensures MANIFEST != DATABASE && MANIFEST != CONFIG && MANIFEST != HOSTS && DATABASE != CONFIG && CONFIG != HOSTS
    ensures DATABASE != HOSTS && Restorable(DATABASE) && Restorable(CONFIG) && Restorable(HOSTS)
  {
    assert CONFIG[0] == 'c' && HOSTS[0] == 'k';
  }

  function With(files: map<string, Bytes>, name: string, sources: map<string, Source>): map<string, Bytes> {
    if name in sources then files[name := sources[name].archived] else files
  }

  lemma PartsOf(m: string, data: Bytes, a: string, b: string, c: string, sources: map<string, Source>)
    requires m != a && m != b && m != c && a != b && b != c && a != c && sources.Keys <= {a, b, c}
    ensures (map name | name in sources :: sources[name].archived)[m := data] ==
            With(With(With(map[m := data], a, sources), b, sources), c, sources)
  {
  }

  lemma OnlyThree(names: set<string>)
    requires AllRestorable(names)
    ensures names <= {DATABASE, CONFIG, HOSTS}
  {
  }

  lemma DeliveredParts(sources: map<string, Source>, at: string, lib: Library)
    requires AllRestorable(sources.Keys)
    ensures Delivered(sources, at, lib) ==
            With(With(With(map[MANIFEST := lib.encode(ManifestFor(sources, at, lib))], DATABASE, sources), CONFIG, sources), HOSTS, sources)
  {
    hide ManifestFor, With, AllRestorable, Restorable;
    NamesApart();
    OnlyThree(sources.Keys);
    PartsOf(MANIFEST, lib.encode(ManifestFor(sources, at, lib)), DATABASE, CONFIG, HOSTS, sources);
  }

  lemma SizesAdd(sources: map<string, Source>)
    ensures SizeOf(sources.Keys, sources) ==
            SizeIf(DATABASE in sources, DATABASE, sources) + SizeIf(CONFIG in sources, CONFIG, sources)
            + SizeIf(HOSTS in sources, HOSTS, sources)
  {
  }

  lemma ManifestAlone(e: Entry, max: Limits)
    requires GoodEntry(e, max) && |e.data| <= max.total
    ensures WellPacked([e], max) && TotalSize([e]) == |e.data| && Contents([e]) == map[e.name := e.data]
  {
    assert [e][..0] == [];
  }

  /** Whatever is built is accepted as compatible by both inspectors, with the archived contents, and
      lacks exactly the required files that were not given. */
  lemma BuiltArchiveIsAccepted(sources: map<string, Source>, at: string, lib: Library, v: Verdict)
    requires Buildable(sources, at, lib)
    requires var m := ManifestFor(sources, at, lib);
             lib.decode(lib.encode(m)) == Some(m) && |lib.encode(m)| <= MAX_MANIFEST_BYTES
    requires forall name | name in sources :: lib.digest(sources[name].hashed) != ""
    requires var e, max := EntriesFor(sources, at, lib), Limits(MAX_EXTRACTED_BYTES, MAX_EXTRACTED_BYTES);
             Deserved(v, e, true, max, true, lib) || Deserved(v, e, true, max, SmallManifest(e), lib)
    ensures v.Accepted? && v.compatible && v.files == Delivered(sources, at, lib)
    ensures v.manifest == ManifestFor(sources, at, lib)
    ensures Elements(v.missing) == {DATABASE, CONFIG} - sources.Keys
    ensures DATABASE in sources && CONFIG in sources ==> v.missing == []
  {
    hide WellPacked, Elements, Ascending, EntriesFor, SizeOf, Infos, Unchanged, Consistent, Unfulfilled, Absent, Contents;
    var e, m := EntriesFor(sources, at, lib), ManifestFor(sources, at, lib);
    BuiltIsWellPacked(sources, at, lib);
    DeliveredIsConsistent(sources, at, lib);
    assert ManifestOf(Contents(e), lib) == Some(m);
    EmptyElements(v.missing);
  }

  lemma DeliveredIsConsistent(sources: map<string, Source>, at: string, lib: Library)
    requires AllRestorable(sources.Keys)
    requires forall name | name in sources :: Unchanged(sources[name], lib) && lib.digest(sources[name].hashed) != ""
    ensures Consistent(Delivered(sources, at, lib), Infos(sources, lib), lib)
    ensures Unfulfilled(Delivered(sources, at, lib), Infos(sources, lib)) == {}
    ensures Absent(Delivered(sources, at, lib), Infos(sources, lib)) == {DATABASE, CONFIG} - sources.Keys
  {
  }
}
