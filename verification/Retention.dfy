/**
  Retention of automated backup archives: which registered files are removed once a newer archive
  has been published, and what is left of the directory and the register.
 */
module Retention {
  import opened Common

  const MAX_UPLOAD_BYTES: int := 360_364_736

  datatype Archive = Archive(name: string, digest: string, owner: string)

  /** A directory entry: what an inspection of the file would find, its hash included. */
  datatype File = File(regular: bool, size: int, digest: string)

  type Directory = map<string, File>

  predicate HasPrefix(s: string, prefix: string) {
    prefix <= s
  }

  /** The registered file is still there, untouched, under a name the owner would have chosen. */
  predicate Intact(files: Directory, a: Archive) {
    && '/' !in a.name && HasPrefix(a.name, "slu-auto-" + a.owner + "-") && HasSuffix(a.name, ".slubkp")
    && a.name in files
    && files[a.name].regular && files[a.name].size <= MAX_UPLOAD_BYTES && files[a.name].digest == a.digest
  }

  predicate Ours(files: Directory, owner: string, a: Archive) {
    a.owner == owner && Intact(files, a)
  }

  /** Progress of the sweep from the newest archive down to some position. */
  datatype Sweep = Sweep(files: Directory, valid: nat, retained: seq<Archive>, failed: bool)

  function SweepOne(w: Sweep, a: Archive, owner: string, keep: nat, removable: string -> bool): Sweep {
    if w.failed || !Ours(w.files, owner, a) then w
    else if w.valid < keep then w.(valid := w.valid + 1, retained := [a] + w.retained)
    else if removable(a.name) then w.(files := w.files - {a.name}, valid := w.valid + 1)
    else w.(failed := true)
  }

  function SweepFrom(files: Directory, archives: seq<Archive>, owner: string, keep: nat,
                     removable: string -> bool, i: nat): Sweep
    requires i <= |archives|
    decreases |archives| - i
  {
    if i == |archives| then Sweep(files, 0, [], false)
    else SweepOne(SweepFrom(files, archives, owner, keep, removable, i + 1), archives[i], owner, keep, removable)
  }

  lemma {:induction false} FailureEndsSweep(files: Directory, archives: seq<Archive>, owner: string, keep: nat,
                                           removable: string -> bool, i: nat)
    requires i <= |archives| && SweepFrom(files, archives, owner, keep, removable, i).failed
    ensures SweepFrom(files, archives, owner, keep, removable, 0) ==
            SweepFrom(files, archives, owner, keep, removable, i)
    decreases i
  {
    if i > 0 {
      FailureEndsSweep(files, archives, owner, keep, removable, i - 1);
    }
  }

  function Reversed(s: seq<Archive>): seq<Archive> {
    if s == [] then [] else [s[|s| - 1]] + Reversed(s[..|s| - 1])
  }

  lemma {:induction false} ReversedAt(s: seq<Archive>)
    ensures |Reversed(s)| == |s| && forall k :: 0 <= k < |s| ==> Reversed(s)[k] == s[|s| - 1 - k]
  {
    if s != [] {
      ReversedAt(s[..|s| - 1]);
    }
  }

  /** Swaps from both ends inwards. */
  method Reverse(s: seq<Archive>) returns (r: seq<Archive>)
    ensures r == Reversed(s)
  {
    hide Reversed;
    r := s;
    var i, j := 0, |r| - 1;
    while i < j
      invariant 0 <= i <= j + 1 && i + j == |s| - 1 && |r| == |s|
      invariant forall k :: 0 <= k < i ==> r[k] == s[|s| - 1 - k]
      invariant forall k :: j < k < |s| ==> r[k] == s[|s| - 1 - k]
      invariant forall k :: i <= k <= j ==> r[k] == s[k]
    {
      r := r[i := r[j]][j := r[i]];
      i, j := i + 1, j - 1;
    }
    ReversedAt(s);
  }

  class Register {
    var files: Directory
    var archives: seq<Archive>

    /** One retention pass, newest archive first. `identified` is false when the local identity
        cannot be read; `removable` says which removals the file system allows. */
    method Retain(owner: string, identified: bool, retain: int, removable: string -> bool) returns (ok: bool)
      modifies this
      ensures !identified ==> !ok && files == old(files) && archives == old(archives)
      ensures identified ==>
        var w := SweepFrom(old(files), old(archives), owner, if retain < 1 then 1 else retain, removable, 0);
        ok == !w.failed && files == w.files && archives == if ok then w.retained else old(archives)
    {
      hide Intact;
      if !identified {
        return false;
      }
      var keep := if retain < 1 then 1 else retain;
      var valid := 0;
      var retained: seq<Archive> := [];
      var i := |archives|;
      while i > 0
        invariant 0 <= i <= |archives| && archives == old(archives)
        invariant SweepFrom(old(files), archives, owner, keep, removable, i) ==
                  Sweep(files, valid, Reversed(retained), false)
      {
        i := i - 1;
        var archive := archives[i];
        if archive.owner != owner || !Intact(files, archive) {
          continue;
        }
        valid := valid + 1;
        if valid > keep {
          if !removable(archive.name) {
            FailureEndsSweep(old(files), archives, owner, keep, removable, i);
            return false;
          }
          files := files - {archive.name};
        } else {
          assert (retained + [archive])[..|retained|] == retained;
          retained := retained + [archive];
        }
      }
      archives := Reverse(retained);
      return true;
    }
  }

  // ----- what a pass leaves behind

  ghost predicate DistinctNames(archives: seq<Archive>) {
    forall i, j :: 0 <= i < j < |archives| ==> archives[i].name != archives[j].name
  }

  /** How many of our archives are at position `i` or newer. */
  function Rank(files: Directory, archives: seq<Archive>, owner: string, i: nat): nat
    requires i <= |archives|
    decreases |archives| - i
  {
    if i == |archives| then 0
    else Rank(files, archives, owner, i + 1) + if Ours(files, owner, archives[i]) then 1 else 0
  }

  predicate Survives(files: Directory, archives: seq<Archive>, owner: string, keep: nat, i: nat)
    requires i < |archives|
  {
    Ours(files, owner, archives[i]) && Rank(files, archives, owner, i) <= keep
  }

  predicate Doomed(files: Directory, archives: seq<Archive>, owner: string, keep: nat, i: nat)
    requires i < |archives|
  {
    Ours(files, owner, archives[i]) && Rank(files, archives, owner, i) > keep
  }

  /** The newest `keep` of our archives from position `i` on, in their original order. */
  function Survivors(files: Directory, archives: seq<Archive>, owner: string, keep: nat, i: nat): seq<Archive>
    requires i <= |archives|
    decreases |archives| - i
  {
    if i == |archives| then []
    else (if Survives(files, archives, owner, keep, i) then [archives[i]] else [])
         + Survivors(files, archives, owner, keep, i + 1)
  }

  /** `after` is the directory without some doomed archives' files: all of them if `complete`. */
  ghost predicate RemovedOnlyDoomed(before: Directory, after: Directory, archives: seq<Archive>, owner: string,
                                    keep: nat, from: nat, complete: bool) {
    && after.Keys <= before.Keys
    && (forall name :: name in after ==> after[name] == before[name])
    && (forall name :: name in before && name !in after ==>
          exists i :: from <= i < |archives| && archives[i].name == name && Doomed(before, archives, owner, keep, i))
    && (complete ==> forall i :: from <= i < |archives| && Doomed(before, archives, owner, keep, i) ==>
          archives[i].name !in after)
  }

  /** Adding one more doomed name to the removed ones. */
  lemma RemoveOneMore(files: Directory, w: Directory, archives: seq<Archive>, owner: string, keep: nat, i: nat)
    requires i < |archives| && RemovedOnlyDoomed(files, w, archives, owner, keep, i + 1, true)
    ensures Doomed(files, archives, owner, keep, i) ==>
              RemovedOnlyDoomed(files, w - {archives[i].name}, archives, owner, keep, i, true)
    ensures !Doomed(files, archives, owner, keep, i) || archives[i].name !in w ==>
              RemovedOnlyDoomed(files, w, archives, owner, keep, i, true)
    ensures RemovedOnlyDoomed(files, w, archives, owner, keep, i, false)
  {
    hide Ours;
  }

  /** What is still in the directory was never touched. */
  lemma SameEntry(files: Directory, w: Directory, archives: seq<Archive>, owner: string, keep: nat, i: nat)
    requires i < |archives| && RemovedOnlyDoomed(files, w, archives, owner, keep, i + 1, true)
    ensures Ours(w, owner, archives[i]) <==> Ours(files, owner, archives[i]) && archives[i].name in w
  {
  }

  /** Position by position, for any register: only doomed files are removed, the survivors are kept
      in order, and nothing is removed until `keep` archives have been kept. */
  lemma {:induction false} SweepMeaning(files: Directory, archives: seq<Archive>, owner: string, keep: nat,
                                       removable: string -> bool, i: nat)
    requires i <= |archives|
    ensures var w := SweepFrom(files, archives, owner, keep, removable, i);
            var rank := Rank(files, archives, owner, i);
            && RemovedOnlyDoomed(files, w.files, archives, owner, keep, i, !w.failed)
            && (!w.failed ==> w.retained == Survivors(files, archives, owner, keep, i))
            && (!w.failed ==> if rank <= keep then w.valid == rank && w.files == files else w.valid > keep)
    decreases |archives| - i
  {
    if i < |archives| {
      SweepMeaning(files, archives, owner, keep, removable, i + 1);
      var w := SweepFrom(files, archives, owner, keep, removable, i + 1);
      RankGrows(files, archives, owner, i);
      if !w.failed {
        SameEntry(files, w.files, archives, owner, keep, i);
        RemoveOneMore(files, w.files, archives, owner, keep, i);
        if Ours(files, owner, archives[i]) {
          OursIsThere(files, owner, archives[i]);
        }
        hide RemovedOnlyDoomed, Ours;
      }
    }
  }

  lemma OursIsThere(files: Directory, owner: string, a: Archive)
    requires Ours(files, owner, a)
    ensures a.name in files
  {
  }

  lemma RankGrows(files: Directory, archives: seq<Archive>, owner: string, i: nat)
    requires i < |archives|
    ensures Rank(files, archives, owner, i + 1) <= Rank(files, archives, owner, i)
  {
  }

  lemma {:induction false} SurvivorCount(files: Directory, archives: seq<Archive>, owner: string, keep: nat, i: nat)
    requires i <= |archives|
    ensures |Survivors(files, archives, owner, keep, i)| ==
            if Rank(files, archives, owner, i) < keep then Rank(files, archives, owner, i) else keep
    decreases |archives| - i
  {
    hide Ours;
    if i < |archives| {
      SurvivorCount(files, archives, owner, keep, i + 1);
    }
  }

  /** Retention is safe, whatever is registered: a complete pass removes exactly the files of our
      intact archives older than the newest `keep` and leaves the others registered in their original
      order; a pass that fails part-way has removed only some of those files. Foreign, altered and
      unregistered files are never touched, and the newest of our archives is always kept. */
  lemma RetentionIsSafe(files: Directory, archives: seq<Archive>, owner: string, keep: nat, removable: string -> bool)
    requires keep >= 1
    ensures var w := SweepFrom(files, archives, owner, keep, removable, 0);
            var kept := Survivors(files, archives, owner, keep, 0);
            var ours := Rank(files, archives, owner, 0);
            && RemovedOnlyDoomed(files, w.files, archives, owner, keep, 0, !w.failed)
            && (!w.failed ==> w.retained == kept)
            && |kept| == (if ours < keep then ours else keep)
            && (forall name :: name in files && (forall a :: a in archives && a.name == name ==> !Ours(files, owner, a)) ==>
                  name in w.files)
    ensures archives != [] && Ours(files, owner, archives[|archives| - 1]) ==>
              Survives(files, archives, owner, keep, |archives| - 1)
  {
    SweepMeaning(files, archives, owner, keep, removable, 0);
    SurvivorCount(files, archives, owner, keep, 0);
    if archives != [] {
      assert Rank(files, archives, owner, |archives|) == 0;
    }
  }

  /** A survivor shares its name with a doomed entry. */
  ghost predicate SharesName(files: Directory, archives: seq<Archive>, owner: string, keep: nat, j: nat)
    requires j < |archives|
  {
    exists i :: 0 <= i < |archives| && archives[i].name == archives[j].name && Doomed(files, archives, owner, keep, i)
  }

  /** A complete pass loses the file of an archive it keeps registered exactly when a doomed entry has
      the same name; a failed pass can lose it only then. */
  lemma SurvivorLostExactlyWhen(files: Directory, archives: seq<Archive>, owner: string, keep: nat,
                                removable: string -> bool, j: nat)
    requires j < |archives| && Survives(files, archives, owner, keep, j)
    ensures var w := SweepFrom(files, archives, owner, keep, removable, 0);
            && (!w.failed ==> (archives[j].name !in w.files <==> SharesName(files, archives, owner, keep, j)))
            && (archives[j].name !in w.files ==> SharesName(files, archives, owner, keep, j))
  {
    SweepMeaning(files, archives, owner, keep, removable, 0);
    OursIsThere(files, owner, archives[j]);
    hide SweepFrom, Ours, Rank;
  }

  /** With distinct names no survivor is ever lost. */
  lemma DistinctNamesKeepSurvivors(files: Directory, archives: seq<Archive>, owner: string, keep: nat,
                                   removable: string -> bool, j: nat)
    requires DistinctNames(archives) && j < |archives| && Survives(files, archives, owner, keep, j)
    ensures archives[j].name in SweepFrom(files, archives, owner, keep, removable, 0).files
  {
    SurvivorLostExactlyWhen(files, archives, owner, keep, removable, j);
    hide SweepFrom;
  }

  /** The program keeps names distinct: it registers only names it has just drawn at random, and a
      pass only drops entries. */
  lemma {:induction false} SurvivorsAmong(files: Directory, archives: seq<Archive>, owner: string, keep: nat, i: nat)
    requires i <= |archives| && DistinctNames(archives)
    ensures var kept := Survivors(files, archives, owner, keep, i);
            && DistinctNames(kept)
            && forall k :: 0 <= k < |kept| ==> exists m :: i <= m < |archives| && archives[m] == kept[k]
    decreases |archives| - i
  {
    hide Survives;
    if i < |archives| {
      SurvivorsAmong(files, archives, owner, keep, i + 1);
    }
  }

  lemma RegisterStaysDistinct(files: Directory, archives: seq<Archive>, owner: string, keep: nat,
                              removable: string -> bool, published: Archive)
    requires DistinctNames(archives) && forall a :: a in archives ==> a.name != published.name
    ensures var w := SweepFrom(files, archives + [published], owner, keep, removable, 0);
            DistinctNames(archives + [published]) && (!w.failed ==> DistinctNames(w.retained))
  {
    SweepMeaning(files, archives + [published], owner, keep, removable, 0);
    SurvivorsAmong(files, archives + [published], owner, keep, 0);
    hide SweepFrom, Survivors, RemovedOnlyDoomed;
  }

  /** For instance, registering one file twice lets a pass remove a file it also keeps. */
  lemma RepeatedNameLosesSurvivor()
    ensures var name := "slu-auto-o-1.slubkp";
            var a := Archive(name, "d", "o");
            var w := SweepFrom(map[name := File(true, 1, "d")], [a, a], "o", 1, n => true, 0);
            !w.failed && w.retained == [a] && name !in w.files
  {
    var name := "slu-auto-o-1.slubkp";
    var a := Archive(name, "d", "o");
    var files := map[name := File(true, 1, "d")];
    assert "slu-auto-" + a.owner + "-" == "slu-auto-o-";
    assert name[..11] == "slu-auto-o-" && name[12..] == ".slubkp";
    assert Ours(files, "o", a);
    var archives := [a, a];
    var any := (n: string) => true;
    assert SweepFrom(files, archives, "o", 1, any, 2) == Sweep(files, 0, [], false);
    assert SweepFrom(files, archives, "o", 1, any, 1) == Sweep(files, 1, [a], false);
    assert SweepFrom(files, archives, "o", 1, any, 0) == Sweep(files - {name}, 2, [a], false);
  }
}
