/**
  Restoring a backup as a transaction that can fail, or be cut off, at any step.

  The live files are a map. Every file operation and every call into the runtime asks an oracle
  how it turns out, by its number; a failed file operation may or may not have taken effect. `exposed` collects
  the disk after each primitive operation, which is what a crash at that point would leave.
 */
module Restore {
  import opened Common

  /** The files a restore may replace; their paths are taken to be distinct. */
  datatype Target = DbFile | WalFile | ShmFile | HostsFile

  /** `marker` says whether the database records an active or interrupted restore. */
  datatype Content = Database(rows: string, marker: bool) | Blob(bytes: string)

  type Disk = map<Target, Content>

  datatype FileFault = Fine | Refused | DoneButReported

  /** `typed` marks an error that is already an incomplete-recovery error. */
  datatype RuntimeFault = Accepts | Rejects(typed: bool)

  datatype Error = Ordinary | Incomplete

  datatype Result = Done | Failed(error: Error)

  datatype Snapshot = Snapshot(target: Target, saved: Option<Content>)

  /** An archive whose configuration and database passed validation and re-encryption. */
  datatype Archive = Archive(rows: string, hosts: Option<Content>)

  function At(d: Disk, t: Target): Option<Content> {
    if t in d then Some(d[t]) else None
  }

  predicate Marked(c: Content) {
    c.Database? && c.marker
  }

  predicate HasMarker(d: Disk) {
    DbFile in d && Marked(d[DbFile])
  }

  function TargetsOf(archive: Archive): seq<Target> {
    [DbFile, WalFile, ShmFile] + if archive.hosts.Some? then [HostsFile] else []
  }

  /** What the maintenance hand-off does to the live database. */
  function MarkDisk(d: Disk): Disk {
    d[DbFile := if DbFile in d && d[DbFile].Database? then d[DbFile].(marker := true) else Database("", true)]
  }

  ghost predicate Matches(d: Disk, snapshots: seq<Snapshot>) {
    forall i :: 0 <= i < |snapshots| ==> At(d, snapshots[i].target) == snapshots[i].saved
  }

  ghost predicate DistinctTargets(snapshots: seq<Snapshot>) {
    forall i, j :: 0 <= i < j < |snapshots| ==> snapshots[i].target != snapshots[j].target
  }

  /** A snapshot of the database, if there is one, carries the marker. */
  ghost predicate DatabaseMarked(snapshots: seq<Snapshot>) {
    forall i :: 0 <= i < |snapshots| && snapshots[i].target == DbFile ==>
      snapshots[i].saved.Some? && Marked(snapshots[i].saved.value)
  }

  /** On every file a restore replaces, `d` is what it was when the writers had drained: the database,
      both its sidecars, and known_hosts if the archive has one. */
  ghost predicate Reverted(d: Disk, before: Disk, archive: Archive) {
    && At(d, DbFile) == At(before, DbFile) && At(d, WalFile) == At(before, WalFile) && At(d, ShmFile) == At(before, ShmFile)
    && (archive.hosts.Some? ==> At(d, HostsFile) == At(before, HostsFile))
  }

  /** The snapshots hold each of those files as it was, or that it was not there. */
  ghost predicate Recoverable(snapshots: seq<Snapshot>, before: Disk, archive: Archive) {
    && Snapshot(DbFile, At(before, DbFile)) in snapshots && Snapshot(WalFile, At(before, WalFile)) in snapshots
    && Snapshot(ShmFile, At(before, ShmFile)) in snapshots
    && (archive.hosts.Some? ==> Snapshot(HostsFile, At(before, HostsFile)) in snapshots)
  }

  ghost predicate SnapshotsOf(d: Disk, targets: seq<Target>, snapshots: seq<Snapshot>) {
    && |snapshots| == |targets|
    && forall i :: 0 <= i < |targets| ==> snapshots[i] == Snapshot(targets[i], At(d, targets[i]))
  }

  /** The replaced files, as the restored runtime first sees them. */
  ghost predicate Replaced(d: Disk, before: Disk, archive: Archive, callbacks: bool) {
    && At(d, DbFile) == Some(Database(archive.rows, callbacks))
    && WalFile !in d && ShmFile !in d
    && At(d, HostsFile) == if archive.hosts.Some? then archive.hosts else At(before, HostsFile)
  }

  class Restorer {
    var disk: Disk
    /** The rollback directory, while it exists. */
    var rollbackDir: Option<seq<Snapshot>>
    /** How many file operations and calls into the runtime there have been. */
    var fileClock: nat
    var runtimeClock: nat
    const fileFault: nat -> FileFault
    const runtimeFault: nat -> RuntimeFault
    /** What the runtime itself does to the disk while it opens or closes persistence. */
    const runtimeWrites: (nat, Disk) -> Disk

    ghost var exposed: seq<Disk>
    /** The disk once writers had drained, before any replacement. */
    ghost var quiesced: Option<Disk>
    /** The disk when persistence was last given back to the runtime. */
    ghost var reopened: Option<Disk>
    ghost var replacing: bool

    ghost predicate RuntimeKeepsMarker() {
      forall n, d :: HasMarker(d) ==> HasMarker(runtimeWrites(n, d))
    }

    /** The file operations numbered from `lo` up to `hi` succeed. */
    ghost predicate FilesFine(lo: nat, hi: nat) {
      forall k :: lo <= k < hi ==> fileFault(k).Fine?
    }

    /** The runtime accepts the calls numbered from `lo` up to `hi`. */
    ghost predicate RuntimeAccepts(lo: nat, hi: nat) {
      forall k :: lo <= k < hi ==> runtimeFault(k).Accepts?
    }

    /** How reopening turns out if its calls start at number `c`: the hand-off, if configured, comes
        first. */
    ghost function ReopenFault(c: nat, callbacks: bool): RuntimeFault {
      if callbacks && runtimeFault(c).Accepts? then runtimeFault(c + 1) else runtimeFault(c)
    }

    ghost function AfterReopen(c: nat, callbacks: bool): nat {
      if callbacks && runtimeFault(c).Accepts? then c + 2 else c + 1
    }

    /** A crash now, or at any earlier point of the run, leaves the restore marker in place. */
    ghost predicate Guarded()
      reads this
    {
      HasMarker(disk) && forall i :: 0 <= i < |exposed| ==> HasMarker(exposed[i])
    }

    constructor (disk: Disk, fileFault: nat -> FileFault, runtimeFault: nat -> RuntimeFault,
                 runtimeWrites: (nat, Disk) -> Disk)
      ensures this.disk == disk && rollbackDir.None? && exposed == [] && quiesced.None? && reopened.None? && !replacing && fileClock == 0 && runtimeClock == 0
      ensures this.fileFault == fileFault && this.runtimeFault == runtimeFault && this.runtimeWrites == runtimeWrites
    {
      this.disk, rollbackDir, fileClock, runtimeClock := disk, None, 0, 0;
      this.fileFault, this.runtimeFault, this.runtimeWrites := fileFault, runtimeFault, runtimeWrites;
      exposed, quiesced, reopened, replacing := [], None, None, false;
    }

    /** Replaces a file by renaming a private copy over it. */
    method WriteFile(t: Target, c: Content) returns (ok: bool)
      modifies this`disk, this`fileClock, this`exposed
      ensures ok ==> disk == old(disk)[t := c]
      ensures !ok ==> disk == old(disk) || disk == old(disk)[t := c]
      ensures old(Guarded()) && (t == DbFile ==> Marked(c)) ==> Guarded()
      ensures fileClock == old(fileClock) + 1 && (ok <==> FilesFine(old(fileClock), fileClock))
    {
      var fault := fileFault(fileClock);
      fileClock := fileClock + 1;
      if !fault.Refused? {
        disk := disk[t := c];
      }
      exposed := exposed + [disk];
      ok := fault.Fine?;
    }

    /** Removes a file; a missing one is no error. */
    method RemoveFile(t: Target) returns (ok: bool)
      modifies this`disk, this`fileClock, this`exposed
      ensures ok ==> disk == old(disk) - {t}
      ensures !ok ==> disk == old(disk) || disk == old(disk) - {t}
      ensures old(Guarded()) && t != DbFile ==> Guarded()
      ensures old(fileClock) <= fileClock && (ok <==> FilesFine(old(fileClock), fileClock))
    {
      if t !in disk {
        return true;
      }
      var fault := fileFault(fileClock);
      fileClock := fileClock + 1;
      if !fault.Refused? {
        disk := disk - {t};
      }
      exposed := exposed + [disk];
      ok := fault.Fine?;
    }

    method RemoveSidecars() returns (ok: bool)
      modifies this`disk, this`fileClock, this`exposed
      ensures At(disk, DbFile) == old(At(disk, DbFile)) && At(disk, HostsFile) == old(At(disk, HostsFile))
      ensures ok ==> WalFile !in disk && ShmFile !in disk
      ensures old(Guarded()) ==> Guarded()
      ensures old(fileClock) <= fileClock && (ok <==> FilesFine(old(fileClock), fileClock))
    {
      ok := RemoveFile(WalFile);
      if ok {
        ok := RemoveFile(ShmFile);
      }
    }

    /** A call into the runtime that closes or reopens persistence and may touch the disk. */
    method CallRuntime() returns (fault: RuntimeFault)
      modifies this`disk, this`runtimeClock, this`exposed
      ensures old(Guarded()) && RuntimeKeepsMarker() ==> Guarded()
      ensures fault == runtimeFault(old(runtimeClock)) && runtimeClock == old(runtimeClock) + 1
      ensures disk == runtimeWrites(old(runtimeClock), old(disk))
    {
      fault := runtimeFault(runtimeClock);
      disk := runtimeWrites(runtimeClock, disk);
      runtimeClock := runtimeClock + 1;
      exposed := exposed + [disk];
    }

    /** Writes the active restore back into the live database. */
    method Handoff() returns (fault: RuntimeFault)
      modifies this`disk, this`runtimeClock, this`exposed, this`reopened
      ensures fault.Accepts? ==> disk == MarkDisk(old(disk))
      ensures fault.Rejects? ==> disk == old(disk)
      ensures reopened == Some(old(disk))
      ensures old(Guarded()) ==> Guarded()
      ensures fault == runtimeFault(old(runtimeClock)) && runtimeClock == old(runtimeClock) + 1
    {
      fault := runtimeFault(runtimeClock);
      reopened := Some(disk);
      runtimeClock := runtimeClock + 1;
      if fault.Accepts? {
        disk := MarkDisk(disk);
      }
      exposed := exposed + [disk];
    }

    /** Gives persistence back to the runtime: the hand-off, if configured, then the reload. */
    method Reopen(callbacks: bool) returns (fault: RuntimeFault)
      modifies this`disk, this`runtimeClock, this`exposed, this`reopened
      ensures reopened == Some(old(disk))
      ensures old(Guarded()) && RuntimeKeepsMarker() ==> Guarded()
      ensures fault == ReopenFault(old(runtimeClock), callbacks) && runtimeClock == AfterReopen(old(runtimeClock), callbacks)
      ensures old(runtimeClock) < runtimeClock
    {
      reopened := Some(disk);
      if callbacks {
        fault := Handoff();
        if fault.Rejects? {
          return;
        }
      }
      fault := CallRuntime();
    }

    method TakeSnapshots(targets: seq<Target>) returns (ok: bool, snapshots: seq<Snapshot>)
      modifies this`fileClock, this`exposed
      ensures ok ==> SnapshotsOf(disk, targets, snapshots)
      ensures old(Guarded()) ==> Guarded()
      ensures old(fileClock) <= fileClock && (ok <==> FilesFine(old(fileClock), fileClock))
    {
      ok, snapshots := true, [];
      var i := 0;
      while i < |targets|
        invariant 0 <= i <= |targets| && ok
        invariant SnapshotsOf(disk, targets[..i], snapshots) && old(fileClock) <= fileClock && FilesFine(old(fileClock), fileClock)
        invariant old(Guarded()) ==> Guarded()
      {
        var fault := fileFault(fileClock);
        fileClock := fileClock + 1;
        exposed := exposed + [disk];
        if !fault.Fine? {
          return false, [];
        }
        snapshots := snapshots + [Snapshot(targets[i], At(disk, targets[i]))];
        i := i + 1;
      }
    }

    /** Writes the recovery manifest beside the snapshots. */
    method WriteManifest() returns (ok: bool)
      modifies this`fileClock
      ensures fileClock == old(fileClock) + 1 && (ok <==> FilesFine(old(fileClock), fileClock))
    {
      ok := fileFault(fileClock).Fine?;
      fileClock := fileClock + 1;
    }

    /** Puts every snapshot back, going on past failures. */
    method RestoreSnapshots(snapshots: seq<Snapshot>) returns (ok: bool)
      requires DistinctTargets(snapshots)
      modifies this`disk, this`fileClock, this`exposed
      ensures ok ==> Matches(disk, snapshots)
      ensures forall t :: (forall i :: 0 <= i < |snapshots| ==> snapshots[i].target != t) ==> At(disk, t) == At(old(disk), t)
      ensures old(Guarded()) && DatabaseMarked(snapshots) ==> Guarded()
      ensures old(fileClock) <= fileClock && (ok <==> FilesFine(old(fileClock), fileClock))
    {
      ok := true;
      var i := 0;
      while i < |snapshots|
        invariant 0 <= i <= |snapshots|
        invariant ok ==> Matches(disk, snapshots[..i])
        invariant old(fileClock) <= fileClock && (ok <==> FilesFine(old(fileClock), fileClock))
        invariant forall t :: (forall k :: 0 <= k < i ==> snapshots[k].target != t) ==> At(disk, t) == At(old(disk), t)
        invariant old(Guarded()) && DatabaseMarked(snapshots) ==> Guarded()
      {
        var done: bool;
        if snapshots[i].saved.Some? {
          done := WriteFile(snapshots[i].target, snapshots[i].saved.value);
        } else {
          done := RemoveFile(snapshots[i].target);
        }
        ok := ok && done;
        i := i + 1;
      }
      assert snapshots[..i] == snapshots;
    }

    /** Undoes a replacement. Anything that goes wrong here leaves recovery to the operator, with
        the rollback directory kept. */
    method Rollback(cause: Error, archive: Archive, snapshots: seq<Snapshot>, callbacks: bool) returns (error: Error)
      requires quiesced.Some? && SnapshotsOf(quiesced.value, TargetsOf(archive), snapshots)
      requires rollbackDir == Some(snapshots)
      modifies this`disk, this`fileClock, this`runtimeClock, this`exposed, this`reopened, this`rollbackDir
      ensures rollbackDir.None? ==> error == cause && reopened.Some? && Reverted(reopened.value, quiesced.value, archive)
      ensures rollbackDir.Some? ==> error == Incomplete && rollbackDir == Some(snapshots)
      ensures old(Guarded()) && RuntimeKeepsMarker() && HasMarker(quiesced.value) ==> Guarded()
      ensures old(fileClock) <= fileClock && old(runtimeClock) < runtimeClock
      ensures rollbackDir.None? <==> FilesFine(old(fileClock), fileClock) && RuntimeAccepts(old(runtimeClock), runtimeClock)
    {
      var fault := CallRuntime();
      if fault.Rejects? {
        return Incomplete;
      }
      SnapshotFacts(quiesced.value, archive, snapshots);
      var ok := RestoreSnapshots(snapshots);
      if !ok {
        return Incomplete;
      }
      fault := Reopen(callbacks);
      if fault.Rejects? {
        return Incomplete;
      }
      rollbackDir := None;
      error := cause;
    }

    /** Replaces the live files one by one. */
    method Replace(archive: Archive, callbacks: bool) returns (ok: bool)
      modifies this`disk, this`fileClock, this`exposed
      ensures ok ==> Replaced(disk, old(disk), archive, callbacks)
      ensures old(Guarded()) && callbacks ==> Guarded()
      ensures old(fileClock) <= fileClock && (ok <==> FilesFine(old(fileClock), fileClock))
    {
      ok := RemoveSidecars();
      if !ok {
        return;
      }
      ok := WriteFile(DbFile, Database(archive.rows, callbacks));
      if !ok {
        return;
      }
      ok := RemoveSidecars();
      if ok && archive.hosts.Some? {
        ok := WriteFile(HostsFile, archive.hosts.value);
      }
    }

    /** Replaces the files and reopens, rolling back on any failure. */
    method ReplaceAndReopen(archive: Archive, snapshots: seq<Snapshot>, callbacks: bool) returns (r: Result)
      requires quiesced == Some(disk) && SnapshotsOf(disk, TargetsOf(archive), snapshots)
      modifies this`disk, this`fileClock, this`runtimeClock, this`exposed, this`reopened, this`rollbackDir, this`replacing
      ensures replacing
      ensures r.Done? ==> reopened.Some? && rollbackDir.None? &&
                          Replaced(reopened.value, quiesced.value, archive, callbacks)
      ensures r.Failed? && rollbackDir.None? ==> reopened.Some? && Reverted(reopened.value, quiesced.value, archive)
      ensures rollbackDir.Some? ==> r == Failed(Incomplete) && rollbackDir == Some(snapshots)
      ensures old(Guarded()) && RuntimeKeepsMarker() && callbacks ==> Guarded()
      ensures old(fileClock) <= fileClock && old(runtimeClock) < runtimeClock
      ensures r.Done? <==> FilesFine(old(fileClock), fileClock) && RuntimeAccepts(old(runtimeClock), runtimeClock)
      ensures r == Failed(Incomplete) && rollbackDir.None? <==>
                FilesFine(old(fileClock), fileClock) && TypedThenAccepted(old(runtimeClock), runtimeClock, callbacks)
    {
      hide Replaced, Reverted, SnapshotsOf;
      rollbackDir := Some(snapshots);
      replacing := true;
      var cause := Ordinary;
      var ok := Replace(archive, callbacks);
      if ok {
        var fault := Reopen(callbacks);
        if fault.Accepts? {
          rollbackDir := None;
          return Done;
        }
        cause := if fault.typed then Incomplete else Ordinary;
      }
      var error := Rollback(cause, archive, snapshots, callbacks);
      r := Failed(error);
    }

    /** Takes the snapshots, then replaces; without snapshots the originals are simply reopened. */
    method SnapshotAndReplace(archive: Archive, callbacks: bool) returns (r: Result)
      requires quiesced == Some(disk) && !replacing && rollbackDir.None?
      modifies this`disk, this`fileClock, this`runtimeClock, this`exposed, this`reopened, this`rollbackDir, this`replacing
      ensures r.Done? ==> reopened.Some? && rollbackDir.None? &&
                          Replaced(reopened.value, quiesced.value, archive, callbacks)
      ensures r == Failed(Ordinary) || (r == Failed(Incomplete) && replacing && rollbackDir.None?) ==>
                rollbackDir.None? && reopened.Some? && Reverted(reopened.value, quiesced.value, archive)
      ensures rollbackDir.Some? ==>
                r == Failed(Incomplete) && replacing && Recoverable(rollbackDir.value, quiesced.value, archive)
      ensures old(Guarded()) && RuntimeKeepsMarker() && callbacks ==> Guarded()
      ensures old(fileClock) <= fileClock && old(runtimeClock) < runtimeClock
      ensures r.Done? <==> FilesFine(old(fileClock), fileClock) && RuntimeAccepts(old(runtimeClock), runtimeClock)
      ensures r == Failed(Incomplete) && replacing && rollbackDir.None? <==>
                FilesFine(old(fileClock), fileClock) && TypedThenAccepted(old(runtimeClock), runtimeClock, callbacks)
    {
      hide Replaced, Reverted, Recoverable, SnapshotsOf, HasMarker, ReopenFault, AfterReopen;
      var ok, snapshots := TakeSnapshots(TargetsOf(archive));
      if ok {
        ok := WriteManifest();
      }
      SelfReverted(disk, archive);
      if !ok {
        var fault := Reopen(callbacks);
        return Failed(if fault.Rejects? then Incomplete else Ordinary);
      }
      SnapshotFacts(disk, archive, snapshots);
      r := ReplaceAndReopen(archive, snapshots, callbacks);
    }

    /** Of the calls from `lo` up to `hi`, reopening is rejected with an error that already claims an
        incomplete recovery, and every later one is accepted. */
    ghost predicate TypedThenAccepted(lo: nat, hi: nat, callbacks: bool) {
      ReopenFault(lo, callbacks) == Rejects(true) && RuntimeAccepts(AfterReopen(lo, callbacks), hi)
    }

    /** Applies a validated archive; `archive` is missing when validation, re-encryption or staging
        of the prepared database failed. However the steps turn out, there are three endings:
        the archive is in place; an ordinary error with every target as it was; or an incomplete
        recovery with the full rollback directory kept once replacement had begun. The one
        exception to the last is exact: the directory is gone although recovery is called incomplete
        if and only if no file operation fails, reopening the replaced files is rejected with an
        error that already claims an incomplete recovery, and the rollback is accepted throughout;
        then every target is as it was. */
    method Apply(archive: Option<Archive>, prepares: bool, handsOff: bool, contextAlive: bool) returns (r: Result)
      modifies this
      ensures prepares != handsOff || archive.None? || !contextAlive ==> r == Failed(Ordinary) && disk == old(disk)
      ensures r.Done? ==> archive.Some? && quiesced.Some? && reopened.Some? && rollbackDir.None? &&
                          Replaced(reopened.value, quiesced.value, archive.value, prepares)
      ensures r == Failed(Ordinary) ==> rollbackDir.None?
      ensures r == Failed(Ordinary) && quiesced.Some? ==>
                archive.Some? && reopened.Some? && Reverted(reopened.value, quiesced.value, archive.value)
      ensures r.Failed? && quiesced.None? ==> !replacing && reopened.None?
      ensures quiesced.Some? ==> quiesced.value == runtimeWrites(old(runtimeClock), old(disk))
      ensures replacing ==> archive.Some? && quiesced.Some?
      ensures r == Failed(Incomplete) && replacing && rollbackDir.Some? ==>
                Recoverable(rollbackDir.value, quiesced.value, archive.value)
      ensures r == Failed(Incomplete) && replacing && rollbackDir.None? ==>
                reopened.Some? && Reverted(reopened.value, quiesced.value, archive.value)
      ensures (r == Failed(Incomplete) && replacing && rollbackDir.None?) <==>
                (prepares == handsOff && archive.Some? && contextAlive && runtimeFault(old(runtimeClock)).Accepts? &&
                 FilesFine(old(fileClock), fileClock) && TypedThenAccepted(old(runtimeClock) + 1, runtimeClock, handsOff))
      ensures r.Done? <==>
                (prepares == handsOff && archive.Some? && contextAlive && FilesFine(old(fileClock), fileClock) &&
                 RuntimeAccepts(old(runtimeClock), runtimeClock))
      ensures old(HasMarker(disk)) && RuntimeKeepsMarker() && prepares ==> Guarded()
    {
      hide Replaced, Reverted, Recoverable, TypedThenAccepted, HasMarker;
      exposed, quiesced, reopened, replacing := [], None, None, false;
      rollbackDir := None;
      if prepares != handsOff || archive.None? || !contextAlive {
        return Failed(Ordinary);
      }
      var fault := CallRuntime();
      if fault.Rejects? {
        return Failed(if fault.typed then Incomplete else Ordinary);
      }
      quiesced := Some(disk);
      r := SnapshotAndReplace(archive.value, handsOff);
    }
  }

  /** A run with that ending: only the reload of the replaced files is rejected, and with an error
      that claims an incomplete recovery. */
  method TypedRejection(disk: Disk, archive: Archive) returns (r: Result, restorer: Restorer)
    ensures fresh(restorer) && r == Failed(Incomplete) && restorer.replacing && restorer.rollbackDir.None?
    ensures restorer.quiesced == Some(disk) && restorer.reopened.Some? && Reverted(restorer.reopened.value, disk, archive)
  {
    restorer := new Restorer(disk, n => Fine, n => if n == 2 then Rejects(true) else Accepts, (n, d) => d);
    r := restorer.Apply(Some(archive), true, true, true);
  }

  lemma SelfReverted(d: Disk, archive: Archive)
    ensures Reverted(d, d, archive)
  {
  }

  lemma SnapshotFacts(before: Disk, archive: Archive, snapshots: seq<Snapshot>)
    requires SnapshotsOf(before, TargetsOf(archive), snapshots)
    ensures DistinctTargets(snapshots) && Recoverable(snapshots, before, archive)
    ensures HasMarker(before) ==> DatabaseMarked(snapshots)
    ensures forall d :: Matches(d, snapshots) ==> Reverted(d, before, archive)
  {
    var targets := TargetsOf(archive);
    assert targets[0] == DbFile && targets[1] == WalFile && targets[2] == ShmFile && (archive.hosts.Some? ==> targets[3] == HostsFile);
    assert forall i :: 0 <= i < |targets| ==> snapshots[i] == Snapshot(targets[i], At(before, targets[i]));
  }

  /** The hand-off sets the marker and loses nothing: the database keeps its rows, every other file
      its content. */
  lemma MarkingLosesNothing(d: Disk)
    ensures var m := MarkDisk(d);
            && HasMarker(m) && m.Keys == d.Keys + {DbFile} && (forall t :: t != DbFile ==> At(m, t) == At(d, t))
            && (DbFile in d && d[DbFile].Database? ==> m[DbFile] == Database(d[DbFile].rows, true))
  {
  }
}
