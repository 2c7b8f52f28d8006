/**
  The operation around a restore: it activates maintenance, runs the restore, and decides from the
  kind of error whether maintenance may be released again.
 */
module RestoreLifecycle {
  import opened Common
  import opened Restore

  datatype Kind =
    | Succeeded | ActiveServerActions | JobManagerUnavailable | JobCreateFailed
    | MaintenanceActivateFailed | MaintenanceReleaseFailed | DecryptFailed | ArchiveFailed | ApplyFailed

  /** How far the archive got before the live files were involved. */
  datatype Stage = FailsToDecrypt | FailsInspection | Ready(archive: Option<Archive>)

  datatype Maintenance = Open | ActiveRestore | RecoveryRequired

  datatype Request = Request(
    serversBusy: bool, jobManager: bool, jobCreated: bool, activates: bool, stage: Stage,
    contextAlive: bool, releases: bool)

  function FailureKind(stage: Stage): Kind {
    match stage
    case FailsToDecrypt => DecryptFailed
    case FailsInspection => ArchiveFailed
    case Ready(_) => ApplyFailed
  }

  class Lifecycle {
    var maintenance: Maintenance
    /** Attempts to give maintenance back. */
    var releaseCalls: nat

    constructor ()
      ensures maintenance == Open && releaseCalls == 0
    {
      maintenance, releaseCalls := Open, 0;
    }

    /** Stores the active restore in the live database. */
    method Activate(restorer: Restorer, ok: bool)
      requires maintenance.Open?
      modifies this`maintenance, restorer`disk
      ensures ok ==> maintenance.ActiveRestore? && restorer.disk == MarkDisk(old(restorer.disk))
      ensures !ok ==> maintenance.Open? && restorer.disk == old(restorer.disk)
    {
      if ok {
        maintenance := ActiveRestore;
        restorer.disk := MarkDisk(restorer.disk);
      }
    }

    method Release(ok: bool)
      modifies this
      ensures releaseCalls == old(releaseCalls) + 1
      ensures maintenance == if ok then Open else old(maintenance)
    {
      releaseCalls := releaseCalls + 1;
      if ok {
        maintenance := Open;
      }
    }

    /** Runs one restore. Maintenance is released exactly once after activation, unless recovery
        could not be verified: then it is latched and never released. */
    method RestoreBackup(restorer: Restorer, q: Request)
      returns (kind: Kind, ghost activated: bool, ghost result: Option<Result>)
      requires maintenance.Open?
      modifies this, restorer
      ensures activated <==> !q.serversBusy && q.jobManager && q.jobCreated && q.activates
      ensures !activated ==> releaseCalls == old(releaseCalls) && maintenance.Open? && result.None? &&
                             restorer.disk == old(restorer.disk) &&
                             kind == if q.serversBusy then ActiveServerActions
                                     else if !q.jobManager then JobManagerUnavailable
                                     else if !q.jobCreated then JobCreateFailed else MaintenanceActivateFailed
      ensures activated && q.stage.Ready? <==> result.Some?
      ensures activated && result == Some(Failed(Incomplete)) ==>
                releaseCalls == old(releaseCalls) && maintenance.RecoveryRequired? && kind == ApplyFailed
      ensures activated && result != Some(Failed(Incomplete)) ==>
                releaseCalls == old(releaseCalls) + 1 && (maintenance.Open? <==> q.releases) &&
                kind == if !q.releases then MaintenanceReleaseFailed
                        else if result == Some(Done) then Succeeded
                        else if q.stage.FailsToDecrypt? then DecryptFailed
                        else if q.stage.FailsInspection? then ArchiveFailed else ApplyFailed
      // Maintenance reopens only over files that are known to be good.
      ensures activated && maintenance.Open? && result.Some? && restorer.quiesced.Some? ==>
                q.stage.archive.Some? && restorer.reopened.Some? && restorer.rollbackDir.None? &&
                if result.value.Done?
                then Replaced(restorer.reopened.value, restorer.quiesced.value, q.stage.archive.value, true)
                else Reverted(restorer.reopened.value, restorer.quiesced.value, q.stage.archive.value)
      // Latched maintenance has what an operator needs, or nothing to recover.
      ensures activated && maintenance.RecoveryRequired? && restorer.replacing ==>
                q.stage.Ready? && q.stage.archive.Some? && restorer.quiesced.Some? &&
                if restorer.rollbackDir.Some?
                then Recoverable(restorer.rollbackDir.value, restorer.quiesced.value, q.stage.archive.value)
                else restorer.reopened.Some? && Reverted(restorer.reopened.value, restorer.quiesced.value, q.stage.archive.value)
      // From activation on, a crash always finds the restore marker in the live database.
      ensures result.Some? && restorer.RuntimeKeepsMarker() ==> restorer.Guarded()
      ensures (activated && q.stage.Ready? && q.stage.archive.Some? && q.contextAlive && q.releases &&
               restorer.FilesFine(old(restorer.fileClock), restorer.fileClock) &&
               restorer.RuntimeAccepts(old(restorer.runtimeClock), restorer.runtimeClock)) ==> kind == Succeeded
    {
      hide Replaced, Reverted, Recoverable, Restorer.Guarded;
      activated, result := false, None;
      if q.serversBusy {
        return ActiveServerActions, activated, result;
      }
      if !q.jobManager {
        return JobManagerUnavailable, activated, result;
      }
      if !q.jobCreated {
        return JobCreateFailed, activated, result;
      }
      Activate(restorer, q.activates);
      if !q.activates {
        return MaintenanceActivateFailed, activated, result;
      }
      activated := true;
      kind := FailureKind(q.stage);
      if q.stage.Ready? {
        var r := restorer.Apply(q.stage.archive, true, true, q.contextAlive);
        result := Some(r);
        if r.Failed? && r.error.Incomplete? {
          maintenance := RecoveryRequired;
          return;
        }
        if r.Done? {
          kind := Succeeded;
        } else {
          assert r.error.Ordinary?;
        }
      }
      Release(q.releases);
      if !q.releases {
        kind := MaintenanceReleaseFailed;
      }
    }
  }
}
