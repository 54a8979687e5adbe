/** The entities the file-restore pipeline passes along, from discovery results to restore records. */
module RestoreModel {
  import opened Collections
  import D = DiscoveryModel

  const RESERVED_NAME := "backup-level-failure"

  datatype State = Available | BackupDeleted | BackupMissing | UnsupportedPlugin | ExtractionFailed

  /** Phases of a Velero Restore; Other stands for every phase the controller does not name. */
  datatype RestorePhase =
    | NoPhase | RPNew | RPInProgress | RPCompleted | RPFinalizing | RPFinalizingPartiallyFailed
    | RPFailed | RPPartiallyFailed | RPFailedValidation | Other(name: string)

  datatype PVC = PVC(name: string, namespace: string, uid: string, size: string)

  datatype RestoreInfo = RestoreInfo(
    backup: string,
    backupNamespace: string,
    timestamp: Option<nat>,
    state: State,
    failure: string,
    restoreName: string,
    restoreNamespace: string,
    phase: RestorePhase)

  /** One PVC with the backups it can be restored from. */
  datatype PVCRestore = PVCRestore(pvc: PVC, restores: seq<RestoreInfo>)

  /** What the concurrent discovery learned about the PVCs of one backup. */
  datatype DiscoveryResult = DiscoveryResult(
    backup: string,
    namespace: string,
    createdAt: Option<nat>,
    status: D.EntryStatus,
    message: string,
    pvcs: seq<PVC>)

  predicate StartsAt(s: string, part: string, k: nat) {
    k + |part| <= |s| && s[k..k + |part|] == part
  }

  predicate Contains(s: string, part: string) {
    exists k: nat :: k <= |s| && StartsAt(s, part, k)
  }

  /** The state recorded for a backup; None for the results that are left aside. */
  function StateOf(r: DiscoveryResult): Option<State> {
    match r.status
    case Completed => Some(Available)
    case Failed =>
      Some(if Contains(r.message, "BackupNotFound") || Contains(r.message, "backup CRD object deleted")
           then BackupDeleted
           else if Contains(r.message, "BackupFilesMissing") || Contains(r.message, "Backup files missing")
           then BackupMissing
           else if Contains(r.message, "UnsupportedBackupFormat") then UnsupportedPlugin
           else ExtractionFailed)
    case _ => None
  }

  function InfoOf(r: DiscoveryResult, state: State): RestoreInfo {
    RestoreInfo(r.backup, r.namespace, r.createdAt, state, if state == Available then "" else r.message,
                "", "", NoPhase)
  }

  predicate IsSynthetic(p: PVCRestore) { p.pvc.name == RESERVED_NAME }

  predicate IsAvailable(x: RestoreInfo) { x.state == Available }
}
