/** Many devices share one encrypted file on a cloud drive.  An upload or a
    download is one atomic step of a device and the cloud cell. */
module CloudSync {
  import opened Common
  import opened Rfc3339

  // Passwords, configurations and local configuration versions are symbolic.
  type Password = string
  type Config = string
  type LocalVersion = nat

  /** The text of a time stamp; its instant, if any, is what section 5.6 of RFC 3339 says. */
  type Stamp = string

  datatype Payload = Payload(config: Config, deviceName: string, updatedAt: Stamp)

  /** An encrypted file.  Encryption is randomised, so each upload makes a new version. */
  datatype Blob = Blob(version: nat, password: Password, payload: Payload)

  /** Provider hashes tell versions apart; `NoHash` is the empty default. */
  datatype Hash = NoHash | HashOf(version: nat)

  datatype Store = Absent | Pending | Protected(password: Password)

  datatype Reason =
    | NotInitialized
    | WrongPassword
    | PasswordMismatch
    | CloudChanged
    | CloudExistsNoCache
    | NoRemoteData
    | NoUpdate
    | LocalNewer
    | DecryptFailed
    | RollbackDetected

  datatype Outcome = Success | Refused(reason: Reason) | Failed

  /** The persistent state of one device. */
  datatype Device = Device(
    name: string,
    store: Store,
    authenticated: bool,
    syncPassword: Option<Password>,
    config: Config,
    localVersion: Option<LocalVersion>,
    lastHash: Option<Hash>,
    lastDeviceName: Option<string>,
    lastUpdatedAt: Option<Stamp>,
    lastLocalVersion: Option<LocalVersion>)

  /** Where an upload loses the network, if anywhere. */
  datatype Fault = NoFault | BeforeWrite | AfterWrite

  datatype UploadParams = UploadParams(password: Password, force: bool, now: Stamp, hashBefore: bool, hashAfter: bool, fault: Fault)

  datatype DownloadParams =
    DownloadParams(password: Password, force: bool, hashReported: bool, versionAfter: Option<LocalVersion>, fails: bool)

  // ---------------------------------------------------------------- the guards

  predicate TextLess(a: string, b: string) {
    b != "" && (a == "" || a[0] < b[0] || (a[0] == b[0] && TextLess(a[1..], b[1..])))
  }

  predicate CanUnlock(store: Store, password: Password) {
    store == Protected(password)
  }

  function ReportedHash(cloud: Option<Blob>, reported: bool): Option<Hash> {
    if cloud.Some? && reported then Some(HashOf(cloud.value.version)) else None
  }

  function CheckUploadConflict(exists_: bool, remoteHash: Option<Hash>, localHash: Option<Hash>): (r: Option<Reason>)
    ensures r.None? <==> !exists_ || remoteHash.None? || remoteHash == localHash
    ensures r == Some(CloudChanged) <==> exists_ && remoteHash.Some? && localHash.Some? && remoteHash != localHash
    ensures r == Some(CloudExistsNoCache) <==> exists_ && remoteHash.Some? && localHash.None?
  {
    if !exists_ then None
    else
      match (remoteHash, localHash)
      case (Some(rh), Some(lh)) => if rh == lh then None else Some(CloudChanged)
      case (Some(_), None) => Some(CloudExistsNoCache)
      case (None, _) => None
  }

  /** Chronological when both stamps parse, textual otherwise. */
  predicate IsOlder(cloud: Stamp, last: Stamp) {
    if Instant(cloud).Some? && Instant(last).Some? then Instant(cloud).value < Instant(last).value
    else TextLess(cloud, last)
  }

  predicate CheckRollback(cloud: Stamp, last: Option<Stamp>) {
    last.Some? && IsOlder(cloud, last.value)
  }

  // ------------------------------------------------------------- specification

  function SyncInfo(d: Device, hash: Hash, deviceName: string, updatedAt: Stamp, local: Option<LocalVersion>): Device {
    d.(lastHash := Some(hash), lastDeviceName := Some(deviceName), lastUpdatedAt := Some(updatedAt), lastLocalVersion := local)
  }

  /** Why an upload is refused, in the order of the checks. */
  function UploadVerdict(d: Device, cloud: Option<Blob>, p: UploadParams): Outcome {
    if d.store.Pending? then Refused(NotInitialized)
    else if !CanUnlock(d.store, p.password) then Refused(WrongPassword)
    else if !p.force && d.syncPassword.Some? && d.syncPassword.value != p.password then Refused(PasswordMismatch)
    else if !d.authenticated || p.fault == BeforeWrite then Failed
    else
      var conflict := CheckUploadConflict(cloud.Some?, ReportedHash(cloud, p.hashBefore), d.lastHash);
      if !p.force && conflict.Some? then Refused(conflict.value) else Success
  }

  function Written(d: Device, version: nat, p: UploadParams): Blob {
    Blob(version, p.password, Payload(d.config, d.name, p.now))
  }

  function Upload(d: Device, cloud: Option<Blob>, version: nat, p: UploadParams): (Device, Option<Blob>, Outcome) {
    var verdict := UploadVerdict(d, cloud, p);
    if verdict != Success then (d, cloud, verdict)
    else
      var blob := Some(Written(d, version, p));
      if p.fault == AfterWrite then (d, blob, Failed)
      else
        var hash := if p.hashAfter then HashOf(version) else NoHash;
        (SyncInfo(d, hash, d.name, p.now, d.localVersion).(syncPassword := Some(p.password)), blob, Success)
  }

  /** Why a download is refused, in the order of the checks. */
  function DownloadVerdict(d: Device, cloud: Option<Blob>, p: DownloadParams): Outcome {
    if d.store.Absent? then Refused(NotInitialized)
    else if !CanUnlock(d.store, p.password) then Refused(WrongPassword)
    else if !d.authenticated || p.fails then Failed
    else if cloud.None? then Refused(NoRemoteData)
    else
      var cloudUnchanged := !p.force && p.hashReported && d.lastHash == Some(HashOf(cloud.value.version));
      var versionsKnown := d.lastLocalVersion.Some? && d.localVersion.Some?;
      if cloudUnchanged && versionsKnown && d.lastLocalVersion == d.localVersion then Refused(NoUpdate)
      else if cloudUnchanged && versionsKnown then Refused(LocalNewer)
      else if cloud.value.password != p.password then Refused(DecryptFailed)
      else if !p.force && CheckRollback(cloud.value.payload.updatedAt, d.lastUpdatedAt) then Refused(RollbackDetected)
      else Success
  }

  function Download(d: Device, cloud: Option<Blob>, p: DownloadParams): (Device, Outcome) {
    var verdict := DownloadVerdict(d, cloud, p);
    if verdict != Success || cloud.None? then (d, verdict)
    else
      var blob := cloud.value;
      var hash := if p.hashReported then HashOf(blob.version) else NoHash;
      var applied := d.(config := blob.payload.config, localVersion := p.versionAfter);
      (SyncInfo(applied, hash, blob.payload.deviceName, blob.payload.updatedAt, p.versionAfter).(syncPassword := Some(p.password)), Success)
  }

  // ------------------------------------------------------------ implementation

  class CloudCell {
    var file: Option<Blob>

    constructor ()
      ensures file == None
    {
      file := None;
    }
  }

  class DeviceState {
    const name: string
    var store: Store
    var authenticated: bool
    var syncPassword: Option<Password>
    var config: Config
    var localVersion: Option<LocalVersion>
    var lastHash: Option<Hash>
    var lastDeviceName: Option<string>
    var lastUpdatedAt: Option<Stamp>
    var lastLocalVersion: Option<LocalVersion>

    function Model(): Device
      reads this
    {
      Device(name, store, authenticated, syncPassword, config, localVersion, lastHash, lastDeviceName, lastUpdatedAt, lastLocalVersion)
    }

    constructor (name: string)
      ensures Model() == Device(name, Absent, false, None, "", None, None, None, None, None)
    {
      this.name := name;
      store, authenticated, syncPassword, config, localVersion := Absent, false, None, "", None;
      lastHash, lastDeviceName, lastUpdatedAt, lastLocalVersion := None, None, None, None;
    }

    method SetSyncInfo(hash: Hash, deviceName: string, updatedAt: Stamp, local: Option<LocalVersion>)
      modifies this
      ensures Model() == SyncInfo(old(Model()), hash, deviceName, updatedAt, local)
    {
      lastHash := Some(hash);
      lastDeviceName := Some(deviceName);
      lastUpdatedAt := Some(updatedAt);
      lastLocalVersion := local;
    }

    method UploadTo(cloud: CloudCell, version: nat, p: UploadParams) returns (outcome: Outcome)
      modifies this, cloud
      ensures (Model(), cloud.file, outcome) == Upload(old(Model()), old(cloud.file), version, p)
    {
      if store.Pending? {
        return Refused(NotInitialized);
      }
      if !CanUnlock(store, p.password) {
        return Refused(WrongPassword);
      }
      if !p.force {
        if syncPassword.Some? && syncPassword.value != p.password {
          return Refused(PasswordMismatch);
        }
      }
      if !authenticated || p.fault == BeforeWrite {
        return Failed;
      }
      var remoteHash := ReportedHash(cloud.file, p.hashBefore);
      if !p.force {
        var conflict := CheckUploadConflict(cloud.file.Some?, remoteHash, lastHash);
        if conflict.Some? {
          return Refused(conflict.value);
        }
      }
      var payload := Payload(config, name, p.now);
      cloud.file := Some(Blob(version, p.password, payload));
      if p.fault == AfterWrite {
        return Failed;
      }
      var newHash := if p.hashAfter then HashOf(version) else NoHash;
      SetSyncInfo(newHash, name, p.now, localVersion);
      syncPassword := Some(p.password);
      outcome := Success;
    }

    method DownloadFrom(cloud: CloudCell, p: DownloadParams) returns (outcome: Outcome)
      modifies this
      ensures (Model(), outcome) == Download(old(Model()), cloud.file, p)
    {
      if store.Absent? {
        return Refused(NotInitialized);
      }
      if !CanUnlock(store, p.password) {
        return Refused(WrongPassword);
      }
      if !authenticated || p.fails {
        return Failed;
      }
      if cloud.file.None? {
        return Refused(NoRemoteData);
      }
      var remoteHash := ReportedHash(cloud.file, p.hashReported);
      if !p.force {
        if remoteHash.Some? && remoteHash == lastHash {
          if lastLocalVersion.Some? && localVersion.Some? && lastLocalVersion == localVersion {
            return Refused(NoUpdate);
          }
          if lastLocalVersion.Some? && localVersion.Some? && lastLocalVersion != localVersion {
            return Refused(LocalNewer);
          }
        }
      }
      var blob := cloud.file.value;
      if blob.password != p.password {
        return Refused(DecryptFailed);
      }
      if !p.force {
        if CheckRollback(blob.payload.updatedAt, lastUpdatedAt) {
          return Refused(RollbackDetected);
        }
      }
      config := blob.payload.config;
      localVersion := p.versionAfter;
      var newHash := if remoteHash.Some? then remoteHash.value else NoHash;
      SetSyncInfo(newHash, blob.payload.deviceName, blob.payload.updatedAt, localVersion);
      syncPassword := Some(p.password);
      outcome := Success;
    }
  }
}
