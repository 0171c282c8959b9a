/** What runs of many devices on one cloud cell keep. */
module CloudSyncLaws {
  import opened Common
  import opened CloudSync
  import opened Rfc3339

  type DeviceId = nat

  /** A device uploaded a file itself, or applied it. */
  datatype Record = Synced(device: DeviceId, blob: Blob)

  datatype World = World(devices: map<DeviceId, Device>, cloud: Option<Blob>, next: nat, history: seq<Record>)

  datatype Event =
    | DoUpload(id: DeviceId, up: UploadParams)
    | DoDownload(id: DeviceId, down: DownloadParams)
    | LocalChange(id: DeviceId, store: Store, authenticated: bool, syncPassword: Option<Password>,
                  config: Config, localVersion: Option<LocalVersion>)

  function Step(w: World, e: Event): World {
    if e.id !in w.devices then w
    else
      var d := w.devices[e.id];
      match e
      case DoUpload(id, p) =>
        var (d', cloud', outcome) := Upload(d, w.cloud, w.next, p);
        World(w.devices[id := d'], cloud', w.next + 1, if outcome == Success && cloud'.Some? then w.history + [Synced(id, cloud'.value)] else w.history)
      case DoDownload(id, p) =>
        var (d', outcome) := Download(d, w.cloud, p);
        w.(devices := w.devices[id := d'],
           history := if outcome == Success && w.cloud.Some? then w.history + [Synced(id, w.cloud.value)] else w.history)
      case LocalChange(id, store, authenticated, syncPassword, config, localVersion) =>
        w.(devices := w.devices[id := d.(store := store, authenticated := authenticated, syncPassword := syncPassword,
                                         config := config, localVersion := localVersion)])
  }

  function Run(w: World, es: seq<Event>): World
    decreases |es|
  {
    if es == [] then w else Run(Step(w, es[0]), es[1..])
  }

  /** Devices that have not synchronised yet, and some file or none in the cloud. */
  ghost predicate IsInitial(w: World) {
    w.history == [] && (w.cloud.Some? ==> w.cloud.value.version < w.next)
    && forall id :: id in w.devices ==> w.devices[id].lastHash.None? && w.devices[id].lastUpdatedAt.None?
  }

  // -------------------------------------------------------------- no lost update

  ghost predicate EarnedBy(r: Record, id: DeviceId, version: nat) {
    r.device == id && r.blob.version == version
  }

  ghost predicate Earned(history: seq<Record>, id: DeviceId, version: nat) {
    exists k :: 0 <= k < |history| && EarnedBy(history[k], id, version)
  }

  /** A remembered hash belongs to a file that the device uploaded or applied. */
  ghost predicate HashesAreEarned(w: World) {
    forall id :: id in w.devices && w.devices[id].lastHash.Some? && w.devices[id].lastHash.value.HashOf? ==>
      Earned(w.history, id, w.devices[id].lastHash.value.version)
  }

  lemma EarnedStays(history: seq<Record>, r: Record, id: DeviceId, version: nat)
    ensures Earned(history, id, version) ==> Earned(history + [r], id, version)
    ensures EarnedBy(r, id, version) ==> Earned(history + [r], id, version)
  {
    var longer := history + [r];
    assert longer[|history|] == r;
    if Earned(history, id, version) {
      var k :| 0 <= k < |history| && EarnedBy(history[k], id, version);
      assert longer[k] == history[k];
    }
  }

  /** What a step does to the hash of a device, and to the history. */
  lemma StepRemembers(w: World, e: Event, id: DeviceId)
    requires id in Step(w, e).devices
    ensures id in w.devices
    ensures
      var w' := Step(w, e);
      var d, d' := w.devices[id], w'.devices[id];
      && (w'.history == w.history || exists r: Record :: w'.history == w.history + [r])
      && (d'.lastHash == d.lastHash
          || (d'.lastHash.Some? && (d'.lastHash.value.HashOf? ==>
                exists r :: w'.history == w.history + [r] && EarnedBy(r, id, d'.lastHash.value.version))))
  {
    hide UploadVerdict, DownloadVerdict;
    match e
    case DoUpload(up, p) =>
      if up in w.devices {
        var blob := Written(w.devices[up], w.next, p);
        assert EarnedBy(Synced(up, blob), up, w.next);
      }
    case DoDownload(down, p) =>
      if w.cloud.Some? {
        assert EarnedBy(Synced(down, w.cloud.value), down, w.cloud.value.version);
      }
    case LocalChange(_, _, _, _, _, _) =>
  }

  lemma StepKeepsHashesEarned(w: World, e: Event)
    requires HashesAreEarned(w)
    ensures HashesAreEarned(Step(w, e))
  {
    hide Step, Earned, EarnedBy;
    var w' := Step(w, e);
    forall id | id in w'.devices && w'.devices[id].lastHash.Some? && w'.devices[id].lastHash.value.HashOf?
      ensures Earned(w'.history, id, w'.devices[id].lastHash.value.version)
    {
      var version := w'.devices[id].lastHash.value.version;
      StepRemembers(w, e, id);
      if w'.devices[id].lastHash == w.devices[id].lastHash {
        if w'.history != w.history {
          var r: Record :| w'.history == w.history + [r];
          EarnedStays(w.history, r, id, version);
        }
      } else {
        var r: Record :| w'.history == w.history + [r] && EarnedBy(r, id, version);
        EarnedStays(w.history, r, id, version);
      }
    }
  }

  lemma {:induction false} RunKeepsHashesEarned(w: World, es: seq<Event>)
    requires HashesAreEarned(w)
    ensures HashesAreEarned(Run(w, es))
    decreases |es|
  {
    hide HashesAreEarned, Step;
    if es != [] {
      StepKeepsHashesEarned(w, es[0]);
      RunKeepsHashesEarned(Step(w, es[0]), es[1..]);
    }
  }

  /** A version names one file: in the history, and in the cloud. */
  ghost predicate VersionsName(w: World) {
    && (forall i, j :: 0 <= i < |w.history| && 0 <= j < |w.history| && w.history[i].blob.version == w.history[j].blob.version ==>
          w.history[i].blob == w.history[j].blob)
    && (forall i :: 0 <= i < |w.history| ==> w.history[i].blob.version < w.next)
    && (w.cloud.Some? ==> w.cloud.value.version < w.next)
    && forall i :: 0 <= i < |w.history| && w.cloud.Some? && w.history[i].blob.version == w.cloud.value.version ==>
         w.history[i].blob == w.cloud.value
  }

  lemma StepKeepsVersions(w: World, e: Event)
    requires VersionsName(w)
    ensures VersionsName(Step(w, e))
  {
    hide UploadVerdict, DownloadVerdict;
  }

  lemma {:induction false} RunKeepsVersions(w: World, es: seq<Event>)
    requires VersionsName(w)
    ensures VersionsName(Run(w, es))
    decreases |es|
  {
    hide VersionsName, Step;
    if es != [] {
      StepKeepsVersions(w, es[0]);
      RunKeepsVersions(Step(w, es[0]), es[1..]);
    }
  }

  /** The unforced upload writes exactly when the cloud is empty, gives no hash, or
      holds the version that the device remembers. */
  lemma UnforcedUploadWritesIff(d: Device, cloud: Option<Blob>, version: nat, p: UploadParams)
    requires !p.force && CanUnlock(d.store, p.password) && d.authenticated && p.fault != BeforeWrite
    requires d.syncPassword.Some? ==> d.syncPassword.value == p.password
    ensures Upload(d, cloud, version, p).1 == Some(Written(d, version, p)) || Upload(d, cloud, version, p).1 == cloud
    ensures UploadVerdict(d, cloud, p) == Success <==>
            cloud.None? || !p.hashBefore || d.lastHash == Some(HashOf(cloud.value.version))
  {}

  /** In every run, whatever the other steps do: an unforced upload that replaces a
      file in the cloud comes from a device that had uploaded or applied that file. */
  lemma NoLostUpdate(w0: World, es: seq<Event>, id: DeviceId, p: UploadParams)
    requires IsInitial(w0)
    requires var w := Run(w0, es);
             && id in w.devices && !p.force && p.hashBefore && w.cloud.Some?
             && Step(w, DoUpload(id, p)).cloud != w.cloud
    ensures var w := Run(w0, es); Synced(id, w.cloud.value) in w.history
  {
    RunKeepsHashesEarned(w0, es);
    RunKeepsVersions(w0, es);
    var w := Run(w0, es);
    assert UploadVerdict(w.devices[id], w.cloud, p) == Success;
    assert w.devices[id].lastHash == Some(HashOf(w.cloud.value.version));
    hide Run, Step, UploadVerdict;
    var k :| 0 <= k < |w.history| && EarnedBy(w.history[k], id, w.cloud.value.version);
    assert w.history[k] == Synced(id, w.cloud.value);
  }

  // ------------------------------------------------------------- every outcome

  /** The cloud holds a file that the device does not remember. */
  predicate Conflicts(d: Device, cloud: Option<Blob>, hashReported: bool) {
    cloud.Some? && hashReported && d.lastHash != Some(HashOf(cloud.value.version))
  }

  /** The password is the one of the last synchronisation, or it need not be. */
  predicate MayUpload(d: Device, p: UploadParams) {
    d.store == Protected(p.password) && (p.force || d.syncPassword == None || d.syncPassword == Some(p.password))
  }

  /** When an upload gives which answer. */
  lemma UploadAnswersIff(d: Device, cloud: Option<Blob>, version: nat, p: UploadParams)
    ensures
      var o := Upload(d, cloud, version, p).2;
      var online := d.authenticated && p.fault != BeforeWrite;
      var refused := !p.force && Conflicts(d, cloud, p.hashBefore);
      && (o == Refused(NotInitialized) <==> d.store == Pending)
      && (o == Refused(WrongPassword) <==> d.store != Pending && d.store != Protected(p.password))
      && (o == Refused(PasswordMismatch) <==>
            d.store == Protected(p.password) && !p.force && d.syncPassword.Some? && d.syncPassword != Some(p.password))
      && (o == Refused(CloudChanged) <==> MayUpload(d, p) && online && refused && d.lastHash.Some?)
      && (o == Refused(CloudExistsNoCache) <==> MayUpload(d, p) && online && refused && d.lastHash.None?)
      && (o == Failed <==> MayUpload(d, p) && (!online || (!refused && p.fault == AfterWrite)))
      && (o == Success <==> MayUpload(d, p) && online && !refused && p.fault == NoFault)
  {}

  /** What an upload leaves behind: a success writes the file and remembers it, a fault
      after the write leaves only the file, and anything else nothing. */
  lemma UploadLeaves(d: Device, cloud: Option<Blob>, version: nat, p: UploadParams)
    ensures
      var (d', cloud', o) := Upload(d, cloud, version, p);
      var file := Some(Blob(version, p.password, Payload(d.config, d.name, p.now)));
      && (o == Success ==>
            && cloud' == file
            && d' == d.(lastHash := Some(if p.hashAfter then HashOf(version) else NoHash), lastDeviceName := Some(d.name),
                        lastUpdatedAt := Some(p.now), lastLocalVersion := d.localVersion, syncPassword := Some(p.password)))
      && (o != Success ==> d' == d)
      && (o != Success && o != Failed ==> cloud' == cloud)
      && (o == Failed ==>
            cloud' == if d.authenticated && p.fault == AfterWrite then file else cloud)
  {}

  /** A forced upload of a device that can unlock its store always overwrites, whatever
      the cloud holds and whatever the device remembers. */
  lemma ForcedUploadOverwrites(d: Device, cloud: Option<Blob>, version: nat, p: UploadParams)
    requires p.force && d.store == Protected(p.password) && d.authenticated && p.fault == NoFault
    ensures
      var (_, cloud', o) := Upload(d, cloud, version, p);
      o == Success && cloud' == Some(Blob(version, p.password, Payload(d.config, d.name, p.now)))
  {
    UploadAnswersIff(d, cloud, version, p);
    UploadLeaves(d, cloud, version, p);
    hide Upload;
  }

  /** When a download gives which answer. */
  lemma DownloadAnswersIff(d: Device, cloud: Option<Blob>, p: DownloadParams)
    ensures
      var o := Download(d, cloud, p).1;
      var unlocked := d.store == Protected(p.password);
      var online := unlocked && d.authenticated && !p.fails;
      var same := cloud.Some? && !p.force && p.hashReported && d.lastHash == Some(HashOf(cloud.value.version))
                  && d.lastLocalVersion.Some? && d.localVersion.Some?;
      var older := cloud.Some? && !p.force && d.lastUpdatedAt.Some? && IsOlder(cloud.value.payload.updatedAt, d.lastUpdatedAt.value);
      && (o == Refused(NotInitialized) <==> d.store == Absent)
      && (o == Refused(WrongPassword) <==> d.store != Absent && !unlocked)
      && (o == Failed <==> unlocked && !online)
      && (o == Refused(NoRemoteData) <==> online && cloud.None?)
      && (o == Refused(NoUpdate) <==> online && same && d.localVersion == d.lastLocalVersion)
      && (o == Refused(LocalNewer) <==> online && same && d.localVersion != d.lastLocalVersion)
      && (o == Refused(DecryptFailed) <==> online && cloud.Some? && !same && cloud.value.password != p.password)
      && (o == Refused(RollbackDetected) <==> online && cloud.Some? && !same && cloud.value.password == p.password && older)
      && (o == Success <==> online && cloud.Some? && !same && cloud.value.password == p.password && !older)
  {
    hide Instant, TextLess;
  }

  /** What a download leaves behind: a success takes the file over and remembers it, a
      refusal changes nothing. */
  lemma DownloadLeaves(d: Device, cloud: Option<Blob>, p: DownloadParams)
    ensures
      var (d', o) := Download(d, cloud, p);
      && (o == Success ==>
            && cloud.Some?
            && d' == d.(config := cloud.value.payload.config, localVersion := p.versionAfter,
                        lastHash := Some(if p.hashReported then HashOf(cloud.value.version) else NoHash),
                        lastDeviceName := Some(cloud.value.payload.deviceName), lastUpdatedAt := Some(cloud.value.payload.updatedAt),
                        lastLocalVersion := p.versionAfter, syncPassword := Some(p.password)))
      && (o != Success ==> d' == d)
  {
    hide IsOlder;
  }

  predicate Parses(stamp: Stamp) {
    Instant(stamp).Some?
  }

  /** The stored time is older than the last exactly in the sense of instants, or of
      texts when one of them is no stamp. */
  lemma IsOlderIff(cloud: Stamp, last: Stamp)
    ensures Parses(cloud) && Parses(last) ==> (IsOlder(cloud, last) <==> Instant(cloud).value < Instant(last).value)
    ensures !(Parses(cloud) && Parses(last)) ==>
              (IsOlder(cloud, last) <==> exists k :: FirstDifference(cloud, last, k))
  {
    TextLessIff(cloud, last);
    hide Instant, TextLess;
  }

  /** The texts agree before `k`, and there the first ends or has the smaller character. */
  ghost predicate FirstDifference(a: string, b: string, k: nat) {
    k <= |a| && k < |b| && a[..k] == b[..k] && (k == |a| || a[k] < b[k])
  }

  lemma {:induction false} TextLessIff(a: string, b: string)
    ensures TextLess(a, b) <==> exists k :: FirstDifference(a, b, k)
  {
    if b != "" && (a == "" || a[0] < b[0]) {
      assert FirstDifference(a, b, 0);
    }
    if a != "" && b != "" && a[0] == b[0] {
      TextLessIff(a[1..], b[1..]);
      if k: nat :| FirstDifference(a[1..], b[1..], k) {
        assert a[..k + 1] == [a[0]] + a[1..][..k] && b[..k + 1] == [b[0]] + b[1..][..k];
        assert FirstDifference(a, b, k + 1);
      }
      if k: nat :| FirstDifference(a, b, k) {
        assert a[1..][..k - 1] == a[..k][1..] && b[1..][..k - 1] == b[..k][1..];
        assert FirstDifference(a[1..], b[1..], k - 1);
      }
    }
    if k: nat :| FirstDifference(a, b, k) && k > 0 {
      assert a[0] == a[..k][0] && b[0] == b[..k][0];
    }
  }

  // ------------------------------------------------------------------- fixpoint

  /** Right after a successful upload with a known hash and local version, the same
      device sees no update and no conflict. */
  lemma UploadIsFixpoint(d: Device, cloud: Option<Blob>, version: nat, p: UploadParams, next: nat, now: Stamp, after: Option<LocalVersion>)
    requires Upload(d, cloud, version, p).2 == Success && p.hashAfter && d.localVersion.Some?
    ensures var (d', cloud', _) := Upload(d, cloud, version, p);
            && DownloadVerdict(d', cloud', DownloadParams(p.password, false, true, after, false)) == Refused(NoUpdate)
            && Upload(d', cloud', next, UploadParams(p.password, false, now, true, true, NoFault)).2 == Success
  {}

  /** The same right after a successful download. */
  lemma DownloadIsFixpoint(d: Device, cloud: Option<Blob>, p: DownloadParams, next: nat, now: Stamp, after: Option<LocalVersion>)
    requires Download(d, cloud, p).1 == Success && p.hashReported && p.versionAfter.Some?
    ensures var (d', _) := Download(d, cloud, p);
            && DownloadVerdict(d', cloud, DownloadParams(p.password, false, true, after, false)) == Refused(NoUpdate)
            && Upload(d', cloud, next, UploadParams(p.password, false, now, true, true, NoFault)).2 == Success
  {}

  /** What an upload wrote, another device with the same password can apply: it then
      has the uploader's configuration and both remember the same version. */
  lemma UploadThenDownload(a: Device, b: Device, cloud: Option<Blob>, version: nat, p: UploadParams, q: DownloadParams)
    requires Upload(a, cloud, version, p).2 == Success && p.hashAfter
    requires q.password == p.password && q.hashReported && !q.fails && CanUnlock(b.store, q.password) && b.authenticated
    requires b.lastHash != Some(HashOf(version))
    requires q.force || !CheckRollback(p.now, b.lastUpdatedAt)
    ensures var (a', cloud', _) := Upload(a, cloud, version, p);
            var (b', outcome) := Download(b, cloud', q);
            outcome == Success && b'.config == a.config && b'.lastHash == a'.lastHash && b'.lastUpdatedAt == a'.lastUpdatedAt
  {}

  // ------------------------------------------------------ overwriting local edits

  /** An unforced download replaces the local configuration exactly when the cloud
      version is not the remembered one, or a local version is unknown.  So it asks
      about local edits only while the cloud is unchanged. */
  lemma UnforcedDownloadAppliesIff(d: Device, cloud: Option<Blob>, p: DownloadParams)
    requires cloud.Some? && !p.force && !p.fails && CanUnlock(d.store, p.password) && d.authenticated
    requires cloud.value.password == p.password && !CheckRollback(cloud.value.payload.updatedAt, d.lastUpdatedAt)
    ensures Download(d, cloud, p).1 == Success <==>
            !p.hashReported || d.lastHash != Some(HashOf(cloud.value.version)) || d.lastLocalVersion.None? || d.localVersion.None?
    ensures Download(d, cloud, p).1 == Success ==> Download(d, cloud, p).0.config == cloud.value.payload.config
    ensures Download(d, cloud, p).1 != Success ==>
            Download(d, cloud, p) == (d, Refused(if d.localVersion == d.lastLocalVersion then NoUpdate else LocalNewer))
  {}

  // ----------------------------------------------------------------- time order

  /** The later stamp, if there is one, has an instant, and it is not before the earlier. */
  predicate NotBefore(earlier: Option<Stamp>, later: Option<Stamp>) {
    && (later.Some? ==> Parses(later.value))
    && (earlier.Some? ==> later.Some? && Parses(earlier.value) && Instant(earlier.value).value <= Instant(later.value).value)
  }

  predicate Known(stamp: Option<Stamp>) {
    stamp.Some? ==> Parses(stamp.value)
  }

  /** An accepted unforced download keeps or raises the time of the device exactly
      when the stamp it applies parses. */
  lemma AppliedKeepsTimeIff(d: Device, cloud: Option<Blob>, p: DownloadParams)
    requires !p.force && Download(d, cloud, p).1 == Success && cloud.Some? && Known(d.lastUpdatedAt)
    ensures Download(d, cloud, p).0.lastUpdatedAt == Some(cloud.value.payload.updatedAt)
    ensures NotBefore(d.lastUpdatedAt, Download(d, cloud, p).0.lastUpdatedAt) <==> Parses(cloud.value.payload.updatedAt)
  {
    hide Instant, TextLess;
  }

  /** A step of another device, a local change, or an unforced download of `id`. */
  predicate IsPassive(e: Event, id: DeviceId) {
    (e.DoUpload? ==> e.id != id) && (e.DoDownload? && e.id == id ==> !e.down.force)
  }

  /** The step is a download of `id` that is accepted. */
  predicate Applies(w: World, e: Event, id: DeviceId)
    requires id in w.devices
  {
    e.DoDownload? && e.id == id && w.cloud.Some? && Download(w.devices[id], w.cloud, e.down).1 == Success
  }

  lemma PassiveStepKeepsTimeIff(w: World, e: Event, id: DeviceId)
    requires id in w.devices && IsPassive(e, id) && Known(w.devices[id].lastUpdatedAt)
    ensures id in Step(w, e).devices
    ensures NotBefore(w.devices[id].lastUpdatedAt, Step(w, e).devices[id].lastUpdatedAt) <==>
            (Applies(w, e, id) ==> Parses(w.cloud.value.payload.updatedAt))
  {
    hide UploadVerdict, Instant;
    if Applies(w, e, id) {
      AppliedKeepsTimeIff(w.devices[id], w.cloud, e.down);
    }
    hide DownloadVerdict;
  }

  /** No step of the run takes the device back in time, or to a time unknown. */
  ghost predicate NeverGoesBack(w: World, es: seq<Event>, id: DeviceId)
    requires id in w.devices
    decreases |es|
  {
    es != [] ==>
      var w' := Step(w, es[0]);
      id in w'.devices && NotBefore(w.devices[id].lastUpdatedAt, w'.devices[id].lastUpdatedAt) && NeverGoesBack(w', es[1..], id)
  }

  /** Every stamp that the device applies in the run parses. */
  ghost predicate AppliesParsed(w: World, es: seq<Event>, id: DeviceId)
    requires id in w.devices
    decreases |es|
  {
    es != [] ==>
      var w' := Step(w, es[0]);
      && (Applies(w, es[0], id) ==> Parses(w.cloud.value.payload.updatedAt))
      && id in w'.devices && AppliesParsed(w', es[1..], id)
  }

  lemma NotBeforeIsKnown(earlier: Option<Stamp>, later: Option<Stamp>)
    requires NotBefore(earlier, later)
    ensures Known(later)
  {}

  /** Over every run in which a device only makes unforced downloads, whatever the
      others upload, it never goes back in time exactly when every stamp that it
      applies is RFC 3339. */
  lemma {:induction false} DownloadsNeverGoBackIff(w: World, es: seq<Event>, id: DeviceId)
    requires id in w.devices && Known(w.devices[id].lastUpdatedAt)
    requires forall i :: 0 <= i < |es| ==> IsPassive(es[i], id)
    ensures NeverGoesBack(w, es, id) <==> AppliesParsed(w, es, id)
    decreases |es|
  {
    if es != [] {
      hide Step, Applies, NotBefore, Known, IsPassive;
      var w' := Step(w, es[0]);
      PassiveStepKeepsTimeIff(w, es[0], id);
      if NotBefore(w.devices[id].lastUpdatedAt, w'.devices[id].lastUpdatedAt) {
        NotBeforeIsKnown(w.devices[id].lastUpdatedAt, w'.devices[id].lastUpdatedAt);
        DownloadsNeverGoBackIff(w', es[1..], id);
      }
    }
  }

  /** Every stamp in the cloud, now and later in the run, parses. */
  ghost predicate StampsParse(w: World, es: seq<Event>) {
    && (w.cloud.Some? ==> Parses(w.cloud.value.payload.updatedAt))
    && forall i :: 0 <= i < |es| && es[i].DoUpload? ==> Parses(es[i].up.now)
  }

  lemma StepKeepsStamps(w: World, es: seq<Event>)
    requires es != [] && StampsParse(w, es)
    ensures StampsParse(Step(w, es[0]), es[1..])
  {
    hide UploadVerdict, DownloadVerdict, Parses;
  }

  /** While every stamp is RFC 3339, a device that only makes unforced downloads never
      goes back in time, at any step or over the whole run. */
  lemma {:induction false} DownloadsNeverGoBack(w: World, es: seq<Event>, id: DeviceId)
    requires id in w.devices && Known(w.devices[id].lastUpdatedAt) && StampsParse(w, es)
    requires forall i :: 0 <= i < |es| ==> IsPassive(es[i], id)
    ensures NeverGoesBack(w, es, id)
    ensures id in Run(w, es).devices && NotBefore(w.devices[id].lastUpdatedAt, Run(w, es).devices[id].lastUpdatedAt)
    decreases |es|
  {
    if es == [] {
    } else {
      PassiveStepKeepsTimeIff(w, es[0], id);
      StepKeepsStamps(w, es);
      var w' := Step(w, es[0]);
      assert Applies(w, es[0], id) ==> Parses(w.cloud.value.payload.updatedAt);
      hide Step, Applies, IsPassive, StampsParse, Instant;
      DownloadsNeverGoBack(w', es[1..], id);
    }
  }

  // A stamp, one without seconds or offset, and one that is earlier than the first.
  const LAST: Stamp := "2026-09-01" + "T00:30:00" + "+00:00"
  const RAW: Stamp := "2026-09-01" + "T00:45"
  const EARLY: Stamp := "2026-09-01" + "T01:00:00" + "+02:00"

  lemma {:induction false} SamePrefix(prefix: string, a: string, b: string)
    ensures TextLess(prefix + a, prefix + b) == TextLess(a, b)
  {
    if prefix == "" {
      assert prefix + a == a && prefix + b == b;
    } else {
      assert (prefix + a)[1..] == prefix[1..] + a && (prefix + b)[1..] == prefix[1..] + b;
      SamePrefix(prefix[1..], a, b);
    }
  }

  lemma ExampleTexts()
    ensures WriteDate(2026, 9, 1) == "2026-09-01"
    ensures WriteTime(0, 30, 0) == "T00:30:00" && WriteTime(1, 0, 0) == "T01:00:00"
    ensures WriteZone(0) == "+00:00" && WriteZone(120) == "+02:00"
  {}

  lemma ExampleInstants()
    ensures Instant(RAW) == None
    ensures Instant(LAST).Some? && Instant(EARLY).Some? && Instant(EARLY).value < Instant(LAST).value
  {
    hide Instant, DayNumber, WriteDate, WriteTime, WriteZone;
    WrittenIsRead(2026, 9, 1, 0, 30, 0, 0);
    WrittenIsRead(2026, 9, 1, 1, 0, 0, 120);
    ExampleTexts();
    ShortIsNoStamp(RAW);
  }

  lemma ShortIsNoStamp(text: string)
    requires |text| < 19
    ensures Instant(text) == None
  {}

  lemma ExampleOrder()
    ensures !TextLess(RAW, LAST) && !TextLess(EARLY, RAW)
  {
    var date := "2026-09-01";
    assert LAST == date + ("T00:30:00" + "+00:00") && RAW == date + "T00:45" && EARLY == date + ("T01:00:00" + "+02:00");
    SamePrefix(date, "T00:45", "T00:30:00" + "+00:00");
    SamePrefix(date, "T01:00:00" + "+02:00", "T00:45");
    assert "T00:45" == "T00:" + "45" && "T00:30:00" + "+00:00" == "T00:" + ("30:00" + "+00:00");
    SamePrefix("T00:", "45", "30:00" + "+00:00");
    assert "T01:00:00" + "+02:00" == "T0" + ("1:00:00" + "+02:00") && "T00:45" == "T0" + "0:45";
    SamePrefix("T0", "1:00:00" + "+02:00", "0:45");
  }

  /** A stamp that does not parse breaks the order: of two downloads, each accepted by
      the rollback check, the second takes the device back by an hour and a half. */
  lemma UnparsedStampLetsTimeFall(password: Password)
    ensures var d := Device("phone", Protected(password), true, None, "", Some(1), Some(HashOf(1)), None, Some(LAST), Some(1));
            var p := DownloadParams(password, false, true, Some(2), false);
            var raw := Some(Blob(2, password, Payload("", "old client", RAW)));
            var early := Some(Blob(3, password, Payload("", "laptop", EARLY)));
            var (d1, o1) := Download(d, raw, p);
            var (d2, o2) := Download(d1, early, p);
            && o1 == Success && o2 == Success && d2.lastUpdatedAt == Some(EARLY)
            && !NotBefore(Some(LAST), d2.lastUpdatedAt)
  {
    ExampleInstants();
    ExampleOrder();
    hide Instant, TextLess;
  }
}
