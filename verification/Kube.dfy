/**
 The objects the operator works on: times, images, worker pods with their annotations, worker templates, the
 group's settings and its status.
 */
module Kube {
  import opened Wrappers

  // ---------- time ----------

  /** Nanoseconds since the zero value of the source's clock type. */
  type Time = int
  type Duration = int

  const SECOND: Duration := 1_000_000_000
  const MINUTE: Duration := 60 * SECOND
  const HOUR: Duration := 60 * MINUTE
  const ZERO_TIME: Time := 0

  const DEFAULT_REBALANCE_DELAY: Duration := 10 * MINUTE
  const REBALANCE_DELAY_MARGIN: Duration := MINUTE
  const WORKER_STATS_MAX_AGE: Duration := 2 * MINUTE
  const MIN_LEAVE_WORKER_DURATION: Duration := MINUTE
  const LEAVING_REBALANCE_DELAY: Duration := 10 * SECOND
  const DEFAULT_BACKUP_WORKER_DURATION: Duration := HOUR
  const DEFAULT_WAITING_MAX_DURATION: Duration := HOUR
  const IDLE_RATE: int := 0x10_0000

  /** Printing a time as RFC 3339 drops the fraction of a second; annotations and stored statuses hold such times. */
  function Rfc3339(t: Time): (r: Time)
    ensures r <= t < r + SECOND && r % SECOND == 0
    ensures t % SECOND == 0 ==> r == t
  {
    t - t % SECOND
  }

  /** A time as a stored status holds it. */
  function Whole(t: Option<Time>): Option<Time> {
    if t.Some? then Some(Rfc3339(t.value)) else None
  }

  lemma Rfc3339Monotone(a: Time, b: Time)
    requires a <= b
    ensures Rfc3339(a) <= Rfc3339(b)
  {
    var x, y := a / SECOND, b / SECOND;
    assert Rfc3339(a) == x * SECOND && Rfc3339(b) == y * SECOND;
    assert x <= y;
  }

  function Max(a: int, b: int): int {
    if a >= b then a else b
  }

  function Min(a: int, b: int): int {
    if a <= b then a else b
  }

  // ---------- images ----------

  /**
   What an image tag says about its version: none, a rolling tag (latest, nightly, ...), an edition with a version, or
   neither.
   */
  datatype Image =
    NoTag | Rolling(ee: bool) | Enterprise(version: seq<nat>) | Community(version: seq<nat>) | Unversioned

  const V5_1_0: seq<nat> := [5, 1, 0]
  const V5_4_4: seq<nat> := [5, 4, 4]

  /** The order of two version lists, a proper prefix being smaller: -1, 0 or 1. */
  function CompareVersions(current: seq<nat>, target: seq<nat>): (r: int)
    ensures r == 0 <==> current == target
    ensures -1 <= r <= 1
  {
    if current == [] then (if target == [] then 0 else -1)
    else if target == [] then 1
    else if current[0] > target[0] then 1
    else if current[0] < target[0] then -1
    else
      assert current == [current[0]] + current[1..] && target == [target[0]] + target[1..];
      CompareVersions(current[1..], target[1..])
  }

  predicate AgreeTo(a: seq<nat>, b: seq<nat>, k: nat) {
    k <= |a| && k <= |b| && a[..k] == b[..k]
  }

  /** The first part that differs is smaller, or the list ends before the target does. */
  ghost predicate Below(current: seq<nat>, target: seq<nat>) {
    exists k: nat :: AgreeTo(current, target, k) && k < |target| && (k == |current| || current[k] < target[k])
  }

  lemma {:induction false} CompareVersionsExactly(current: seq<nat>, target: seq<nat>)
    ensures CompareVersions(current, target) < 0 <==> Below(current, target)
  {
    if current != [] && target != [] && current[0] == target[0] {
      CompareVersionsExactly(current[1..], target[1..]);
      BelowTail(current, target);
    } else if target != [] && (current == [] || current[0] < target[0]) {
      assert AgreeTo(current, target, 0);
    }
  }

  lemma BelowTail(a: seq<nat>, b: seq<nat>)
    requires a != [] && b != [] && a[0] == b[0]
    ensures Below(a, b) <==> Below(a[1..], b[1..])
  {
    if Below(a, b) {
      var k: nat :| AgreeTo(a, b, k) && k < |b| && (k == |a| || a[k] < b[k]);
      assert a[1..][..k - 1] == a[..k][1..] && b[1..][..k - 1] == b[..k][1..];
      assert AgreeTo(a[1..], b[1..], k - 1);
    }
    if Below(a[1..], b[1..]) {
      var k: nat :| AgreeTo(a[1..], b[1..], k) && k < |b[1..]| && (k == |a[1..]| || a[1..][k] < b[1..][k]);
      assert a[..k + 1] == [a[0]] + a[1..][..k] && b[..k + 1] == [b[0]] + b[1..][..k];
      assert AgreeTo(a, b, k + 1);
    }
  }

  /** The image carries at least this version: a rolling tag always does. */
  ghost predicate AtLeast(image: Image, target: seq<nat>) {
    || image.Rolling?
    || (image.Enterprise? && !Below(image.version, target))
    || (image.Community? && !Below(image.version, target))
  }

  lemma AtLeastExactly(image: Image, target: seq<nat>)
    ensures CompareImage(image, target) >= 0 <==> AtLeast(image, target)
  {
    if image.Enterprise? || image.Community? {
      CompareVersionsExactly(image.version, target);
    }
  }

  function CompareImage(image: Image, target: seq<nat>): int {
    match image
    case NoTag => -1
    case Rolling(_) => 1
    case Enterprise(v) => CompareVersions(v, target)
    case Community(v) => CompareVersions(v, target)
    case Unversioned => -1
  }

  /** The loop of CompareImageVersion over the parts of the two versions. */
  method CompareImageVersion(image: Image, target: seq<nat>) returns (r: int)
    ensures r == CompareImage(image, target)
  {
    var parts: seq<nat> := [];
    match image {
      case NoTag => return -1;
      case Rolling(_) => return 1;
      case Unversioned => return -1;
      case Enterprise(v) => parts := v;
      case Community(v) => parts := v;
    }
    var i := 0;
    while i < |parts|
      invariant 0 <= i <= |parts| && i <= |target|
      invariant CompareVersions(parts[i..], target[i..]) == CompareVersions(parts, target)
    {
      if i >= |target| {
        return 1;
      }
      if parts[i] > target[i] {
        return 1;
      } else if parts[i] < target[i] {
        return -1;
      }
      assert parts[i..][1..] == parts[i + 1..] && target[i..][1..] == target[i + 1..];
      i := i + 1;
    }
    if |parts| < |target| {
      return -1;
    }
    return 0;
  }

  /** isEEImageAtLeast: an Enterprise tag at or above the version, or a rolling tag that names the edition. */
  predicate IsEEImageAtLeast(image: Image, target: seq<nat>) {
    match image
    case Rolling(ee) => ee
    case Enterprise(v) => CompareVersions(v, target) >= 0
    case _ => false
  }

  predicate SupportsRestartArgs(image: Image) {
    IsEEImageAtLeast(image, V5_4_4)
  }

  predicate SupportsDecommission(image: Image) {
    IsEEImageAtLeast(image, V5_4_4)
  }

  /** Only the enterprise image counts: by its version, or by a rolling tag that names the edition. */
  lemma EEImageAtLeastExactly(image: Image)
    ensures SupportsRestartArgs(image) <==>
      (image.Enterprise? && AtLeast(image, [5, 4, 4])) || (image.Rolling? && image.ee)
    ensures SupportsDecommission(image) <==> SupportsRestartArgs(image)
  {
    if image.Enterprise? {
      CompareVersionsExactly(image.version, [5, 4, 4]);
    }
  }

  // ---------- annotations, pods ----------

  /** Annotation keys other than the five the operator writes: juicefs.io/ keys and keys of anyone else. */
  datatype Key = Own(name: string) | Foreign(name: string)

  /**
   What is hashed: the pod as rendered before the fields that do not take part in the hash. The hash itself is
   taken to be injective, so the worker-hash annotation is modelled by the rendering it stands for.
   */
  datatype Rendering = Rendering(
    name: string, node: string, image: Image, command: string, v2: bool, mountOpts: string,
    delay: Option<Duration>, others: map<Key, string>, replicas: bool, scheduling: bool, rest: string)

  datatype Annotations = Annotations(
    joinedAt: Option<Time>,      // juicefs.io/backup-worker
    waitingAt: Option<Time>,     // juicefs.io/waiting-delete-worker
    hash: Option<Rendering>,     // juicefs.io/worker-hash
    v2: bool,                    // juicefs.io/worker-template is "v2"
    mountOpts: string,           // juicefs.io/worker-mount-opts, "" when missing
    others: map<Key, string>)

  datatype Phase = PodPending | PodRunning | PodSucceeded | PodFailed | PodUnknown

  datatype Pod = Pod(
    name: string,
    nodeName: string,
    image: Image,
    command: string,             // the script of `sh -c`
    delay: Option<Duration>,     // JFS_CACHE_REBALANCE_DELAY of the worker container, when it parses
    annotations: Annotations,
    ready: bool,                 // IsPodReady
    deleting: bool,              // the deletion timestamp is set
    phase: Phase)

  predicate Joining(p: Pod) { p.annotations.joinedAt.Some? }

  predicate Leaving(p: Pod) { p.annotations.waitingAt.Some? }

  // ---------- settings ----------

  datatype Strategy = Unset | OnDelete | RollingUpdate(maxUnavailable: Option<MaxUnavailable>) | OtherStrategy

  datatype MaxUnavailable = Number(n: int) | Percent(p: int) | BadValue

  datatype Template = Template(
    image: Image,
    opts: seq<string>,
    cacheDirs: seq<string>,      // paths in the container
    deviceCmds: seq<string>,     // device-mount scripts
    delay: Option<Duration>,
    annotations: map<Key, string>,
    rest: string)                // fields copied into the pod as they are

  datatype Group = Group(
    name: string,
    cacheGroup: string,
    volName: string,
    authCmd: string,
    replicas: bool,              // workers are named by replica, not by node
    scheduling: bool,
    backupDuration: Option<Duration>,
    waitingMax: Option<Duration>,
    strategy: Strategy)

  const WORKER_NAME_PREFIX := "juicefs-cg-worker-"

  function PodName(g: Group, node: string): string {
    if g.replicas then node else WORKER_NAME_PREFIX + g.name + "-" + node
  }

  lemma PodNameInjective(g: Group, a: string, b: string)
    requires PodName(g, a) == PodName(g, b)
    ensures a == b
  {
    if !g.replicas {
      var prefix := WORKER_NAME_PREFIX + g.name + "-";
      assert PodName(g, a)[|prefix|..] == a;
      assert PodName(g, b)[|prefix|..] == b;
    }
  }

  function BackupDuration(g: Group): Duration {
    g.backupDuration.GetOr(DEFAULT_BACKUP_WORKER_DURATION)
  }

  function WaitingMax(g: Group): Duration {
    g.waitingMax.GetOr(DEFAULT_WAITING_MAX_DURATION)
  }

  // ---------- status ----------

  datatype Stats = Stats(
    name: string,
    cacheBytes: Option<int>, capacityBytes: Option<int>, transferBytes: Option<int>, receiveBytes: Option<int>,
    transferRate: Option<int>, receiveRate: Option<int>,
    startTime: Option<Time>, lastSampleTime: Option<Time>)

  /** The zero value of a stats record. */
  function NoStats(): Stats {
    Stats("", None, None, None, None, None, None, None, None)
  }

  datatype Batch = Batch(members: seq<string>, startAt: Time)

  datatype GroupPhase = NoPhase | Waiting | Progressing | Ready

  datatype Status = Status(
    phase: GroupPhase, rebalance: Option<Batch>, stats: seq<Stats>, cacheSize: string,
    readyWorker: nat, backUpWorker: nat, waitingDeletedWorker: nat, expectWorker: nat)
}
