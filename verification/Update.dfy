/**
 How one worker is brought to its expected state: the update decision, the smooth restart, and the leave that is
 called off.
 */
module Update {
  import opened Wrappers
  import opened Text
  import opened Kube
  import opened MountOptions
  import opened Builder

  // ---------- the update strategy ----------

  /** ParseUpdateStrategy: whether workers are only updated when deleted, and how many may be unavailable at once. */
  function ParseUpdateStrategy(s: Strategy, total: nat): (bool, int) {
    match s
    case Unset => (false, 1)
    case OnDelete => (true, 1)
    case RollingUpdate(Some(Number(n))) => (false, n)
    case RollingUpdate(Some(Percent(p))) => (false, p * total / 100)
    case RollingUpdate(Some(BadValue)) => (false, 1)
    case RollingUpdate(None) => (false, 1)
    case OtherStrategy => (false, 1)
  }

  /** Only OnDelete waits for a deletion. One worker may be unavailable unless rolling updates say otherwise. */
  lemma StrategyAllows(s: Strategy, total: nat)
    ensures var (onDelete, allowed) := ParseUpdateStrategy(s, total);
      && (onDelete <==> s == OnDelete)
      && match s
         case RollingUpdate(Some(Number(n))) => allowed == n
         case RollingUpdate(Some(Percent(p))) => 100 * allowed <= p * total < 100 * (allowed + 1)
         case _ => allowed == 1
  {
  }

  /** A percentage of the workers is rounded down, to none when it is less than one worker. */
  lemma PercentRoundsDown(p: int, total: nat)
    ensures var m := ParseUpdateStrategy(RollingUpdate(Some(Percent(p))), total).1;
      100 * m <= p * total < 100 * m + 100 && (m >= 1 <==> p * total >= 100)
  {
  }

  // ---------- the decision ----------

  datatype Action = UpToDate | Recreate | SmoothRestart

  function UpdateAction(onDelete: bool, v1Hash: Rendering, want: Pod, actual: Option<Pod>): Action {
    match actual
    case None => Recreate
    case Some(p) =>
      if p.deleting then UpToDate
      else if onDelete then
        if p.annotations.v2 && Joining(p) && !Joining(want) && p.annotations.hash == want.annotations.hash
        then SmoothRestart else UpToDate
      else if p.phase in {PodFailed, PodUnknown, PodSucceeded} then Recreate
      else
        var wantHash := if !p.annotations.v2 && want.annotations.v2 then Some(v1Hash) else want.annotations.hash;
        if wantHash != p.annotations.hash then Recreate
        else if p.annotations.v2 && p.annotations.mountOpts != want.annotations.mountOpts then SmoothRestart
        else UpToDate
  }

  /** The decision for the worker of one node. */
  function Decide(onDelete: bool, g: Group, t: Template, node: string, join: bool, actual: Option<Pod>,
                  now: Time): Action {
    UpdateAction(onDelete, V1WorkerHash(g, t, node, join), NewCacheGroupWorker(g, t, node, join, now), actual)
  }

  predicate Alive(p: Pod) {
    !p.deleting && p.phase !in {PodFailed, PodUnknown, PodSucceeded}
  }

  // ---------- smooth restart ----------

  /** The juicefs.io annotations of the target with the foreign annotations of the worker. */
  function RestartedAnnotations(worker: Annotations, target: Annotations): Annotations {
    target.(others := OwnPart(target.others) + ForeignPart(worker.others))
  }

  function OwnPart(m: map<Key, string>): map<Key, string> {
    map k | k in m && k.Own? :: m[k]
  }

  function ForeignPart(m: map<Key, string>): map<Key, string> {
    map k | k in m && k.Foreign? :: m[k]
  }

  function Restarted(worker: Pod, target: Pod): Pod {
    worker.(annotations := RestartedAnnotations(worker.annotations, target.annotations))
  }

  /** maps.DeleteFunc with the juicefs.io/ prefix. */
  method DeleteOwn(m: map<Key, string>) returns (r: map<Key, string>)
    ensures r == ForeignPart(m)
  {
    r := m;
    var keys := m.Keys;
    while keys != {}
      invariant keys <= m.Keys
      invariant forall k :: k in r <==> k in m && (k in keys || k.Foreign?)
      invariant forall k :: k in r ==> r[k] == m[k]
      decreases |keys|
    {
      var k :| k in keys;
      keys := keys - {k};
      if k.Own? {
        r := r - {k};
      }
    }
  }

  lemma OwnPartUpdate(m: map<Key, string>, k: Key, v: string)
    ensures OwnPart(m[k := v]) == if k.Own? then OwnPart(m)[k := v] else OwnPart(m)
  {
  }

  /** The loop copying the target's juicefs.io annotations. */
  method CopyOwn(into: map<Key, string>, from: map<Key, string>) returns (r: map<Key, string>)
    ensures r == into + OwnPart(from)
  {
    r := into;
    var keys := from.Keys;
    while keys != {}
      invariant keys <= from.Keys
      invariant r == into + OwnPart(from - keys)
      decreases |keys|
    {
      var k :| k in keys;
      assert from - (keys - {k}) == (from - keys)[k := from[k]];
      OwnPartUpdate(from - keys, k, from[k]);
      keys := keys - {k};
      if k.Own? {
        r := r[k := from[k]];
      }
    }
    assert from - keys == from;
  }

  /**
   What the patch after a smooth restart does to the annotations: delete every juicefs.io key, then copy the target's.
   */
  method RestartAnnotations(worker: Annotations, target: Annotations) returns (updated: Annotations)
    ensures updated == RestartedAnnotations(worker, target)
  {
    var foreign := DeleteOwn(worker.others);
    updated := worker.(joinedAt := None, waitingAt := None, hash := None, v2 := false, mountOpts := "",
        others := foreign);
    var others := CopyOwn(updated.others, target.others);
    updated := updated.(joinedAt := target.joinedAt, waitingAt := target.waitingAt, hash := target.hash,
                        v2 := target.v2, mountOpts := target.mountOpts, others := others);
    assert foreign + OwnPart(target.others) == OwnPart(target.others) + foreign;
  }

  /** The restart leaves the worker with exactly the target's juicefs.io annotations and its own foreign ones. */
  lemma RestartKeepsForeign(worker: Pod, target: Pod)
    ensures var a := Restarted(worker, target).annotations;
      && a.joinedAt == target.annotations.joinedAt && a.waitingAt == target.annotations.waitingAt
      && a.hash == target.annotations.hash && a.v2 == target.annotations.v2
          && a.mountOpts == target.annotations.mountOpts
      && (forall n :: Own(n) in a.others <==> Own(n) in target.annotations.others)
      && (forall n :: Own(n) in a.others ==> a.others[Own(n)] == target.annotations.others[Own(n)])
      && (forall n :: Foreign(n) in a.others <==> Foreign(n) in worker.annotations.others)
      && (forall n :: Foreign(n) in a.others ==> a.others[Foreign(n)] == worker.annotations.others[Foreign(n)])
  {
  }

  // ---------- the rendered pod is a fixed point ----------

  /**
   A worker as built from the template, with the join mark it carries; v1 workers may be older than their image's v2
   support.
   */
  predicate IsBuilt(p: Pod, g: Group, t: Template, node: string) {
    var built := NewWorker(g, t, node, Joining(p), p.annotations.v2, ZERO_TIME);
    && (p.annotations.v2 ==> SupportsRestartArgs(t.image))
    && SameBuild(p, built.(annotations := built.annotations.(joinedAt := p.annotations.joinedAt)))
  }

  /**
   A live worker built earlier from the same template needs no update as long as its join flag stays, whatever the
   strategy.
   */
  lemma BuiltIsUpToDate(onDelete: bool, g: Group, t: Template, node: string, p: Pod, now: Time)
    requires IsBuilt(p, g, t, node) && Alive(p)
    ensures Decide(onDelete, g, t, node, Joining(p), Some(p), now) == UpToDate
  {
    hide Render, WithJoinOption, MountOpts, Command;
  }

  /** What the builder renders is built, and stays so in its v1 form when the image comes to support v2. */
  lemma RenderedIsBuilt(g: Group, t: Template, node: string, join: bool, v2: bool, at: Time)
    requires v2 ==> SupportsRestartArgs(t.image)
    ensures IsBuilt(NewWorker(g, t, node, join, v2, at), g, t, node)
  {
  }

  /** A smooth restart to the expected worker leaves a built worker built. */
  lemma RestartedIsBuilt(g: Group, t: Template, node: string, p: Pod, join: bool, now: Time)
    requires IsBuilt(p, g, t, node) && p.annotations.v2
    ensures IsBuilt(Restarted(p, NewCacheGroupWorker(g, t, node, join, now)), g, t, node)
  {
    hide Render, WithJoinOption, MountOpts;
    V2RenderIgnoresJoin(g, t, node, join, Joining(p));
  }

  /**
   For v2 workers under rolling updates: a smooth restart is chosen exactly for a live worker when only the join option
   differs, and a recreation exactly when the worker has stopped or anything else that shows in it differs. A worker
   that is being deleted is left alone.
   */
  lemma SmoothRestartExactly(g: Group, t: Template, node: string, j: bool, at: Time, p: Pod,
                             g': Group, t': Template, node': string, j': bool, now: Time)
    requires SupportsRestartArgs(t.image)
    requires SameBuild(p, NewCacheGroupWorker(g, t, node, j, at))
    ensures var same := SamePod(g, t, node, g', t', node');
      && (Decide(false, g', t', node', j', Some(p), now) == SmoothRestart <==> Alive(p) && same && j != j')
      && (Decide(false, g', t', node', j', Some(p), now) == Recreate <==> !p.deleting && (!Alive(p) || !same))
  {
    var v2' := SupportsRestartArgs(t'.image);
    V2HashExactly(g, t, node, j, g', t', node', j');
    if !v2' {
      assert Render(g', t', node', j', v2').v2 != Render(g, t, node, j, true).v2;
    } else if SamePod(g, t, node, g', t', node') {
      V2HashFixesOptions(g, t, node, j, g', t', node', j', at, now);
    }
    hide Render, WithJoinOption, MountOpts, Command, Script;
  }

  /**
   Under rolling updates a built, live worker of either form is recreated exactly when something of its template that
   shows in it has changed, and else left alone, as long as its join flag stays. For v1 workers this is said of options
   and volume names of one line.
   */
  lemma RecreatedExactly(g: Group, t: Template, t': Template, node: string, p: Pod, now: Time)
    requires IsBuilt(p, g, t, node) && Alive(p)
    ensures var action := Decide(false, g, t', node, Joining(p), Some(p), now);
      var same := SamePod(g, t, node, g, t', node);
      && (same ==> action == UpToDate)
      && (!same && (p.annotations.v2 || OneLine(g, t, t')) ==> action == Recreate)
  {
    if SamePod(g, t, node, g, t', node) {
      SameRender(g, t, node, t', Joining(p), p.annotations.v2);
    }
    if p.annotations.v2 {
      V2HashExactly(g, t, node, Joining(p), g, t', node, Joining(p));
    } else if OneLine(g, t, t') {
      V1HashExactly(g, t, node, t', Joining(p));
    }
    hide Render, MountOpts, Command, Script;
  }

  predicate OneLine(g: Group, t: Template, t': Template) {
    '\n' !in g.volName && '\n' !in MountOpts(g, t) && '\n' !in MountOpts(g, t')
  }

  lemma SameRender(g: Group, t: Template, node: string, t': Template, j: bool, v2: bool)
    requires SamePod(g, t, node, g, t', node)
    ensures Render(g, t, node, j, v2) == Render(g, t', node, j, v2)
  {
    CommandIs(g, t, j, v2);
    CommandIs(g, t', j, v2);
    hide Command, Script, MountOpts;
  }

  /**
   Under OnDelete no existing worker is ever recreated; it is restarted only to leave the join phase, and keeps its
   rendering.
   */
  lemma OnDeleteNeverReplaces(v1Hash: Rendering, want: Pod, p: Pod)
    ensures var action := UpdateAction(true, v1Hash, want, Some(p));
      && action != Recreate
      && (action == SmoothRestart ==>
            && !p.deleting && Joining(p) && !Joining(Restarted(p, want))
            && Restarted(p, want).annotations.hash == p.annotations.hash)
  {
  }

  /** Once a smooth restart was chosen and done, there is nothing left to do for the same expectation. */
  lemma RestartedIsUpToDate(onDelete: bool, v1Hash: Rendering, want: Pod, p: Pod)
    requires UpdateAction(onDelete, v1Hash, want, Some(p)) == SmoothRestart
    ensures UpdateAction(onDelete, v1Hash, want, Some(Restarted(p, want))) == UpToDate
  {
  }

  // ---------- entering the leave, and calling it off ----------

  /** The worker as it leaves: its options say so, and the time is noted. */
  function LeavingWorker(p: Pod, now: Time): Pod {
    var edited :=
      if !SupportsDecommission(p.image) then p.(command := GroupWeightCommand(p.command, "0"))
      else if p.annotations.v2 then
        p.(annotations := p.annotations.(mountOpts := DecommissionOpts(p.annotations.mountOpts)))
      else p.(command := DecommissionCommand(p.command));
    edited.(annotations := edited.annotations.(waitingAt := Some(Rfc3339(now))))
  }

  /** Nothing of the worker changes but its command or options, and the time is noted. */
  lemma LeavingKeeps(p: Pod, now: Time)
    ensures var l := LeavingWorker(p, now);
      && l == p.(command := l.command,
                 annotations := p.annotations.(mountOpts := l.annotations.mountOpts, waitingAt := Some(Rfc3339(now))))
      && (l.annotations.mountOpts != p.annotations.mountOpts ==> p.annotations.v2)
  {
  }

  /**
   A built worker whose image knows decommission leaves with its options but the commission, and with a decommission
   unless it is there; so in both forms.
   */
  lemma LeavesByDecommission(g: Group, t: Template, node: string, j: bool, v2: bool, at: Time, p: Pod, now: Time)
    requires SameBuild(p, NewWorker(g, t, node, j, v2, at)) && SupportsDecommission(t.image)
    requires Plain(g.volName) && ',' !in g.volName && PlainOptions(OptionList(g.cacheGroup, t.opts, t.cacheDirs))
    ensures ParseWorkerMountInfo(LeavingWorker(p, now))
            == Some((g.volName, LeavingFields(DropCommission(JoinedOptionList(g, t, j)))))
  {
    var opts := JoinedOptionList(g, t, j);
    JoinedPlain(g, t, j);
    JoinedOptionListIs(g, t, j);
    JoinOptionsPlain(opts);
    DecommissionFields(Join(opts, ','));
    hide OptionList, ParseMountCmds, ShellCommand, Join, Split, DecommissionOpts, DecommissionCommand, MountOpts,
      JoinedOptionList, LeavingFields, DropCommission, Contains, WithJoinOption;
    if v2 {
      OptsFilePlain();
      V2CommandVolume(g.authCmd, t.deviceCmds, g.volName, OPTS_FILE);
    } else {
      LeavingV1MatchesV2(g.authCmd, t.deviceCmds, g.volName, opts);
    }
  }

  lemma JoinedPlain(g: Group, t: Template, j: bool)
    requires PlainOptions(OptionList(g.cacheGroup, t.opts, t.cacheDirs))
    ensures PlainOptions(JoinedOptionList(g, t, j)) && JoinedOptionList(g, t, j)[0] == "foreground"
    ensures !IsCommission(JoinedOptionList(g, t, j)[0])
  {
    FirstOption(g.cacheGroup, t.opts, t.cacheDirs);
    ForegroundIsNoCommission();
    JoinOptionNamePlain(t.image);
    hide OptionList, JoinOptionName, IsCommission, Plain;
    var opts, all := OptionList(g.cacheGroup, t.opts, t.cacheDirs), JoinedOptionList(g, t, j);
    forall i | 0 <= i < |all| ensures Plain(all[i]) && ',' !in all[i] {
      assert i < |opts| ==> all[i] == opts[i];
    }
  }

  lemma ForegroundIsNoCommission()
    ensures !IsCommission("foreground")
  {
    CutPlain("foreground", '=');
    hide CutAt;
    assert |"foreground"| == |"commission"| && "foreground"[0] != "commission"[0];
  }

  lemma FirstOption(cacheGroup: string, opts: seq<string>, cacheDirs: seq<string>)
    ensures OptionList(cacheGroup, opts, cacheDirs)[0] == "foreground"
  {
    var base := BaseOptions(cacheGroup);
    var all := AppendOptions(base, ParsedOptions(opts));
    assert all[..|base|] == base && all[0] == base[0];
    hide AppendOptions, ParsedOptions, Join;
  }

  lemma WeightCommand(g: Group, t: Template, node: string, j: bool, at: Time, p: Pod, now: Time)
    requires SameBuild(p, NewCacheGroupWorker(g, t, node, j, at)) && !SupportsDecommission(t.image)
    ensures p.command == ShellCommand(g.authCmd, t.deviceCmds, g.volName, V1Arg(Join(JoinedOptionList(g, t, j), ',')))
    ensures ParseWorkerMountInfo(LeavingWorker(p, now)) == ParseMountCmds(GroupWeightCommand(p.command, "0"))
  {
    JoinedOptionListIs(g, t, j);
    hide ParseMountCmds, ShellCommand, Join, Split, MountOpts, JoinedOptionList, WithJoinOption, GroupWeightCommand;
  }

  /** Other workers leave by a group weight of zero: it is appended when the command speaks of no weight. */
  lemma LeavesByWeight(g: Group, t: Template, node: string, j: bool, at: Time, p: Pod, now: Time)
    requires SameBuild(p, NewCacheGroupWorker(g, t, node, j, at)) && !SupportsDecommission(t.image)
    requires Plain(g.volName) && PlainOptions(OptionList(g.cacheGroup, t.opts, t.cacheDirs))
    requires !Contains(p.command, "group-weight")
    ensures ParseWorkerMountInfo(LeavingWorker(p, now))
            == Some((g.volName, JoinedOptionList(g, t, j) + ["group-weight=0"]))
  {
    JoinedPlain(g, t, j);
    WeightCommand(g, t, node, j, at, p, now);
    hide OptionList, ParseMountCmds, ShellCommand, Join, JoinedOptionList, Contains, GroupWeightCommand, LeavingWorker,
      ParseWorkerMountInfo, SameBuild;
    WeightAppended(g.authCmd, t.deviceCmds, g.volName, JoinedOptionList(g, t, j), "0");
    assert WEIGHT + "0" == "group-weight=0";
  }

  /** And it replaces the weight that one of the options sets. */
  lemma LeavesByWeightSet(g: Group, t: Template, node: string, j: bool, at: Time, p: Pod, now: Time,
                          before: seq<string>, digits: string, after: seq<string>)
    requires SameBuild(p, NewCacheGroupWorker(g, t, node, j, at)) && !SupportsDecommission(t.image)
    requires Plain(g.volName) && PlainOptions(OptionList(g.cacheGroup, t.opts, t.cacheDirs))
    requires JoinedOptionList(g, t, j) == before + ["group-weight=" + digits] + after
    requires digits != "" && forall c :: c in digits ==> IsDigit(c)
    requires var at := |CommandHead(g.authCmd, t.deviceCmds, g.volName) + TextBefore(before)|;
      NoWeight(p.command, 0, at) && NoWeight(TextAfter(after), 0, |TextAfter(after)|)
    ensures ParseWorkerMountInfo(LeavingWorker(p, now))
            == Some((g.volName, before + ["group-weight=0"] + after))
  {
    JoinedPlain(g, t, j);
    WeightCommand(g, t, node, j, at, p, now);
    hide OptionList, ParseMountCmds, ShellCommand, Join, JoinedOptionList, Contains, GroupWeightCommand, LeavingWorker,
      ParseWorkerMountInfo, SameBuild, NoWeight, CommandHead, TextBefore, TextAfter;
    WeightReplaced(g.authCmd, t.deviceCmds, g.volName, before, digits, after, "0");
    assert WEIGHT + "0" == "group-weight=0";
  }

  /** A v2 worker leaves by decommission, never by group weight: its command is left alone. */
  lemma V2LeavesByDecommission(g: Group, t: Template, node: string, j: bool, at: Time, p: Pod, now: Time)
    requires SupportsRestartArgs(t.image) && SameBuild(p, NewCacheGroupWorker(g, t, node, j, at))
    ensures LeavingWorker(p, now).command == p.command
    ensures LeavingWorker(p, now).annotations
            == p.annotations.(mountOpts := DecommissionOpts(p.annotations.mountOpts), waitingAt := Some(Rfc3339(now)))
  {
    hide Render, WithJoinOption, MountOpts, Command, DecommissionOpts;
  }

  predicate HasCommission(opts: string) {
    exists f :: f in Split(opts, ',') && IsCommission(f)
  }

  lemma CommissionIsCommission()
    ensures IsCommission("commission")
  {
    hide CutAt;
    assert '=' !in "commission";
    CutPlain("commission", '=');
  }

  lemma SplitJoined(opts: string, image: Image)
    requires CompareImage(image, V5_4_4) >= 0
    ensures Split(WithJoinOption(opts, image, true), ',') == Split(opts, ',') + ["commission"]
  {
    assert opts + "," + "commission" == opts + [','] + "commission";
    SplitAppend(opts, "commission", ',');
  }

  lemma DropFirst(fields: seq<string>)
    requires fields != []
    ensures DropCommission(fields)
            == (if IsCommission(fields[0]) then [] else [fields[0]]) + DropCommission(fields[1..])
  {
  }

  lemma {:induction false} DropAppended(fields: seq<string>, last: string)
    ensures DropCommission(fields + [last]) == DropCommission(fields) + if IsCommission(last) then [] else [last]
  {
    if fields != [] {
      DropAppended(fields[1..], last);
      assert (fields + [last])[1..] == fields[1..] + [last];
      DropFirst(fields);
      DropFirst(fields + [last]);
      hide DropCommission, IsCommission;
    } else {
      assert fields + [last] == [last];
    }
  }

  /** Joining or not, a leaving worker ends up with the same options. */
  lemma DecommissionForgetsJoin(opts: string, image: Image, join: bool)
    requires CompareImage(image, V5_4_4) >= 0
    ensures DecommissionOpts(WithJoinOption(opts, image, join)) == DecommissionOpts(opts)
  {
    if join {
      hide Split, Join, Contains, CutAt;
      CommissionIsCommission();
      SplitJoined(opts, image);
      DropAppended(Split(opts, ','), "commission");
      assert DropCommission(Split(opts, ',')) + [] == DropCommission(Split(opts, ','));
    }
  }

  /** When the options of a leaving worker are the expected ones, so that no restart would be noticed. */
  lemma LeavingOptionsExpected(opts: string, image: Image, join: bool)
    requires CompareImage(image, V5_4_4) >= 0
    ensures DecommissionOpts(opts) == WithJoinOption(opts, image, join)
            <==> !join && !HasCommission(opts) && Contains(opts, DECOMMISSION)
  {
    hide Split, Join, Contains, CutAt, DecommissionOpts;
    DecommissionFields(opts);
    if join {
      CommissionIsCommission();
      SplitJoined(opts, image);
      var fields := Split(opts, ',') + ["commission"];
      assert fields[|Split(opts, ',')|] in fields;
    } else if !HasCommission(opts) {
      DecommissionChanges(opts);
    }
  }

  /** A v2 worker of the template that has entered the leave; others may have changed its foreign annotations. */
  predicate LeftFrom(p: Pod, g: Group, t: Template, node: string, j: bool, at: Time, leftAt: Time) {
    var built := NewCacheGroupWorker(g, t, node, j, at);
    && SupportsRestartArgs(t.image) && Alive(p)
    && OwnPart(p.annotations.others) == OwnPart(t.annotations)
    && SameBuild(p, built.(annotations := built.annotations.(
         mountOpts := DecommissionOpts(built.annotations.mountOpts), waitingAt := Some(Rfc3339(leftAt)))))
  }

  /** The smooth restart that enters the leave brings a built worker there. */
  lemma EnteringLeave(before: Pod, g: Group, t: Template, node: string, j: bool, at: Time, leftAt: Time)
    requires SupportsRestartArgs(t.image) && Alive(before)
    requires OwnPart(before.annotations.others) == OwnPart(t.annotations)
    requires SameBuild(before, NewCacheGroupWorker(g, t, node, j, at))
    ensures LeftFrom(Restarted(before, LeavingWorker(before, leftAt)), g, t, node, j, at, leftAt)
  {
    hide Render, WithJoinOption, MountOpts, Command, DecommissionOpts;
    SupportsIsAtLeast(t.image);
    var m := before.annotations.others;
    assert OwnPart(OwnPart(m) + ForeignPart(m)) == OwnPart(m);
  }

  /** The command of a v1 worker holds the join option. */
  lemma CommandsDiffer(g: Group, t: Template)
    ensures Command(g, t, true, false) != Command(g, t, false, false)
  {
    var m := MountOpts(g, t);
    JoinOptionLength(m, t.image, true);
    hide MountOpts, JoinOptionName;
    var a, b := WithJoinOption(m, t.image, true), WithJoinOption(m, t.image, false);
    LongerCommand(g.authCmd, t.deviceCmds, g.volName, V1Arg(a), V1Arg(b));
  }

  /** The argument ends the script, so scripts that agree elsewhere differ with it. */
  lemma LongerCommand(authCmd: string, deviceCmds: seq<string>, volName: string, a: string, b: string)
    requires a != b
    ensures ShellCommand(authCmd, deviceCmds, volName, a) != ShellCommand(authCmd, deviceCmds, volName, b)
  {
    MountLineIs(volName, a);
    MountLineIs(volName, b);
    hide Join, MountLine;
    var lines := [authCmd] + deviceCmds;
    JoinAppend(lines, MountLine(volName, a), '\n');
    JoinAppend(lines, MountLine(volName, b), '\n');
    var head := Join(lines, '\n') + ['\n'] + MountPrefix(volName);
    assert ShellCommand(authCmd, deviceCmds, volName, a) == head + a;
    assert ShellCommand(authCmd, deviceCmds, volName, b) == head + b;
    assert (head + a)[|head|..] == a && (head + b)[|head|..] == b;
  }

  lemma V2RenderIgnoresJoin(g: Group, t: Template, node: string, j: bool, j': bool)
    ensures Render(g, t, node, j, true) == Render(g, t, node, j', true)
  {
  }

  /**
   A called-off leave under rolling updates. The worker is restarted smoothly exactly when its leaving options are not
   the expected ones; otherwise, for a template that already spells a decommission, nothing happens and the leave
   mark stays. After the restart the juicefs.io annotations are exactly the expected ones, the leave mark is gone, and
   the foreign annotations are untouched.
   */
  lemma CalledOffLeave(p: Pod, g: Group, t: Template, node: string, j: bool, at: Time, leftAt: Time, j': bool,
                       now: Time)
    requires LeftFrom(p, g, t, node, j, at, leftAt)
    ensures Leaving(p)
    ensures var m := MountOpts(g, t);
      var want := NewCacheGroupWorker(g, t, node, j', now);
      var action := Decide(false, g, t, node, j', Some(p), now);
      && action != Recreate
      && (action == SmoothRestart <==> j' || HasCommission(m) || !Contains(m, DECOMMISSION))
      && (action == SmoothRestart ==>
            && Restarted(p, want).annotations
               == want.annotations.(others := OwnPart(t.annotations) + ForeignPart(p.annotations.others))
            && !Leaving(Restarted(p, want))
            && Decide(false, g, t, node, j', Some(Restarted(p, want)), now) == UpToDate)
  {
    hide DecommissionOpts, WithJoinOption, HasCommission, Contains, MountOpts, Command, Render;
    var m := MountOpts(g, t);
    SupportsIsAtLeast(t.image);
    DecommissionForgetsJoin(m, t.image, j);
    LeavingOptionsExpected(m, t.image, j');
    V2RenderIgnoresJoin(g, t, node, j, j');
    var want := NewCacheGroupWorker(g, t, node, j', now);
    if Decide(false, g, t, node, j', Some(p), now) == SmoothRestart {
      RestartedIsUpToDate(false, V1WorkerHash(g, t, node, j'), want, p);
    }
  }

  lemma SupportsIsAtLeast(image: Image)
    requires SupportsRestartArgs(image)
    ensures CompareImage(image, V5_4_4) >= 0 && SupportsDecommission(image)
  {
  }

  /**
   A called-off leave under OnDelete. The worker is restarted exactly when it was joining and should not join any more;
   only then are its annotations the expected ones again and the leave mark gone. Otherwise the mark stays.
   */
  lemma CalledOffOnDelete(p: Pod, g: Group, t: Template, node: string, j: bool, at: Time, leftAt: Time, j': bool,
                          now: Time)
    requires LeftFrom(p, g, t, node, j, at, leftAt)
    ensures Leaving(p)
    ensures var want := NewCacheGroupWorker(g, t, node, j', now);
      && Decide(true, g, t, node, j', Some(p), now) == (if j && !j' then SmoothRestart else UpToDate)
      && !Leaving(Restarted(p, want))
      && Restarted(p, want).annotations
         == want.annotations.(others := OwnPart(t.annotations) + ForeignPart(p.annotations.others))
  {
    hide DecommissionOpts, WithJoinOption, MountOpts, Command, Render;
    V2RenderIgnoresJoin(g, t, node, j, j');
  }

  /**
   A called-off leave of a v1 worker, exactly. Its hash holds the join option and not the leave, so it is recreated,
   and the leave mark goes, exactly under rolling updates when the join option changed since it was built; otherwise
   nothing happens and the mark stays.
   */
  lemma CalledOffV1(onDelete: bool, before: Pod, p: Pod, g: Group, t: Template, node: string, j: bool, at: Time,
                    leftAt: Time, j': bool, now: Time)
    requires SameBuild(before, NewWorker(g, t, node, j, false, at)) && Alive(p)
    requires SameBuild(p, LeavingWorker(before, leftAt))
    ensures Leaving(p) && !Leaving(NewCacheGroupWorker(g, t, node, j', now))
    ensures Decide(onDelete, g, t, node, j', Some(p), now) == if !onDelete && j != j' then Recreate else UpToDate
  {
    CommandsDiffer(g, t);
    hide WithJoinOption, MountOpts, Command, DecommissionCommand, GroupWeightCommand;
  }
}
