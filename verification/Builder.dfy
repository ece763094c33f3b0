/**
 Rendering a worker pod from its template, in the v1 template (options in the command) or v2 (options in an
 annotation).
 */
module Builder {
  import opened Wrappers
  import opened Text
  import opened Kube
  import opened MountOptions

  function MountOpts(g: Group, t: Template): string {
    Join(OptionList(g.cacheGroup, t.opts, t.cacheDirs), ',')
  }

  function JoinOptionName(image: Image): string {
    if CompareImage(image, V5_4_4) >= 0 then "commission" else "group-backup"
  }

  function WithJoinOption(opts: string, image: Image, join: bool): string {
    if join then opts + "," + JoinOptionName(image) else opts
  }

  function Command(g: Group, t: Template, join: bool, v2: bool): string {
    ShellCommand(g.authCmd, t.deviceCmds, g.volName,
                 if v2 then V2Arg(OPTS_FILE) else V1Arg(WithJoinOption(MountOpts(g, t), t.image, join)))
  }

  /** The pod as hashed: the join option takes part for v1 only, where it is in the command. */
  function Render(g: Group, t: Template, node: string, join: bool, v2: bool): Rendering {
    Rendering(PodName(g, node), node, t.image, Command(g, t, join, v2), v2,
              if v2 then MountOpts(g, t) else "", t.delay, t.annotations, g.replicas, g.scheduling, t.rest)
  }

  function NewWorker(g: Group, t: Template, node: string, join: bool, v2: bool, now: Time): Pod {
    Pod(
      name := PodName(g, node),
      nodeName := if g.replicas || g.scheduling then "" else node,
      image := t.image,
      command := Command(g, t, join, v2),
      delay := t.delay,
      annotations := Annotations(
        joinedAt := if join then Some(Rfc3339(now)) else None,
        waitingAt := None,
        hash := Some(Render(g, t, node, join, v2)),
        v2 := v2,
        mountOpts := if v2 then WithJoinOption(MountOpts(g, t), t.image, join) else "",
        others := t.annotations),
      ready := false,
      deleting := false,
      phase := PodPending)
  }

  /** The worker of a template: v2 when the image takes new mount options during a smooth restart. */
  function NewCacheGroupWorker(g: Group, t: Template, node: string, join: bool, now: Time): Pod {
    NewWorker(g, t, node, join, SupportsRestartArgs(t.image), now)
  }

  /** The hash of the v1 rendering, for workers that still are v1. */
  function V1WorkerHash(g: Group, t: Template, node: string, join: bool): Rendering {
    Render(g, t, node, join, false)
  }

  /** Two pods that agree on all the builder sets, apart from annotations anybody may edit. */
  predicate SameBuild(p: Pod, q: Pod) {
    && p.name == q.name && p.image == q.image && p.command == q.command && p.delay == q.delay
    && p.annotations == q.annotations.(others := p.annotations.others)
  }

  /** The join option is commission from version 5.4.4 on, and group-backup before. */
  lemma JoinOptionIs(image: Image)
    ensures JoinOptionName(image) == if AtLeast(image, [5, 4, 4]) then "commission" else "group-backup"
  {
    AtLeastExactly(image, [5, 4, 4]);
  }

  /**
   A worker as it is created: bound to its node unless the scheduler binds it or it is named by replica, pending, not
   ready, not leaving, with a join mark of the present second exactly when it joins, and with its options in an
   annotation only in the v2 form.
   */
  lemma WorkerAsBuilt(g: Group, t: Template, node: string, join: bool, v2: bool, now: Time)
    ensures var p := NewWorker(g, t, node, join, v2, now);
      && p.nodeName == (if g.replicas || g.scheduling then "" else node)
      && p.phase == PodPending && !p.ready && !p.deleting && !Leaving(p)
      && p.annotations.joinedAt == (if join then Some(Rfc3339(now)) else None)
      && (p.delay, p.image, p.annotations.others) == (t.delay, t.image, t.annotations)
      && (p.annotations.mountOpts != "" ==> v2)
  {
  }

  lemma JoinOptionLength(opts: string, image: Image, join: bool)
    ensures WithJoinOption(opts, image, join) == opts <==> !join
  {
    if join {
      assert |WithJoinOption(opts, image, join)| > |opts|;
    }
  }

  // ---------- what the hash covers ----------

  /** The script of a worker up to the options argument: the auth command, the device-mount scripts, the mount. */
  function Script(g: Group, t: Template): string {
    Join([g.authCmd] + t.deviceCmds, '\n') + ['\n'] + MountPrefix(g.volName)
  }

  /** Everything of group, template and node that shows in a worker, apart from the join option. */
  predicate SamePod(g: Group, t: Template, node: string, g': Group, t': Template, node': string) {
    && PodName(g, node) == PodName(g', node') && node == node'
    && t.image == t'.image && Script(g, t) == Script(g', t') && MountOpts(g, t) == MountOpts(g', t')
    && t.delay == t'.delay && t.annotations == t'.annotations && t.rest == t'.rest
    && g.replicas == g'.replicas && g.scheduling == g'.scheduling
  }

  lemma CommandIs(g: Group, t: Template, join: bool, v2: bool)
    ensures Command(g, t, join, v2)
            == Script(g, t) + if v2 then V2Arg(OPTS_FILE) else V1Arg(WithJoinOption(MountOpts(g, t), t.image, join))
  {
    hide Join, MountLine, MountOpts, WithJoinOption, V1Arg, V2Arg, MountPrefix;
    var arg := if v2 then V2Arg(OPTS_FILE) else V1Arg(WithJoinOption(MountOpts(g, t), t.image, join));
    var head := Join([g.authCmd] + t.deviceCmds, '\n');
    MountLineIs(g.volName, arg);
    JoinAppend([g.authCmd] + t.deviceCmds, MountLine(g.volName, arg), '\n');
    assert head + ['\n'] + (MountPrefix(g.volName) + arg) == head + ['\n'] + MountPrefix(g.volName) + arg;
  }

  lemma SameTail(a: string, b: string, tail: string)
    requires a + tail == b + tail
    ensures a == b
  {
    assert (a + tail)[..|a|] == a && (b + tail)[..|b|] == b;
  }

  /** Two v2 workers have the same hash exactly when everything that shows in them is the same. */
  lemma V2HashExactly(g: Group, t: Template, node: string, j: bool, g': Group, t': Template, node': string, j': bool)
    ensures Render(g, t, node, j, true) == Render(g', t', node', j', true) <==> SamePod(g, t, node, g', t', node')
  {
    CommandIs(g, t, j, true);
    CommandIs(g', t', j', true);
    hide Command, Script, MountOpts, V2Arg, PodName;
    if Script(g, t) + V2Arg(OPTS_FILE) == Script(g', t') + V2Arg(OPTS_FILE) {
      SameTail(Script(g, t), Script(g', t'), V2Arg(OPTS_FILE));
    }
  }

  /** Two texts that end in one line each are the same exactly when both parts are. */
  lemma SameLastLine(a: string, x: string, b: string, y: string)
    requires '\n' !in x && '\n' !in y && a + ['\n'] + x == b + ['\n'] + y
    ensures a == b && x == y
  {
    SplitAppend(a, x, '\n');
    SplitAppend(b, y, '\n');
    var lines := Split(a, '\n') + [x];
    assert lines == Split(b, '\n') + [y];
    assert x == lines[|lines| - 1] == y;
    assert a + (['\n'] + x) == a + ['\n'] + x && b + (['\n'] + x) == b + ['\n'] + x;
    SameTail(a, b, ['\n'] + x);
  }

  /**
   Two v1 workers of a group whose options are one line have the same hash for the same join option exactly when
   everything that shows in them is the same: their options are in the command.
   */
  lemma V1HashExactly(g: Group, t: Template, node: string, t': Template, j: bool)
    requires '\n' !in g.volName && '\n' !in MountOpts(g, t) && '\n' !in MountOpts(g, t')
    ensures Render(g, t, node, j, false) == Render(g, t', node, j, false) <==> SamePod(g, t, node, g, t', node)
  {
    CommandIs(g, t, j, false);
    CommandIs(g, t', j, false);
    hide MountOpts, PodName, Join;
    if Command(g, t, j, false) == Command(g, t', j, false) && t.image == t'.image {
      SameV1Command(g, t, t', j);
    }
  }

  lemma SameJoined(m: string, m': string, image: Image, j: bool)
    requires WithJoinOption(m, image, j) == WithJoinOption(m', image, j)
    ensures m == m'
  {
    hide JoinOptionName;
    if j {
      var tail := "," + JoinOptionName(image);
      assert WithJoinOption(m, image, j) == m + tail && WithJoinOption(m', image, j) == m' + tail;
      SameTail(m, m', tail);
    }
  }

  lemma JoinedOneLine(m: string, image: Image, j: bool)
    requires '\n' !in m
    ensures '\n' !in WithJoinOption(m, image, j)
  {
    JoinOptionNamePlain(image);
  }

  lemma SameArg(prefix: string, o: string, o': string)
    requires prefix + V1Arg(o) == prefix + V1Arg(o')
    ensures o == o'
  {
    assert (prefix + V1Arg(o))[|prefix|..] == V1Arg(o) && (prefix + V1Arg(o'))[|prefix|..] == V1Arg(o');
    assert V1Arg(o)[3..] == o && V1Arg(o')[3..] == o';
  }

  lemma SameV1Command(g: Group, t: Template, t': Template, j: bool)
    requires '\n' !in g.volName && '\n' !in MountOpts(g, t) && '\n' !in MountOpts(g, t')
    requires Command(g, t, j, false) == Command(g, t', j, false) && t.image == t'.image
    ensures Script(g, t) == Script(g, t') && MountOpts(g, t) == MountOpts(g, t')
  {
    V1CommandIs(g, t, j);
    V1CommandIs(g, t', j);
    JoinedOneLine(MountOpts(g, t), t.image, j);
    JoinedOneLine(MountOpts(g, t'), t.image, j);
    hide MountOpts, Join, Command, V1Arg, MountPrefix, WithJoinOption, Plain;
    var o, o' := WithJoinOption(MountOpts(g, t), t.image, j), WithJoinOption(MountOpts(g, t'), t.image, j);
    var d, d' := Join([g.authCmd] + t.deviceCmds, '\n'), Join([g.authCmd] + t'.deviceCmds, '\n');
    MountLineStart(g.volName, o);
    MountLineStart(g.volName, o');
    SameLastLine(d, MountPrefix(g.volName) + V1Arg(o), d', MountPrefix(g.volName) + V1Arg(o'));
    SameArg(MountPrefix(g.volName), o, o');
    SameJoined(MountOpts(g, t), MountOpts(g, t'), t.image, j);
  }

  lemma V1CommandIs(g: Group, t: Template, j: bool)
    ensures Command(g, t, j, false)
            == Join([g.authCmd] + t.deviceCmds, '\n') + ['\n']
               + (MountPrefix(g.volName) + V1Arg(WithJoinOption(MountOpts(g, t), t.image, j)))
  {
    CommandIs(g, t, j, false);
    hide Command, Join, MountPrefix, V1Arg, WithJoinOption, MountOpts;
    var d, p, a := Join([g.authCmd] + t.deviceCmds, '\n'), MountPrefix(g.volName),
      V1Arg(WithJoinOption(MountOpts(g, t), t.image, j));
    assert d + ['\n'] + p + a == d + ['\n'] + (p + a);
  }

  lemma MountLineStart(volName: string, o: string)
    requires '\n' !in volName && '\n' !in o
    ensures '\n' !in MountPrefix(volName) + V1Arg(o)
  {
  }

  /** For a plain volume name and scripts of one line each, the script text fixes them all. */
  lemma ScriptExactly(g: Group, t: Template, g': Group, t': Template)
    requires Plain(g.volName) && Plain(g'.volName)
    requires Lacks([g.authCmd] + t.deviceCmds, '\n') && Lacks([g'.authCmd] + t'.deviceCmds, '\n')
    ensures Script(g, t) == Script(g', t') <==>
      g.authCmd == g'.authCmd && t.deviceCmds == t'.deviceCmds && g.volName == g'.volName
  {
    var a, b := [g.authCmd] + t.deviceCmds, [g'.authCmd] + t'.deviceCmds;
    if Script(g, t) == Script(g', t') {
      SameLastLine(Join(a, '\n'), MountPrefix(g.volName), Join(b, '\n'), MountPrefix(g'.volName));
      SplitJoin(a, '\n');
      SplitJoin(b, '\n');
      assert a[0] == b[0] && a[1..] == t.deviceCmds && b[1..] == t'.deviceCmds;
      MountPrefixFixes(g.volName, g'.volName);
    }
  }

  lemma MountPrefixFixes(v: string, v': string)
    requires Plain(v) && Plain(v') && MountPrefix(v) == MountPrefix(v')
    ensures v == v'
  {
    assert MountPrefix(v) + "" == MountPrefix(v) && MountPrefix(v') + "" == MountPrefix(v');
    SplitFive("exec", MOUNT_BINARY, v, MOUNT_POINT, "");
    SplitFive("exec", MOUNT_BINARY, v', MOUNT_POINT, "");
    hide Split;
    var words, words' := ["exec", MOUNT_BINARY, v, MOUNT_POINT], ["exec", MOUNT_BINARY, v', MOUNT_POINT];
    assert words + Split("", ' ') == words' + Split("", ' ');
    assert (words + Split("", ' '))[2] == v && (words' + Split("", ' '))[2] == v';
  }

  /** Everything but the join option of a v2 worker is settled by its hash. */
  lemma V2HashFixesOptions(g: Group, t: Template, node: string, j: bool, g': Group, t': Template, node': string,
                           j': bool, at: Time, now: Time)
    requires Render(g, t, node, j, true) == Render(g', t', node', j', true)
    ensures (NewWorker(g, t, node, j, true, at).annotations.mountOpts
             == NewWorker(g', t', node', j', true, now).annotations.mountOpts)
            <==> j == j'
  {
    JoinOptionLength(MountOpts(g, t), t.image, j);
    JoinOptionLength(MountOpts(g, t), t.image, j');
  }

  /**
   The options of a built worker are read back whole: volume name and option list of a v1 worker from its command,
   whatever device-mount scripts come before the mount line, and those of a v2 worker from command and annotation.
   */
  function ParseWorkerMountInfo(p: Pod): Option<(string, seq<string>)> {
    match ParseMountCmds(p.command)
    case None => None
    case Some(parsed) => Some(if p.annotations.v2 then (parsed.0, Split(p.annotations.mountOpts, ',')) else parsed)
  }

  function JoinedOptionList(g: Group, t: Template, join: bool): seq<string> {
    OptionList(g.cacheGroup, t.opts, t.cacheDirs) + if join then [JoinOptionName(t.image)] else []
  }

  lemma JoinedOptionListIs(g: Group, t: Template, join: bool)
    ensures Join(JoinedOptionList(g, t, join), ',') == WithJoinOption(MountOpts(g, t), t.image, join)
  {
    hide Join, OptionList;
    var opts := OptionList(g.cacheGroup, t.opts, t.cacheDirs);
    if join {
      OptionListNonempty(g, t);
      JoinAppend(opts, JoinOptionName(t.image), ',');
      assert Join(opts, ',') + [','] + JoinOptionName(t.image) == Join(opts, ',') + "," + JoinOptionName(t.image);
    } else {
      assert opts + [] == opts;
    }
  }

  lemma OptionListNonempty(g: Group, t: Template)
    ensures |OptionList(g.cacheGroup, t.opts, t.cacheDirs)| >= 1
  {
  }

  lemma BuiltWorkerRoundTrip(g: Group, t: Template, node: string, join: bool, v2: bool, now: Time)
    requires Plain(g.volName) && PlainOptions(OptionList(g.cacheGroup, t.opts, t.cacheDirs))
    ensures ParseWorkerMountInfo(NewWorker(g, t, node, join, v2, now))
        == Some((g.volName, JoinedOptionList(g, t, join)))
  {
    hide OptionList, ParseMountCmds, ShellCommand, Join, Split;
    var opts := JoinedOptionList(g, t, join);
    JoinOptionNamePlain(t.image);
    JoinedOptionListIs(g, t, join);
    if v2 {
      OptsFilePlain();
      V2CommandVolume(g.authCmd, t.deviceCmds, g.volName, OPTS_FILE);
      JoinOptionsPlain(opts);
    } else {
      V1CommandRoundTrip(g.authCmd, t.deviceCmds, g.volName, opts);
    }
  }

  lemma JoinOptionNamePlain(image: Image)
    ensures Plain(JoinOptionName(image)) && ',' !in JoinOptionName(image)
  {
  }

  lemma OptsFilePlain()
    ensures '\n' !in OPTS_FILE
  {
  }
}
