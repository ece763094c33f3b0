/** The mount of a warm-up job: the options it takes over from a worker, and the ones a user may add. */
module Warmup {
  import opened Wrappers
  import opened Text
  import opened Names
  import opened Kube
  import opened MountOptions
  import opened Builder
  import opened Update

  function IgnoredKeys(): seq<string> {
    ["foreground", "cache-size", "free-space-ratio", "group-weight", "cache-dir", "group-backup", "commission",
     "decommission", "cache-group", "no-sharing", "log", "no-syslog"]
  }

  function KeyOf(opt: string): string {
    CutAt(opt, '=').0
  }

  predicate Ignored(key: string) {
    key in IgnoredKeys()
  }

  const FIXED := 5

  function FixedKey(i: nat): string
    requires i < FIXED
  {
    if i == 0 then "cache-group" else if i == 1 then "no-sharing" else if i == 2 then "cache-size" else if i == 3
        then "log" else "no-syslog"
  }

  function FixedValue(i: nat, cacheGroup: string): string
    requires i < FIXED
  {
    if i == 0 then cacheGroup else if i == 2 then "0" else if i == 3 then "/dev/stdout" else ""
  }

  /** The options every job has: its cache group, no-sharing, cache-size=0, log=/dev/stdout, no-syslog. */
  function FixedOpt(i: nat, cacheGroup: string): string
    requires i < FIXED
  {
    if i == 1 || i == 4 then FixedKey(i) else FixedKey(i) + "=" + FixedValue(i, cacheGroup)
  }

  function BaseOpts(cacheGroup: string): seq<string> {
    seq(FIXED, i requires 0 <= i < FIXED => FixedOpt(i, cacheGroup))
  }

  /** The worker's options outside the ignored keys, in order. */
  function Inherited(opts: seq<string>): (r: seq<string>)
    ensures forall o :: o in r <==> o in opts && !Ignored(KeyOf(o))
  {
    if opts == [] then []
    else
      var last := opts[|opts| - 1];
      assert opts == opts[..|opts| - 1] + [last];
      Inherited(opts[..|opts| - 1]) + if Ignored(KeyOf(last)) then [] else [last]
  }

  function KeysOf(opts: seq<string>): set<string> {
    set o | o in opts && KeyOf(o) != "" :: KeyOf(o)
  }

  function PrintPair(pair: (string, string)): string {
    if pair.1 != "" then pair.0 + "=" + pair.1 else pair.0
  }

  /** The user's options that are added: not ignored, and the first of a key that is not there yet. */
  function Added(base: seq<string>, parsed: seq<(string, string)>): seq<string> {
    if parsed == [] then []
    else
      var init := Added(base, parsed[..|parsed| - 1]);
      var pair := parsed[|parsed| - 1];
      if pair.0 == "" || Ignored(pair.0) || pair.0 in KeysOf(base + init) then init else init + [PrintPair(pair)]
  }

  predicate PlainKeys(parsed: seq<(string, string)>) {
    forall i :: 0 <= i < |parsed| ==> '=' !in parsed[i].0
  }

  lemma KeyOfPrinted(pair: (string, string))
    requires '=' !in pair.0
    ensures KeyOf(PrintPair(pair)) == pair.0
  {
    if pair.1 != "" {
      CutIs(pair.0, pair.1);
    }
  }

  lemma {:induction false} TrimKeeps(s: string, c: char)
    requires c !in s
    ensures c !in TrimLeft(s) && c !in TrimRight(s)
    decreases |s|
  {
    if s != "" {
      TrimKeeps(s[1..], c);
      TrimKeeps(s[..|s| - 1], c);
    }
  }

  lemma {:induction false} ParsedPlain(options: seq<string>)
    ensures PlainKeys(ParsedOptions(options))
    ensures forall p :: p in ParsedOptions(options) ==> p.0 != ""
  {
    if options != [] {
      ParsedPlain(options[..|options| - 1]);
      var k := CutAt(TrimSpace(options[|options| - 1]), '=').0;
      TrimKeeps(k, '=');
      TrimKeeps(TrimLeft(k), '=');
    }
  }

  lemma KeysOfMore(opts: seq<string>, opt: string)
    ensures KeysOf(opts + [opt]) == KeysOf(opts) + if KeyOf(opt) == "" then {} else {KeyOf(opt)}
  {
    forall k ensures k in KeysOf(opts + [opt]) <==> k in KeysOf(opts) || (KeyOf(opt) != "" && k == KeyOf(opt)) {
      if k in KeysOf(opts) {
        var o :| o in opts && KeyOf(o) != "" && KeyOf(o) == k;
        assert o in opts + [opt];
      }
      if KeyOf(opt) != "" && k == KeyOf(opt) {
        assert opt in opts + [opt];
      }
    }
  }

  method AppendWarmupMountOpts(base: seq<string>, extra: seq<string>) returns (r: seq<string>)
    ensures r == base + Added(base, ParsedOptions(extra))
  {
    hide KeysOf, KeyOf, Ignored, PrintPair, ParsedOptions;
    var existing: set<string> := {};
    NoKeys();
    for i := 0 to |base|
      invariant existing == KeysOf(base[..i])
    {
      KeysOfMore(base[..i], base[i]);
      assert base[..i + 1] == base[..i] + [base[i]];
      var key := KeyOf(base[i]);
      if key == "" {
        continue;
      }
      existing := existing + {key};
    }
    assert base[..|base|] == base;
    r := base;
    var parsed := ParseOptions(extra);
    ParsedPlain(extra);
    for i := 0 to |parsed|
      invariant r == base + Added(base, parsed[..i]) && existing == KeysOf(r)
    {
      assert parsed[..i + 1][..i] == parsed[..i];
      var key := parsed[i].0;
      if key == "" || Ignored(key) {
        continue;
      }
      if key in existing {
        continue;
      }
      var opt := PrintPair(parsed[i]);
      KeyOfPrinted(parsed[i]);
      KeysOfMore(r, opt);
      assert r + [opt] == base + (Added(base, parsed[..i]) + [opt]);
      r := r + [opt];
      existing := existing + {key};
    }
    assert parsed[..|parsed|] == parsed;
  }

  lemma NoKeys()
    ensures KeysOf([]) == {}
  {
  }

  // ---------- the mount of the job ----------

  datatype MountInfo = MountInfo(authCmd: string, volName: string, mountOpts: seq<string>)

  function FirstLine(s: string): string {
    Split(s, '\n')[0]
  }

  /** The mount when the options of a worker are known. */
  function InfoFrom(cacheGroup: string, authCmd: string, volName: string, opts: seq<string>,
                    mountOptions: seq<string>): MountInfo {
    var base := BaseOpts(cacheGroup) + Inherited(opts);
    MountInfo(authCmd, volName, base + Added(base, ParsedOptions(mountOptions)))
  }

  /** None where the source panics on the worker's command; without a worker the secret gives command and volume. */
  function MountInfoOf(cacheGroup: string, worker: Option<Pod>, secret: (string, string),
                       mountOptions: seq<string>): Option<MountInfo> {
    match worker
    case None => Some(InfoFrom(cacheGroup, secret.0, secret.1, [], mountOptions))
    case Some(p) =>
      match ParseWorkerMountInfo(p)
      case None => None
      case Some((volName, opts)) => Some(InfoFrom(cacheGroup, FirstLine(p.command), volName, opts, mountOptions))
  }

  lemma InheritedNext(opts: seq<string>, i: nat)
    requires i < |opts|
    ensures Inherited(opts[..i + 1]) == if Ignored(KeyOf(opts[i])) then Inherited(opts[..i])
        else Inherited(opts[..i]) + [opts[i]]
  {
    assert opts[..i + 1][..i] == opts[..i];
    assert Inherited(opts[..i]) + [] == Inherited(opts[..i]);
  }

  lemma NothingInherited(cacheGroup: string)
    ensures BaseOpts(cacheGroup) + Inherited([]) == BaseOpts(cacheGroup)
  {
  }

  method GetWarmUpMountInfo(cacheGroup: string, worker: Option<Pod>, secret: (string, string),
                            mountOptions: seq<string>)
    returns (info: Option<MountInfo>)
    ensures info == MountInfoOf(cacheGroup, worker, secret, mountOptions)
  {
    hide Added, Ignored, KeyOf, BaseOpts, Inherited, ParsedOptions, ParseWorkerMountInfo, FirstLine;
    NothingInherited(cacheGroup);
    var mountOpts := BaseOpts(cacheGroup);
    var authCmd, volName := secret.0, secret.1;
    if worker.Some? {
      authCmd := FirstLine(worker.value.command);
      var parsed := ParseWorkerMountInfo(worker.value);
      if parsed.None? {
        return None;
      }
      volName := parsed.value.0;
      var opts := parsed.value.1;
      for i := 0 to |opts|
        invariant mountOpts == BaseOpts(cacheGroup) + Inherited(opts[..i])
      {
        InheritedNext(opts, i);
        var opt := opts[i];
        if Ignored(KeyOf(opt)) {
          continue;
        }
        mountOpts := mountOpts + [opt];
      }
      assert opts[..|opts|] == opts;
    }
    mountOpts := AppendWarmupMountOpts(mountOpts, mountOptions);
    info := Some(MountInfo(authCmd, volName, mountOpts));
  }

  // ---------- the fixed options ----------

  lemma BaseOptsAre(cacheGroup: string)
    ensures BaseOpts(cacheGroup)
            == ["cache-group=" + cacheGroup, "no-sharing", "cache-size=0", "log=/dev/stdout", "no-syslog"]
  {
    assert "cache-group" + "=" + cacheGroup == "cache-group=" + cacheGroup;
    assert "cache-size" + "=" + "0" == "cache-size=0" && "log" + "=" + "/dev/stdout" == "log=/dev/stdout";
  }

  /** Without a worker the job mounts what the secret says, with the fixed options and the user's. */
  lemma JobWithoutWorker(cacheGroup: string, authCmd: string, volName: string, mountOptions: seq<string>)
    ensures var fixed := BaseOpts(cacheGroup);
      MountInfoOf(cacheGroup, None, (authCmd, volName), mountOptions)
      == Some(MountInfo(authCmd, volName, fixed + Added(fixed, ParsedOptions(mountOptions))))
  {
    NothingInherited(cacheGroup);
    hide BaseOpts, Added, ParsedOptions;
  }

  /** An added option prints as its key, or as its key and its value. */
  lemma PrintedPair(key: string, value: string)
    ensures PrintPair((key, value)) == key + if value == "" then "" else "=" + value
  {
    assert key + "" == key && key + "=" + value == key + ("=" + value);
  }

  lemma FixedOptKey(i: nat, cacheGroup: string)
    requires i < FIXED
    ensures KeyOf(FixedOpt(i, cacheGroup)) == FixedKey(i)
  {
    FixedKeyPlain(i);
    hide FixedKey, FixedValue;
    if i == 1 || i == 4 {
      CutPlain(FixedKey(i), '=');
    } else {
      CutIs(FixedKey(i), FixedValue(i, cacheGroup));
    }
  }

  lemma FixedKeyPlain(i: nat)
    requires i < FIXED
    ensures '=' !in FixedKey(i)
  {
  }

  /** The fixed keys are ignored ones, so neither a worker nor a user brings them. */
  lemma FixedKeyIgnored(i: nat)
    requires i < FIXED
    ensures Ignored(FixedKey(i))
  {
    var at := if i == 0 then 8 else if i == 1 then 9 else if i == 2 then 1 else if i == 3 then 10 else 11;
    assert IgnoredKeys()[at] == FixedKey(i);
  }

  lemma FixedKeysDistinct(i: nat, j: nat)
    requires i < FIXED && j < FIXED && FixedKey(i) == FixedKey(j)
    ensures i == j
  {
    FixedKeyShape(i);
    FixedKeyShape(j);
  }

  lemma FixedKeyShape(i: nat)
    requires i < FIXED
    ensures |FixedKey(i)| == if i == 0 then 11 else if i == 3 then 3 else if i == 4 then 9 else 10
    ensures FixedKey(i)[0] == if i == 1 || i == 4 then 'n' else if i == 3 then 'l' else 'c'
  {
  }

  /** No user option has an ignored key, or a key that is there already. */
  lemma {:induction false} AddedKeys(base: seq<string>, parsed: seq<(string, string)>)
    requires PlainKeys(parsed)
    ensures forall i :: 0 <= i < |Added(base, parsed)| ==> !Ignored(KeyOf(Added(base, parsed)[i]))
    ensures forall i :: 0 <= i < |Added(base, parsed)| ==> KeyOf(Added(base, parsed)[i]) !in KeysOf(base)
  {
    hide Ignored, KeysOf;
    if parsed != [] {
      var init, pair := parsed[..|parsed| - 1], parsed[|parsed| - 1];
      AddedKeys(base, init);
      KeyOfPrinted(pair);
      hide KeyOf;
      KeysOfPrefix(base, Added(base, init));
    }
  }

  lemma KeysOfPrefix(base: seq<string>, more: seq<string>)
    ensures KeysOf(base) <= KeysOf(base + more)
  {
    forall k | k in KeysOf(base) ensures k in KeysOf(base + more) {
      var o :| o in base && KeyOf(o) != "" && KeyOf(o) == k;
      assert o in base + more;
    }
  }

  /** Every fixed key occurs once, with its fixed value: neither the worker nor the user can change it. */
  lemma FixedOnce(cacheGroup: string, authCmd: string, volName: string, opts: seq<string>, mountOptions: seq<string>,
                  i: nat, b: nat)
    requires i < |InfoFrom(cacheGroup, authCmd, volName, opts, mountOptions).mountOpts| && b < FIXED
    ensures var all := InfoFrom(cacheGroup, authCmd, volName, opts, mountOptions).mountOpts;
      && |all| >= FIXED && all[b] == FixedOpt(b, cacheGroup)
      && (KeyOf(all[i]) == FixedKey(b) <==> i == b)
  {
    hide KeyOf, Inherited, Added, ParsedOptions, Ignored, FixedOpt, FixedKey;
    var all := InfoFrom(cacheGroup, authCmd, volName, opts, mountOptions).mountOpts;
    var inherited := Inherited(opts);
    var base := BaseOpts(cacheGroup) + inherited;
    var added := Added(base, ParsedOptions(mountOptions));
    ParsedPlain(mountOptions);
    AddedKeys(base, ParsedOptions(mountOptions));
    FixedKeyIgnored(b);
    if i >= |base| {
      assert all[i] == added[i - |base|];
    } else if i >= FIXED {
      assert all[i] == inherited[i - FIXED];
      assert all[i] in inherited;
    } else {
      FixedOptKey(i, cacheGroup);
      if FixedKey(i) == FixedKey(b) {
        FixedKeysDistinct(i, b);
      }
    }
  }

  // ---------- the user's options ----------

  /** The first entry of a key. */
  predicate FirstOf(parsed: seq<(string, string)>, i: int) {
    0 <= i < |parsed| && forall j :: 0 <= j < i ==> parsed[j].0 != parsed[i].0
  }

  lemma {:induction false} AddedHas(base: seq<string>, parsed: seq<(string, string)>, k: string)
    requires PlainKeys(parsed) && k != ""
    ensures k in KeysOf(base + Added(base, parsed)) <==>
              k in KeysOf(base) || (!Ignored(k) && exists i :: 0 <= i < |parsed| && parsed[i].0 == k)
  {
    hide Ignored, KeysOf;
    if parsed == [] {
      assert base + [] == base;
    } else {
      var n := |parsed| - 1;
      var init, pair := parsed[..n], parsed[n];
      AddedHas(base, init, k);
      KeyOfPrinted(pair);
      KeysOfMore(base + Added(base, init), PrintPair(pair));
      assert base + Added(base, init) + [PrintPair(pair)] == base + (Added(base, init) + [PrintPair(pair)]);
      assert (exists i :: 0 <= i < |parsed| && parsed[i].0 == k) <==>
          pair.0 == k || (exists i :: 0 <= i < n && init[i].0 == k) by {
        if i :| 0 <= i < |parsed| && parsed[i].0 == k && i < n {
          assert init[i].0 == k;
        }
        if i :| 0 <= i < n && init[i].0 == k {
          assert parsed[i].0 == k;
        }
      }
    }
  }

  /** A user option is added exactly when its key is neither ignored nor taken, and it is the first with that key. */
  lemma {:induction false} AddedExactly(base: seq<string>, parsed: seq<(string, string)>, o: string)
    requires PlainKeys(parsed) && forall p :: p in parsed ==> p.0 != ""
    ensures o in Added(base, parsed) <==>
              exists i :: FirstOf(parsed, i) && !Ignored(parsed[i].0) && parsed[i].0 !in KeysOf(base)
                  && o == PrintPair(parsed[i])
  {
    hide Ignored, KeysOf, PrintPair;
    if parsed != [] {
      var n := |parsed| - 1;
      var init, pair := parsed[..n], parsed[n];
      assert parsed == init + [pair];
      AddedExactly(base, init, o);
      AddedHas(base, init, pair.0);
      forall i | 0 <= i < n ensures FirstOf(parsed, i) <==> FirstOf(init, i) {
      }
      assert FirstOf(parsed, n) <==> !exists i :: 0 <= i < n && init[i].0 == pair.0;
      if o in Added(base, parsed) && o !in Added(base, init) {
        assert FirstOf(parsed, n);
      }
      if i :| FirstOf(parsed, i) && !Ignored(parsed[i].0) && parsed[i].0 !in KeysOf(base) && o == PrintPair(parsed[i]) {
        if i < n {
          assert FirstOf(init, i) && init[i] == parsed[i];
        }
      }
      if i :| FirstOf(init, i) && !Ignored(init[i].0) && init[i].0 !in KeysOf(base) && o == PrintPair(init[i]) {
        assert FirstOf(parsed, i) && init[i] == parsed[i];
      }
    }
  }

  // ---------- what a job takes over from a built worker ----------

  lemma {:induction false} FirstLineOf(head: string, rest: string)
    requires '\n' !in head
    ensures FirstLine(head + "\n" + rest) == head
  {
    assert head + "\n" + rest == head + ['\n'] + rest;
    SplitAtFirst(head, rest, '\n');
  }

  lemma InheritedDropsLast(opts: seq<string>, last: string)
    requires Ignored(KeyOf(last))
    ensures Inherited(opts + [last]) == Inherited(opts)
  {
    assert (opts + [last])[..|opts|] == opts;
    assert Inherited(opts) + [] == Inherited(opts);
  }

  lemma JoinOptionIgnored(image: Image)
    ensures Ignored(KeyOf(JoinOptionName(image)))
  {
    JoinOptionPlain(image);
    CutPlain(JoinOptionName(image), '=');
    JoinKeysIgnored();
    hide KeyOf, CompareImage, Ignored;
  }

  lemma JoinKeysIgnored()
    ensures Ignored("commission") && Ignored("group-backup")
  {
    var keys := IgnoredKeys();
    assert keys[5] == "group-backup" && keys[6] == "commission";
  }

  lemma JoinOptionPlain(image: Image)
    ensures '=' !in JoinOptionName(image)
  {
  }

  /**
   The job of a built worker mounts its volume with its credentials and takes over the options of its template outside
   the ignored keys, in order. Whether the worker joins, and which template it was built with, makes no difference.
   */
  lemma JobOfBuiltWorker(cacheGroup: string, g: Group, t: Template, node: string, join: bool, v2: bool, now: Time,
                         secret: (string, string), mountOptions: seq<string>)
    requires Plain(g.volName) && PlainOptions(OptionList(g.cacheGroup, t.opts, t.cacheDirs)) && '\n' !in g.authCmd
    ensures MountInfoOf(cacheGroup, Some(NewWorker(g, t, node, join, v2, now)), secret, mountOptions) ==
            Some(InfoFrom(cacheGroup, g.authCmd, g.volName, OptionList(g.cacheGroup, t.opts, t.cacheDirs),
                mountOptions))
  {
    hide OptionList, Inherited, ParseWorkerMountInfo, Added, Ignored;
    BuiltWorkerRoundTrip(g, t, node, join, v2, now);
    var p := NewWorker(g, t, node, join, v2, now);
    var opts := OptionList(g.cacheGroup, t.opts, t.cacheDirs);
    assert FirstLine(p.command) == g.authCmd by {
      hide FirstLine;
      var rest := t.deviceCmds + [MountLine(g.volName, if v2 then V2Arg(OPTS_FILE)
          else V1Arg(WithJoinOption(MountOpts(g, t), t.image, join)))];
      assert [g.authCmd] + t.deviceCmds + [rest[|rest| - 1]] == [g.authCmd] + rest;
      JoinCons(g.authCmd, rest, '\n');
      FirstLineOf(g.authCmd, Join(rest, '\n'));
      assert g.authCmd + "\n" + Join(rest, '\n') == g.authCmd + ['\n'] + Join(rest, '\n');
    }
    assert JoinedOptionList(g, t, join) == opts + if join then [JoinOptionName(t.image)] else [];
    if join {
      JoinOptionIgnored(t.image);
      InheritedDropsLast(opts, JoinOptionName(t.image));
    } else {
      assert opts + [] == opts;
    }
  }
}
