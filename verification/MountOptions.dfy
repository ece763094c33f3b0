/**
 The worker's mount options and its shell command: how the builder prints them, how the operator reads them
 back, and how it edits them when a worker leaves the group.
 */
module MountOptions {
  import opened Wrappers
  import opened Text

  const MOUNT_BINARY := "/sbin/mount.juicefs"
  const MOUNT_POINT := "/mnt/jfs"
  const OPTS_FILE := "/etc/juicefs-worker/mount-opts"

  // ---------- option lists ----------

  /** One entry of a template's option list: trimmed, cut at its first '='; `k=` and empty keys are dropped. */
  function ParseOption(option: string): Option<(string, string)> {
    var s := TrimSpace(option);
    var (k, v) := CutAt(s, '=');
    var key := TrimSpace(k);
    if ('=' in s && v == "") || key == "" then None
    else Some((key, TrimSpace(v)))
  }

  function ParsedOptions(options: seq<string>): seq<(string, string)> {
    if options == [] then []
    else
      var init := ParsedOptions(options[..|options| - 1]);
      match ParseOption(options[|options| - 1])
      case None => init
      case Some(pair) => init + [pair]
  }

  method ParseOptions(options: seq<string>) returns (parsed: seq<(string, string)>)
    ensures parsed == ParsedOptions(options)
  {
    parsed := [];
    for i := 0 to |options|
      invariant parsed == ParsedOptions(options[..i])
    {
      assert options[..i + 1][..i] == options[..i];
      match ParseOption(options[i])
      case None =>
      case Some(pair) => parsed := parsed + [pair];
    }
    assert options[..|options|] == options;
  }

  function PrintOption(pair: (string, string)): string {
    if pair.1 != "" then TrimSpace(pair.0) + "=" + TrimSpace(pair.1) else TrimSpace(pair.0)
  }

  /** A parsed option is left out when its key is cache-dir, or when its value equals an option already there. */
  predicate Skipped(opts: seq<string>, pair: (string, string)) {
    pair.0 == "cache-dir" || pair.1 in opts
  }

  function AppendOptions(opts: seq<string>, parsed: seq<(string, string)>): (r: seq<string>)
    ensures opts <= r
  {
    if parsed == [] then opts
    else
      var init := AppendOptions(opts, parsed[..|parsed| - 1]);
      var pair := parsed[|parsed| - 1];
      if Skipped(init, pair) then init else init + [PrintOption(pair)]
  }

  function BaseOptions(cacheGroup: string): seq<string> {
    ["foreground", "no-update", "cache-group=" + cacheGroup]
  }

  function OptionList(cacheGroup: string, options: seq<string>, cacheDirs: seq<string>): seq<string> {
    AppendOptions(BaseOptions(cacheGroup), ParsedOptions(options)) + ["cache-dir=" + Join(cacheDirs, ':')]
  }

  method GenMountOpts(cacheGroup: string, options: seq<string>, cacheDirs: seq<string>) returns (r: string)
    ensures r == Join(OptionList(cacheGroup, options, cacheDirs), ',')
  {
    var opts := BaseOptions(cacheGroup);
    var parsed := ParseOptions(options);
    for i := 0 to |parsed|
      invariant opts == AppendOptions(BaseOptions(cacheGroup), parsed[..i])
    {
      assert parsed[..i + 1][..i] == parsed[..i];
      var opt := parsed[i];
      if opt.0 == "cache-dir" {
        continue;
      }
      if opt.1 in opts {
        continue;
      }
      if opt.1 != "" {
        opts := opts + [TrimSpace(opt.0) + "=" + TrimSpace(opt.1)];
      } else {
        opts := opts + [TrimSpace(opt.0)];
      }
    }
    assert parsed[..|parsed|] == parsed;
    opts := opts + ["cache-dir=" + Join(cacheDirs, ':')];
    r := Join(opts, ',');
  }

  // ---------- which options a worker gets ----------

  predicate Trimmed(s: string) {
    s == "" || (!IsSpace(s[0]) && !IsSpace(s[|s| - 1]))
  }

  predicate AllSpace(s: string) {
    forall c :: c in s ==> IsSpace(c)
  }

  /** Trimming takes away the space around a text and nothing of it. */
  lemma {:induction false} TrimsSpace(left: string, s: string, right: string)
    requires AllSpace(left) && AllSpace(right) && s != "" && Trimmed(s)
    ensures TrimSpace(left + s + right) == s
    decreases |left|
  {
    if left == "" {
      assert left + s + right == s + right && (s + right)[0] == s[0];
      TrimsRight(s, right);
    } else {
      assert left[0] in left && (left + s + right)[1..] == left[1..] + s + right;
      TrimsSpace(left[1..], s, right);
    }
  }

  lemma {:induction false} TrimsRight(s: string, right: string)
    requires AllSpace(right) && s != "" && Trimmed(s)
    ensures TrimRight(s + right) == s
  {
    if right == "" {
      assert s + right == s;
    } else {
      var init, last := right[..|right| - 1], right[|right| - 1];
      assert last in right && (s + right)[..|s| + |init|] == s + init;
      TrimsRight(s, init);
    }
  }

  lemma TrimmedStays(s: string)
    requires Trimmed(s)
    ensures TrimSpace(s) == s
  {
    if s != "" {
      assert "" + s + "" == s;
      TrimsSpace("", s, "");
    }
  }

  /** A key, and a value that may be missing, without space around them. */
  predicate IsClean(pair: (string, string)) {
    pair.0 != "" && '=' !in pair.0 && Trimmed(pair.0) && Trimmed(pair.1)
  }

  lemma {:induction false} CutIs(key: string, value: string)
    requires '=' !in key
    ensures CutAt(key + ['='] + value, '=') == (key, value)
  {
    var s := key + ['='] + value;
    if key == "" {
      assert s[1..] == value;
    } else {
      CutIs(key[1..], value);
      assert s[1..] == key[1..] + ['='] + value;
      assert [key[0]] + key[1..] == key;
    }
  }

  /** An option prints as its key, or its key and value; space around it, or around the parts, is dropped in reading. */
  lemma ParsePrinted(pair: (string, string), left: string, right: string)
    requires IsClean(pair) && AllSpace(left) && AllSpace(right)
    ensures PrintOption(pair) == if pair.1 == "" then pair.0 else pair.0 + ['='] + pair.1
    ensures ParseOption(left + PrintOption(pair) + right) == Some(pair)
  {
    TrimmedStays(pair.0);
    TrimmedStays(pair.1);
    var s := PrintOption(pair);
    assert s == if pair.1 == "" then pair.0 else pair.0 + ['='] + pair.1;
    TrimsSpace(left, s, right);
    hide TrimSpace;
    if pair.1 == "" {
      CutPlain(pair.0, '=');
    } else {
      CutIs(pair.0, pair.1);
    }
  }

  /** An entry without key, or with an empty value, is dropped. */
  lemma ParseDrops(key: string, value: string)
    requires '=' !in key && Trimmed(key)
    ensures ParseOption("") == None && ParseOption(key + ['=']) == None
    ensures Trimmed(value) ==> ParseOption(['='] + value) == None
  {
    assert key + ['='] + "" == key + ['='] && "" + ['='] + value == ['='] + value;
    CutIs(key, "");
    CutIs("", value);
    TrimmedStays(key + ['=']);
    if Trimmed(value) {
      TrimmedStays(['='] + value);
    }
    TrimmedStays("");
    hide TrimSpace, CutAt;
  }

  function Printed(pairs: seq<(string, string)>): (r: seq<string>)
    ensures |r| == |pairs| && forall i :: 0 <= i < |r| ==> r[i] == PrintOption(pairs[i])
  {
    seq(|pairs|, i requires 0 <= i < |pairs| => PrintOption(pairs[i]))
  }

  lemma PrintedMore(init: seq<(string, string)>, last: (string, string))
    ensures Printed(init + [last]) == Printed(init) + [PrintOption(last)]
  {
  }

  lemma ParsedMore(options: seq<string>, s: string)
    ensures ParsedOptions(options + [s])
            == ParsedOptions(options) + if ParseOption(s).Some? then [ParseOption(s).value] else []
  {
    assert (options + [s])[..|options|] == options;
  }

  lemma {:induction false} ParsePrintedAll(pairs: seq<(string, string)>)
    requires forall pair :: pair in pairs ==> IsClean(pair)
    ensures ParsedOptions(Printed(pairs)) == pairs
  {
    if pairs != [] {
      var init, last := pairs[..|pairs| - 1], pairs[|pairs| - 1];
      assert pairs == init + [last] && forall pair :: pair in init ==> pair in pairs;
      assert last in pairs;
      hide IsClean, ParseOption, PrintOption, ParsedOptions, Printed;
      ParsePrinted(last, "", "");
      assert "" + PrintOption(last) + "" == PrintOption(last);
      ParsePrintedAll(init);
      PrintedMore(init, last);
      ParsedMore(Printed(init), PrintOption(last));
    }
  }

  /** The key is not cache-dir, and the value is no option that comes before. */
  predicate Passes(opts: seq<string>, pairs: seq<(string, string)>) {
    forall k :: 0 <= k < |pairs| ==>
      && pairs[k].0 != "cache-dir" && pairs[k].1 !in opts
      && forall m :: 0 <= m < k ==> pairs[k].1 != PrintOption(pairs[m])
  }

  lemma PassesLast(opts: seq<string>, init: seq<(string, string)>, last: (string, string))
    requires Passes(opts, init + [last])
    ensures Passes(opts, init) && !Skipped(opts + Printed(init), last)
  {
    var pairs := init + [last];
    assert pairs[|init|] == last && forall k :: 0 <= k < |init| ==> pairs[k] == init[k];
  }

  lemma {:induction false} AllAppended(opts: seq<string>, pairs: seq<(string, string)>)
    requires Passes(opts, pairs)
    ensures AppendOptions(opts, pairs) == opts + Printed(pairs)
  {
    if pairs == [] {
      assert opts + Printed(pairs) == opts;
    } else {
      var init, last := pairs[..|pairs| - 1], pairs[|pairs| - 1];
      AllAppended(opts, init);
      assert pairs == init + [last];
      PrintedMore(init, last);
      PassesLast(opts, init, last);
      hide Passes, Printed, PrintOption;
      assert opts + Printed(init) + [PrintOption(last)] == opts + (Printed(init) + [PrintOption(last)]);
    }
  }

  /** A worker gets the fixed options, the template's as they are and in their order, and the cache directories. */
  lemma OptionsPass(cacheGroup: string, pairs: seq<(string, string)>, cacheDirs: seq<string>)
    requires forall pair :: pair in pairs ==> IsClean(pair)
    requires Passes(["foreground", "no-update", "cache-group=" + cacheGroup], pairs)
    ensures OptionList(cacheGroup, Printed(pairs), cacheDirs)
            == ["foreground", "no-update", "cache-group=" + cacheGroup] + Printed(pairs)
               + ["cache-dir=" + Join(cacheDirs, ':')]
  {
    ParsePrintedAll(pairs);
    AllAppended(BaseOptions(cacheGroup), pairs);
  }

  /** An option for cache-dir, or whose value is an option that comes before, is left out and changes nothing else. */
  lemma {:induction false} SkippedIsDropped(opts: seq<string>, before: seq<(string, string)>, pair: (string, string),
                                            after: seq<(string, string)>)
    requires pair.0 == "cache-dir" || pair.1 in AppendOptions(opts, before)
    ensures AppendOptions(opts, before + [pair] + after) == AppendOptions(opts, before + after)
  {
    if after == [] {
      assert (before + [pair] + after)[..|before|] == before && before + after == before;
    } else {
      var init, last := after[..|after| - 1], after[|after| - 1];
      assert (before + [pair] + after)[..|before| + |after|] == before + [pair] + init;
      assert (before + after)[..|before| + |after| - 1] == before + init;
      SkippedIsDropped(opts, before, pair, init);
    }
  }

  // ---------- the shell command ----------

  /** The options argument of a v1 worker, and that of a v2 worker, which reads its options from a file. */
  function V1Arg(opts: string): string { "-o" + " " + opts }

  function V2Arg(file: string): string { "-o" + " " + ("\"$(cat " + file + ")\"") }

  function MountLine(volName: string, arg: string): string {
    Join(["exec", MOUNT_BINARY, volName, MOUNT_POINT, arg], ' ')
  }

  /** The script given to `sh -c`: the auth command, the device-mount scripts, the mount line. */
  function ShellCommand(authCmd: string, deviceCmds: seq<string>, volName: string, arg: string): string {
    Join([authCmd] + deviceCmds + [MountLine(volName, arg)], '\n')
  }

  function LastLine(cmds: string): string {
    var lines := Split(cmds, '\n');
    lines[|lines| - 1]
  }

  /** The volume name and options of a worker command; None where the source panics. */
  function ParseMountCmds(cmds: string): Option<(string, seq<string>)> {
    if cmds == "" then None
    else
      var line := LastLine(cmds);
      var parts := Split(line, ' ');
      if !HasPrefix(line, "exec") || |parts| < 6 then None
      else Some((parts[2], Split(parts[5], ',')))
  }

  predicate Plain(s: string) {
    ' ' !in s && '\n' !in s
  }

  predicate PlainOptions(opts: seq<string>) {
    |opts| >= 1 && forall i :: 0 <= i < |opts| ==> Plain(opts[i]) && ',' !in opts[i]
  }

  lemma JoinOptionsPlain(opts: seq<string>)
    requires PlainOptions(opts)
    ensures Plain(Join(opts, ',')) && Split(Join(opts, ','), ',') == opts
  {
    JoinLacks(opts, ',', ' ');
    JoinLacks(opts, ',', '\n');
    SplitJoin(opts, ',');
  }

  lemma {:induction false} LastLineOf(lines: seq<string>, last: string)
    requires |lines| >= 1 && '\n' !in last
    ensures LastLine(Join(lines + [last], '\n')) == last
  {
    JoinAppend(lines, last, '\n');
    SplitAppend(Join(lines, '\n'), last, '\n');
  }

  function FourWords(a: string, b: string, c: string, d: string): string {
    a + [' '] + (b + [' '] + (c + [' '] + (d + [' '])))
  }

  lemma JoinFive(a: string, b: string, c: string, d: string, e: string)
    ensures Join([a, b, c, d, e], ' ') == FourWords(a, b, c, d) + e
  {
    JoinCons(d, [e], ' ');
    JoinCons(c, [d, e], ' ');
    JoinCons(b, [c, d, e], ' ');
    JoinCons(a, [b, c, d, e], ' ');
    assert [d] + [e] == [d, e] && [c] + [d, e] == [c, d, e] && [b] + [c, d, e] == [b, c, d, e];
    assert [a] + [b, c, d, e] == [a, b, c, d, e];
    assert Join([d, e], ' ') == d + [' '] + e;
  }

  lemma SplitFive(a: string, b: string, c: string, d: string, e: string)
    requires ' ' !in a && ' ' !in b && ' ' !in c && ' ' !in d
    ensures Split(FourWords(a, b, c, d) + e, ' ') == [a, b, c, d] + Split(e, ' ')
  {
    hide Split;
    var x := d + [' '] + e;
    var y := c + [' '] + x;
    var z := b + [' '] + y;
    SplitAtFirst(d, e, ' ');
    SplitAtFirst(c, x, ' ');
    SplitAtFirst(b, y, ' ');
    SplitAtFirst(a, z, ' ');
    assert FourWords(a, b, c, d) + e == a + [' '] + z;
  }

  /** What comes before the options argument on the mount line. */
  function MountPrefix(volName: string): string {
    FourWords("exec", MOUNT_BINARY, volName, MOUNT_POINT)
  }

  lemma MountLineIs(volName: string, arg: string)
    ensures MountLine(volName, arg) == MountPrefix(volName) + arg
  {
    JoinFive("exec", MOUNT_BINARY, volName, MOUNT_POINT, arg);
  }

  /** The mount line is cut into its four fixed words and the words of the argument. */
  lemma MountLineParts(volName: string, arg: string)
    requires ' ' !in volName
    ensures Split(MountLine(volName, arg), ' ') == ["exec", MOUNT_BINARY, volName, MOUNT_POINT] + Split(arg, ' ')
    ensures HasPrefix(MountLine(volName, arg), "exec")
  {
    MountLineIs(volName, arg);
    SplitFive("exec", MOUNT_BINARY, volName, MOUNT_POINT, arg);
  }

  lemma MountLineOneLine(volName: string, arg: string)
    requires '\n' !in volName && '\n' !in arg
    ensures '\n' !in MountLine(volName, arg)
  {
    JoinLacks(["exec", MOUNT_BINARY, volName, MOUNT_POINT, arg], ' ', '\n');
  }

  /** Whatever lines come before it, the mount line is the one parsed. */
  lemma ParseLastLine(lines: seq<string>, volName: string, arg: string)
    requires |lines| >= 1 && Plain(volName) && '\n' !in arg && |Split(arg, ' ')| >= 2
    ensures ParseMountCmds(Join(lines + [MountLine(volName, arg)], '\n'))
        == Some((volName, Split(Split(arg, ' ')[1], ',')))
  {
    var line := MountLine(volName, arg);
    MountLineOneLine(volName, arg);
    MountLineParts(volName, arg);
    LastLineOf(lines, line);
    JoinAppend(lines, line, '\n');
  }

  /** Parsing a printed v1 command gives back the volume name and the exact option list. */
  lemma V1CommandRoundTrip(authCmd: string, deviceCmds: seq<string>, volName: string, opts: seq<string>)
    requires Plain(volName) && PlainOptions(opts)
    ensures ParseMountCmds(ShellCommand(authCmd, deviceCmds, volName, V1Arg(Join(opts, ',')))) == Some((volName, opts))
  {
    var joined := Join(opts, ',');
    JoinOptionsPlain(opts);
    ParseOptionsArg([authCmd] + deviceCmds, volName, joined);
  }

  lemma V2ArgWords(file: string)
    requires '\n' !in file
    ensures '\n' !in V2Arg(file) && |Split(V2Arg(file), ' ')| >= 2
  {
    var rest := "\"$(cat " + file + ")\"";
    assert V2Arg(file) == "-o" + [' '] + rest;
    SplitAtFirst("-o", rest, ' ');
  }

  /** A printed v2 command gives back the volume name; its options live in the annotation. */
  lemma V2CommandVolume(authCmd: string, deviceCmds: seq<string>, volName: string, file: string)
    requires Plain(volName) && '\n' !in file
    ensures var parsed := ParseMountCmds(ShellCommand(authCmd, deviceCmds, volName, V2Arg(file)));
      parsed.Some? && parsed.value.0 == volName
  {
    V2ArgWords(file);
    ParseLastLine([authCmd] + deviceCmds, volName, V2Arg(file));
  }

  // ---------- leaving the group ----------

  predicate IsCommission(opt: string) {
    CutAt(opt, '=').0 == "commission"
  }

  function DropCommission(fields: seq<string>): (r: seq<string>)
    ensures forall f :: f in r <==> f in fields && !IsCommission(f)
  {
    if fields == [] then []
    else (if IsCommission(fields[0]) then [] else [fields[0]]) + DropCommission(fields[1..])
  }

  const DECOMMISSION := "," + "decommission"

  function AddDecommission(cmd: string): string {
    if Contains(cmd, DECOMMISSION) then cmd else cmd + DECOMMISSION
  }

  function DecommissionOpts(opts: string): string {
    AddDecommission(Join(DropCommission(Split(opts, ',')), ','))
  }

  /** The last line of a v1 command is the one edited. */
  function DecommissionCommand(cmds: string): string {
    var lines := Split(cmds, '\n');
    Join(lines[..|lines| - 1] + [DecommissionOpts(lines[|lines| - 1])], '\n')
  }

  function SkipDigits(s: string): (r: string)
    ensures |r| <= |s|
  {
    if s != "" && IsDigit(s[0]) then SkipDigits(s[1..]) else s
  }

  const WEIGHT := "group-weight="

  /** Every `group-weight=<digits>` becomes `group-weight=<weight>`. */
  function ReplaceWeight(s: string, weight: string): string
    decreases |s|
  {
    if s == "" then ""
    else if HasPrefix(s, WEIGHT) && |s| > |WEIGHT| && IsDigit(s[|WEIGHT|]) then
      WEIGHT + weight + ReplaceWeight(SkipDigits(s[|WEIGHT|..]), weight)
    else [s[0]] + ReplaceWeight(s[1..], weight)
  }

  function GroupWeightCommand(cmd: string, weight: string): string {
    if Contains(cmd, "group-weight") then ReplaceWeight(cmd, weight) else cmd + "," + WEIGHT + weight
  }

  lemma {:induction false} DropCommissionNothing(fields: seq<string>)
    requires forall f :: f in fields ==> !IsCommission(f)
    ensures DropCommission(fields) == fields
  {
    if fields != [] {
      DropCommissionNothing(fields[1..]);
      assert [fields[0]] + fields[1..] == fields;
    }
  }

  lemma KeptFields(opts: string) returns (kept: seq<string>)
    ensures kept == DropCommission(Split(opts, ',')) && Lacks(kept, ',')
    ensures forall f :: f in kept ==> !IsCommission(f)
  {
    kept := DropCommission(Split(opts, ','));
    JoinSplit(opts, ',');
    KeptLacks(Split(opts, ','), ',');
  }

  lemma ContainsDecommission(cmd: string)
    ensures Contains(cmd + DECOMMISSION, DECOMMISSION)
  {
    assert (cmd + DECOMMISSION)[|cmd|..|cmd| + |DECOMMISSION|] == DECOMMISSION;
    assert OccursAt(cmd + DECOMMISSION, DECOMMISSION, |cmd|);
  }

  /**
   What leaving does to the option fields: the operator's commission goes, the others keep their order, and a
   decommission is appended unless one is there already.
   */
  lemma DecommissionFields(opts: string)
    ensures Split(DecommissionOpts(opts), ',') == LeavingFields(DropCommission(Split(opts, ',')))
    ensures Contains(DecommissionOpts(opts), DECOMMISSION)
    ensures forall f :: f in Split(DecommissionOpts(opts), ',') ==> !IsCommission(f)
  {
    var kept := KeptFields(opts);
    LeavingFieldsPrinted(kept);
    ContainsDecommission(Join(kept, ','));
    assert !IsCommission("decommission");
    assert !IsCommission("");
  }

  /**
   The fields of a leaving worker whose kept fields are given (no kept field prints and parses as one empty field).
   */
  function LeavingFields(kept: seq<string>): seq<string> {
    var kept' := if kept == [] then [""] else kept;
    if Contains(Join(kept, ','), DECOMMISSION) then kept' else kept' + ["decommission"]
  }

  lemma LeavingFieldsPrinted(kept: seq<string>)
    requires Lacks(kept, ',')
    ensures var cmd := Join(kept, ',');
      Split(AddDecommission(cmd), ',') == LeavingFields(kept)
  {
    hide Split, Join, Contains;
    var cmd := Join(kept, ',');
    if kept == [] {
      EmptyText(',');
    } else {
      SplitJoin(kept, ',');
    }
    assert cmd + DECOMMISSION == cmd + [','] + "decommission";
    SplitAppend(cmd, "decommission", ',');
  }

  /** Leaving twice is leaving once. */
  lemma DecommissionIdempotent(opts: string)
    ensures DecommissionOpts(DecommissionOpts(opts)) == DecommissionOpts(opts)
  {
    DecommissionFields(opts);
    var d := DecommissionOpts(opts);
    DropCommissionNothing(Split(d, ','));
    JoinSplit(d, ',');
  }

  /**
   When the leaving options differ from options without a commission of their own: exactly when no
   decommission was there before.
   */
  lemma DecommissionChanges(opts: string)
    requires forall f :: f in Split(opts, ',') ==> !IsCommission(f)
    ensures DecommissionOpts(opts) == opts <==> Contains(opts, DECOMMISSION)
    ensures !Contains(opts, DECOMMISSION) ==> DecommissionOpts(opts) == opts + DECOMMISSION
  {
    DropCommissionNothing(Split(opts, ','));
    JoinSplit(opts, ',');
  }

  lemma ContainsAfter(head: string, s: string)
    requires ',' !in head
    ensures Contains(head + s, DECOMMISSION) <==> Contains(s, DECOMMISSION)
  {
    if Contains(s, DECOMMISSION) {
      ContainsPrepend(head, s, DECOMMISSION);
    }
    if Contains(head + s, DECOMMISSION) {
      var i :| 0 <= i <= |head + s| - |DECOMMISSION| && OccursAt(head + s, DECOMMISSION, i);
      assert (head + s)[i..i + |DECOMMISSION|][0] == ',';
      assert i >= |head|;
      assert s[i - |head|..i - |head| + |DECOMMISSION|] == (head + s)[i..i + |DECOMMISSION|];
      assert OccursAt(s, DECOMMISSION, i - |head|);
    }
  }

  lemma JoinHead(head: string, first: string, rest: seq<string>)
    ensures Join([head + first] + rest, ',') == head + Join([first] + rest, ',')
  {
    JoinCons(head + first, rest, ',');
    JoinCons(first, rest, ',');
    if rest != [] {
      var tail := [','] + Join(rest, ',');
      assert head + first + tail == head + (first + tail);
      assert head + first + [','] + Join(rest, ',') == head + first + tail;
      assert first + [','] + Join(rest, ',') == first + tail;
    }
  }

  lemma AddDecommissionAfter(head: string, s: string)
    requires ',' !in head
    ensures AddDecommission(head + s) == head + AddDecommission(s)
  {
    ContainsAfter(head, s);
  }

  lemma DropCons(first: string, rest: seq<string>)
    requires !IsCommission(first)
    ensures DropCommission([first] + rest) == [first] + DropCommission(rest)
  {
    assert ([first] + rest)[1..] == rest;
  }

  lemma DecommissionFirst(first: string, rest: seq<string>)
    requires Lacks([first] + rest, ',') && !IsCommission(first)
    ensures DecommissionOpts(Join([first] + rest, ',')) == AddDecommission(Join([first] + DropCommission(rest), ','))
  {
    SplitJoin([first] + rest, ',');
    DropCons(first, rest);
  }

  /** Editing a line that only starts differently edits the options alone. */
  lemma DecommissionAfter(head: string, first: string, rest: seq<string>)
    requires Lacks([first] + rest, ',') && Lacks([head + first] + rest, ',') && ',' !in head
    requires !IsCommission(first) && !IsCommission(head + first)
    ensures DecommissionOpts(head + Join([first] + rest, ',')) == head + DecommissionOpts(Join([first] + rest, ','))
  {
    JoinHead(head, first, rest);
    DecommissionFirst(head + first, rest);
    DecommissionFirst(first, rest);
    JoinHead(head, first, DropCommission(rest));
    AddDecommissionAfter(head, Join([first] + DropCommission(rest), ','));
  }

  function OptsHead(volName: string): string { MountPrefix(volName) + ("-o" + " ") }

  lemma MountLineOpts(volName: string, opts: string)
    ensures MountLine(volName, V1Arg(opts)) == OptsHead(volName) + opts
  {
    MountLineIs(volName, V1Arg(opts));
  }

  lemma DecommissionMountLine(volName: string, first: string, rest: seq<string>)
    requires ',' !in volName && Lacks([first] + rest, ',') && !IsCommission(first)
    ensures DecommissionOpts(MountLine(volName, V1Arg(Join([first] + rest, ','))))
            == MountLine(volName, V1Arg(DecommissionOpts(Join([first] + rest, ','))))
  {
    var joined := Join([first] + rest, ',');
    var head := OptsHead(volName);
    HeadIsNoCommission(volName, first);
    LacksFirst(head, first, rest);
    DecommissionAfter(head, first, rest);
    MountLineOpts(volName, joined);
    MountLineOpts(volName, DecommissionOpts(joined));
  }

  lemma LacksFirst(head: string, first: string, rest: seq<string>)
    requires Lacks([first] + rest, ',') && ',' !in head
    ensures Lacks([head + first] + rest, ',')
  {
    var fields := [head + first] + rest;
    forall i | 0 <= i < |fields| ensures ',' !in fields[i] {
      assert i > 0 ==> fields[i] == ([first] + rest)[i];
      assert first == ([first] + rest)[0];
    }
  }

  /** A leaving v1 worker runs with the options a leaving v2 worker has in its annotation. */
  lemma LeavingV1MatchesV2(authCmd: string, deviceCmds: seq<string>, volName: string, opts: seq<string>)
    requires Plain(volName) && ',' !in volName && PlainOptions(opts) && !IsCommission(opts[0])
    ensures ParseMountCmds(DecommissionCommand(ShellCommand(authCmd, deviceCmds, volName, V1Arg(Join(opts, ',')))))
            == Some((volName, Split(DecommissionOpts(Join(opts, ',')), ',')))
  {
    var lines := [authCmd] + deviceCmds;
    var joined := Join(opts, ',');
    var left := DecommissionOpts(joined);
    JoinOptionsPlain(opts);
    MountLineOneLine(volName, V1Arg(joined));
    assert opts == [opts[0]] + opts[1..];
    DecommissionMountLine(volName, opts[0], opts[1..]);
    DecommissionedLines(lines, MountLine(volName, V1Arg(joined)));
    LeavingPlain(opts);
    ParseOptionsArg(Split(Join(lines, '\n'), '\n'), volName, left);
  }

  lemma ParseOptionsArg(lines: seq<string>, volName: string, opts: string)
    requires |lines| >= 1 && Plain(volName) && Plain(opts)
    ensures ParseMountCmds(Join(lines + [MountLine(volName, V1Arg(opts))], '\n')) == Some((volName, Split(opts, ',')))
  {
    assert V1Arg(opts) == "-o" + [' '] + opts;
    SplitAtFirst("-o", opts, ' ');
    SplitPlain(opts, ' ');
    ParseLastLine(lines, volName, V1Arg(opts));
  }

  lemma HeadIsNoCommission(volName: string, opt: string)
    requires ',' !in volName
    ensures ',' !in OptsHead(volName) && !IsCommission(OptsHead(volName) + opt)
  {
    var s := OptsHead(volName) + opt;
    assert s[0] == 'e';
    assert CutAt(s, '=').0 == "" || CutAt(s, '=').0[0] == 'e';
  }

  lemma DecommissionedLines(lines: seq<string>, line: string)
    requires |lines| >= 1 && '\n' !in line
    ensures DecommissionCommand(Join(lines + [line], '\n'))
        == Join(Split(Join(lines, '\n'), '\n') + [DecommissionOpts(line)], '\n')
  {
    JoinAppend(lines, line, '\n');
    SplitAppend(Join(lines, '\n'), line, '\n');
  }

  lemma LeavingPlain(opts: seq<string>)
    requires PlainOptions(opts)
    ensures Plain(DecommissionOpts(Join(opts, ',')))
  {
    hide Split, Join, Contains;
    SplitJoin(opts, ',');
    var kept := DropCommission(opts);
    KeptLacks(opts, ' ');
    KeptLacks(opts, '\n');
    JoinLacks(kept, ',', ' ');
    JoinLacks(kept, ',', '\n');
  }

  lemma KeptLacks(fields: seq<string>, c: char)
    requires Lacks(fields, c)
    ensures Lacks(DropCommission(fields), c)
  {
    var kept := DropCommission(fields);
    forall i | 0 <= i < |kept| ensures c !in kept[i] {
      assert kept[i] in fields;
    }
  }

  // ---------- leaving by group weight ----------

  /** A weight is set at the place: the option's name, and at least one digit. */
  predicate SetsAt(s: string, i: int) {
    OccursAt(s, WEIGHT, i) && i + |WEIGHT| < |s| && IsDigit(s[i + |WEIGHT|])
  }

  predicate NoWeight(s: string, from: nat, to: nat) {
    forall i :: from <= i < to ==> !SetsAt(s, i)
  }

  lemma OccursTail(s: string, i: nat)
    requires s != "" && i < |s|
    ensures SetsAt(s[1..], i) <==> SetsAt(s, i + 1)
  {
    if i + 1 + |WEIGHT| <= |s| {
      assert s[1..][i..i + |WEIGHT|] == s[i + 1..i + 1 + |WEIGHT|];
    }
  }

  lemma ReplaceWeightStep(s: string, weight: string)
    requires s != "" && !SetsAt(s, 0)
    ensures ReplaceWeight(s, weight) == [s[0]] + ReplaceWeight(s[1..], weight)
  {
  }

  lemma NoWeightTail(s: string, to: nat)
    requires s != "" && 0 < to <= |s| && NoWeight(s, 0, to)
    ensures NoWeight(s[1..], 0, to - 1)
  {
    forall i | 0 <= i < to - 1 ensures !SetsAt(s[1..], i) {
      OccursTail(s, i);
    }
  }

  /** Text in which no weight is set stays as it is. */
  lemma {:induction false} ReplaceWeightNowhere(s: string, weight: string)
    requires NoWeight(s, 0, |s|)
    ensures ReplaceWeight(s, weight) == s
  {
    if s != "" {
      NoWeightTail(s, |s|);
      ReplaceWeightNowhere(s[1..], weight);
      ReplaceWeightStep(s, weight);
      assert [s[0]] + s[1..] == s;
    }
  }

  /** The first weight that is set gets the new value; what follows is treated in the same way. */
  lemma {:induction false} ReplaceWeightFirst(a: string, digits: string, b: string, weight: string)
    requires NoWeight(a + WEIGHT + digits + b, 0, |a|)
    requires digits != "" && (forall c :: c in digits ==> IsDigit(c)) && (b == "" || !IsDigit(b[0]))
    ensures ReplaceWeight(a + WEIGHT + digits + b, weight) == a + WEIGHT + weight + ReplaceWeight(b, weight)
  {
    var s := a + WEIGHT + digits + b;
    if a == "" {
      assert s == WEIGHT + (digits + b);
      ReplaceWeightHere(digits, b, weight);
      assert a + WEIGHT + weight == WEIGHT + weight;
    } else {
      hide ReplaceWeight, SetsAt, IsDigit;
      var t := a[1..] + WEIGHT + digits + b;
      assert s[1..] == t && s[0] == a[0];
      NoWeightTail(s, |a|);
      assert !SetsAt(s, 0);
      ReplaceWeightStep(s, weight);
      ReplaceWeightFirst(a[1..], digits, b, weight);
      PrependChar(a, WEIGHT + weight, ReplaceWeight(b, weight));
      assert a[1..] + WEIGHT + weight == a[1..] + (WEIGHT + weight) && a + WEIGHT + weight == a + (WEIGHT + weight);
    }
  }

  lemma PrependChar(a: string, x: string, y: string)
    requires a != ""
    ensures [a[0]] + (a[1..] + x + y) == a + x + y
  {
  }

  lemma ReplaceWeightHere(digits: string, b: string, weight: string)
    requires digits != "" && (forall c :: c in digits ==> IsDigit(c)) && (b == "" || !IsDigit(b[0]))
    ensures ReplaceWeight(WEIGHT + (digits + b), weight) == WEIGHT + weight + ReplaceWeight(b, weight)
  {
    var s := WEIGHT + (digits + b);
    assert s[..|WEIGHT|] == WEIGHT && s[|WEIGHT|..] == digits + b && s[|WEIGHT|] == digits[0];
    assert digits[0] in digits;
    SkipAllDigits(digits, b);
  }

  lemma {:induction false} SkipAllDigits(digits: string, b: string)
    requires (forall c :: c in digits ==> IsDigit(c)) && (b == "" || !IsDigit(b[0]))
    ensures SkipDigits(digits + b) == b
  {
    if digits == "" {
      assert digits + b == b;
    } else {
      assert digits[0] in digits && (digits + b)[1..] == digits[1..] + b;
      SkipAllDigits(digits[1..], b);
    }
  }

  /** A command that speaks of no weight gets one more option. */
  lemma WeightAppended(authCmd: string, deviceCmds: seq<string>, volName: string, opts: seq<string>, weight: string)
    requires Plain(volName) && PlainOptions(opts) && Plain(weight) && ',' !in weight
    requires !Contains(ShellCommand(authCmd, deviceCmds, volName, V1Arg(Join(opts, ','))), "group-weight")
    ensures var cmd := ShellCommand(authCmd, deviceCmds, volName, V1Arg(Join(opts, ',')));
      ParseMountCmds(GroupWeightCommand(cmd, weight)) == Some((volName, opts + [WEIGHT + weight]))
  {
    hide Split, Contains, ParseMountCmds, ShellCommand, V1Arg;
    var more, tail := opts + [WEIGHT + weight], "," + WEIGHT + weight;
    JoinAppend(opts, WEIGHT + weight, ',');
    ShellCommandLonger(authCmd, deviceCmds, volName, Join(opts, ','), tail);
    assert Join(more, ',') == Join(opts, ',') + tail;
    var cmd := ShellCommand(authCmd, deviceCmds, volName, V1Arg(Join(opts, ',')));
    assert cmd + "," + WEIGHT + weight == cmd + tail;
    V1CommandRoundTrip(authCmd, deviceCmds, volName, more);
  }

  lemma ShellCommandLonger(authCmd: string, deviceCmds: seq<string>, volName: string, opts: string, tail: string)
    ensures ShellCommand(authCmd, deviceCmds, volName, V1Arg(opts + tail))
            == ShellCommand(authCmd, deviceCmds, volName, V1Arg(opts)) + tail
  {
    ShellCommandIs(authCmd, deviceCmds, volName, opts);
    ShellCommandIs(authCmd, deviceCmds, volName, opts + tail);
    hide ShellCommand, CommandHead;
    var head := CommandHead(authCmd, deviceCmds, volName);
    assert head + (opts + tail) == head + opts + tail;
  }

  /** A v1 command before its options. */
  function CommandHead(authCmd: string, deviceCmds: seq<string>, volName: string): string {
    Join([authCmd] + deviceCmds, '\n') + ['\n'] + OptsHead(volName)
  }

  lemma ShellCommandIs(authCmd: string, deviceCmds: seq<string>, volName: string, opts: string)
    ensures ShellCommand(authCmd, deviceCmds, volName, V1Arg(opts)) == CommandHead(authCmd, deviceCmds, volName) + opts
  {
    hide Join, MountLine, OptsHead;
    JoinAppend([authCmd] + deviceCmds, MountLine(volName, V1Arg(opts)), '\n');
    MountLineOpts(volName, opts);
    var head := Join([authCmd] + deviceCmds, '\n');
    assert head + ['\n'] + (OptsHead(volName) + opts) == head + ['\n'] + OptsHead(volName) + opts;
  }

  /** The options text before one of the options, and after it. */
  function TextBefore(before: seq<string>): string {
    if before == [] then "" else Join(before, ',') + [',']
  }

  function TextAfter(after: seq<string>): string {
    if after == [] then "" else [','] + Join(after, ',')
  }

  lemma JoinAround(before: seq<string>, opt: string, after: seq<string>)
    ensures Join(before + [opt] + after, ',') == TextBefore(before) + opt + TextAfter(after)
  {
    hide Join;
    JoinCons(opt, after, ',');
    JoinTail(before, [opt] + after);
    assert before + [opt] + after == before + ([opt] + after);
    if before == [] {
      assert [] + ([opt] + after) == [opt] + after;
    }
    var x := Join([opt] + after, ',');
    assert TextBefore(before) + x == TextBefore(before) + opt + TextAfter(after) by {
      if after == [] {
        assert TextAfter(after) == "" && x == opt;
      } else {
        assert x == opt + TextAfter(after);
      }
    }
  }

  lemma {:induction false} JoinTail(before: seq<string>, rest: seq<string>)
    requires rest != []
    ensures Join(before + rest, ',') == TextBefore(before) + Join(rest, ',')
  {
    if before == [] {
      assert before + rest == rest;
    } else {
      var first, more := before[0], before[1..];
      JoinTail(more, rest);
      hide Join, TextBefore;
      assert before == [first] + more && before + rest == [first] + (more + rest);
      JoinCons(first, more + rest, ',');
      TextBeforeCons(first, more);
      var x, y := TextBefore(more), Join(rest, ',');
      assert first + [','] + (x + y) == first + [','] + x + y;
    }
  }

  lemma TextBeforeCons(first: string, more: seq<string>)
    ensures TextBefore([first] + more) == first + [','] + TextBefore(more)
  {
    hide Join;
    JoinCons(first, more, ',');
    if more != [] {
      assert first + [','] + Join(more, ',') + [','] == first + [','] + (Join(more, ',') + [',']);
    }
  }

  /** A command in which one option sets a weight, and nothing else looks like it, gets the new value there. */
  lemma WeightReplaced(authCmd: string, deviceCmds: seq<string>, volName: string, before: seq<string>, digits: string,
                       after: seq<string>, weight: string)
    requires Plain(volName) && PlainOptions(before + [WEIGHT + digits] + after) && Plain(weight) && ',' !in weight
    requires digits != "" && forall c :: c in digits ==> IsDigit(c)
    requires var opts := before + [WEIGHT + digits] + after;
      var cmd := ShellCommand(authCmd, deviceCmds, volName, V1Arg(Join(opts, ',')));
      var at := |CommandHead(authCmd, deviceCmds, volName) + TextBefore(before)|;
      NoWeight(cmd, 0, at) && NoWeight(TextAfter(after), 0, |TextAfter(after)|)
    ensures var opts := before + [WEIGHT + digits] + after;
      ParseMountCmds(GroupWeightCommand(ShellCommand(authCmd, deviceCmds, volName, V1Arg(Join(opts, ','))), weight))
      == Some((volName, before + [WEIGHT + weight] + after))
  {
    hide Split, Contains, ParseMountCmds, ReplaceWeight, ShellCommand, Join, CommandHead, GroupWeightCommand,
      TextBefore, TextAfter, SetsAt;
    var a, b := CommandHead(authCmd, deviceCmds, volName) + TextBefore(before), TextAfter(after);
    CommandAround(authCmd, deviceCmds, volName, before, WEIGHT + digits, after);
    CommandAround(authCmd, deviceCmds, volName, before, WEIGHT + weight, after);
    TextAfterStarts(after);
    WeightReplacedText(a, digits, b, weight);
    ReplacedPlain(before, digits, after, weight);
    V1CommandRoundTrip(authCmd, deviceCmds, volName, before + [WEIGHT + weight] + after);
  }

  lemma TextAfterStarts(after: seq<string>)
    ensures TextAfter(after) == "" || TextAfter(after)[0] == ','
  {
  }

  lemma WeightReplacedText(a: string, digits: string, b: string, weight: string)
    requires digits != "" && (forall c :: c in digits ==> IsDigit(c)) && (b == "" || b[0] == ',')
    requires NoWeight(a + (WEIGHT + digits) + b, 0, |a|) && NoWeight(b, 0, |b|)
    ensures GroupWeightCommand(a + (WEIGHT + digits) + b, weight) == a + (WEIGHT + weight) + b
  {
    hide ReplaceWeight, Contains, NoWeight;
    assert a + (WEIGHT + digits) + b == a + WEIGHT + digits + b == a + WEIGHT + (digits + b);
    assert a + (WEIGHT + weight) + b == a + WEIGHT + weight + b;
    ReplaceWeightFirst(a, digits, b, weight);
    ReplaceWeightNowhere(b, weight);
    WeightOccurs(a, digits + b);
  }

  lemma CommandAround(authCmd: string, deviceCmds: seq<string>, volName: string, before: seq<string>, opt: string,
                      after: seq<string>)
    ensures ShellCommand(authCmd, deviceCmds, volName, V1Arg(Join(before + [opt] + after, ',')))
            == CommandHead(authCmd, deviceCmds, volName) + TextBefore(before) + opt + TextAfter(after)
  {
    hide ShellCommand, CommandHead, Join, TextBefore, TextAfter;
    JoinAround(before, opt, after);
    ShellCommandIs(authCmd, deviceCmds, volName, Join(before + [opt] + after, ','));
    var h, x, y := CommandHead(authCmd, deviceCmds, volName), TextBefore(before), TextAfter(after);
    assert h + (x + opt + y) == h + x + opt + y;
  }

  lemma WeightOccurs(a: string, b: string)
    ensures Contains(a + WEIGHT + b, "group-weight")
  {
    var s := a + WEIGHT + b;
    assert s[|a|..|a| + 12] == "group-weight";
    assert OccursAt(s, "group-weight", |a|);
  }

  lemma ReplacedPlain(before: seq<string>, digits: string, after: seq<string>, weight: string)
    requires PlainOptions(before + [WEIGHT + digits] + after) && Plain(weight) && ',' !in weight
    ensures PlainOptions(before + [WEIGHT + weight] + after)
  {
    var opts, opts' := before + [WEIGHT + digits] + after, before + [WEIGHT + weight] + after;
    forall i | 0 <= i < |opts'| ensures Plain(opts'[i]) && ',' !in opts'[i] {
      assert i != |before| ==> opts'[i] == opts[i];
    }
  }
}
