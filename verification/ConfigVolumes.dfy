/**
 Parts of a worker pod rendered by going over Go maps, whose order is arbitrary: the environment, and the volumes for
 the secret's config files. The results say that the order does not show, and when it would.
 */
module ConfigVolumes {
  import opened Wrappers
  import opened Text
  import Sequences
  import opened Names
  import opened Bytes

  /** An order in which a map's keys are visited. */
  ghost predicate IsOrderOf(order: seq<string>, keys: set<string>) {
    Distinct(order) && forall k :: k in order <==> k in keys
  }

  // ---------- the environment ----------

  datatype Env = Env(name: string, value: string)

  /** The entries from the secret in the order visited, the ones for the stripped keys, the template's own. */
  function Entries(order: seq<string>, secretEnvs: map<string, string>): (r: seq<Env>)
    requires forall k :: k in order ==> k in secretEnvs
  {
    seq(|order|, i requires 0 <= i < |order| => Env(order[i], secretEnvs[order[i]]))
  }

  const STRIPPED: seq<Env> := [Env("TOKEN", "token"), Env("SECRET_KEY", "secret-key"),
      Env("SECRET_KEY_2", "secret-key2")]

  predicate EnvLeq(a: Env, b: Env) {
    Leq(a.name, b.name)
  }

  predicate SortedEnvs(s: seq<Env>) {
    forall i, j :: 0 <= i < j < |s| ==> Leq(s[i].name, s[j].name)
  }

  /** sort.SliceStable by name. */
  function StableSort(s: seq<Env>): seq<Env> {
    Sequences.StableSort(s, EnvLeq)
  }

  /** The entries of one name, in their order. */
  function Of(s: seq<Env>, name: string): seq<Env> {
    Sequences.Filter(s, (e: Env) => e.name == name)
  }

  lemma OfMembers(s: seq<Env>, name: string)
    ensures forall e :: e in Of(s, name) <==> e in s && e.name == name
  {
    Sequences.FilterMembers(s, (e: Env) => e.name == name);
  }

  lemma OfAppend(a: seq<Env>, b: seq<Env>, name: string)
    ensures Of(a + b, name) == Of(a, name) + Of(b, name)
  {
    Sequences.FilterAppend(a, b, (e: Env) => e.name == name);
  }

  /** Sorting keeps, for every name, its entries in their order: that is what later entries of a name rely on. */
  lemma StableSortIs(s: seq<Env>, name: string)
    ensures SortedEnvs(StableSort(s)) && Of(StableSort(s), name) == Of(s, name)
  {
    assert Sequences.IsOrdering(EnvLeq) by { LeqIsOrdering(); }
    Sequences.SortAscending(s, EnvLeq);
    var r := StableSort(s);
    assert forall i, j :: 0 <= i < j < |r| ==> EnvLeq(r[i], r[j]);
    var p := (e: Env) => e.name == name;
    LeqTotal(name, name);
    assert Sequences.IsClass(p, EnvLeq);
    Sequences.SortStable(s, EnvLeq, p);
  }

  lemma FirstOfName(s: seq<Env>)
    requires s != []
    ensures Of(s, s[0].name) != [] && Of(s, s[0].name)[0] == s[0]
  {
  }

  /** A sorted list is settled by its entries of every name. */
  lemma {:induction false} SortedSettled(a: seq<Env>, b: seq<Env>)
    requires SortedEnvs(a) && SortedEnvs(b) && forall name :: Of(a, name) == Of(b, name)
    ensures a == b
  {
    if a == [] {
      if b != [] {
        FirstOfName(b);
      }
    } else {
      OfMembers(a, a[0].name);
      OfMembers(b, a[0].name);
      assert a[0] in Of(b, a[0].name);
      assert b != [];
      OfMembers(b, b[0].name);
      OfMembers(a, b[0].name);
      assert b[0] in Of(a, b[0].name);
      SameFirst(a, b);
      forall name ensures Of(a[1..], name) == Of(b[1..], name) {
        assert Of(a, name) == (if a[0].name == name then [a[0]] else []) + Of(a[1..], name);
        assert Of(b, name) == (if b[0].name == name then [b[0]] else []) + Of(b[1..], name);
        TailsEqual(if a[0].name == name then [a[0]] else [], Of(a[1..], name), Of(b[1..], name));
      }
      SortedSettled(a[1..], b[1..]);
      assert a == [a[0]] + a[1..] && b == [b[0]] + b[1..];
    }
  }

  lemma TailsEqual(head: seq<Env>, s: seq<Env>, t: seq<Env>)
    requires head + s == head + t
    ensures s == t
  {
    assert s == (head + s)[|head|..] && t == (head + t)[|head|..];
  }

  lemma SameFirst(a: seq<Env>, b: seq<Env>)
    requires SortedEnvs(a) && SortedEnvs(b) && a != [] && b != [] && a[0] in b && b[0] in a
    requires Of(a, a[0].name) == Of(b, a[0].name)
    ensures a[0] == b[0]
  {
    var i :| 0 <= i < |b| && b[i] == a[0];
    var j :| 0 <= j < |a| && a[j] == b[0];
    LeqTotal(a[0].name, a[0].name);
    assert Leq(b[0].name, a[0].name) && Leq(a[0].name, b[0].name);
    LeqAntisymmetric(a[0].name, b[0].name);
    assert Of(a, a[0].name)[0] == a[0] && Of(b, b[0].name)[0] == b[0];
  }

  function EnvsFrom(order: seq<string>, secretEnvs: map<string, string>, own: seq<Env>): seq<Env>
    requires forall k :: k in order ==> k in secretEnvs
  {
    StableSort(Entries(order, secretEnvs) + STRIPPED + own)
  }

  method GenEnvs(order: seq<string>, secretEnvs: map<string, string>, own: seq<Env>) returns (envs: seq<Env>)
    requires IsOrderOf(order, secretEnvs.Keys)
    ensures envs == EnvsFrom(order, secretEnvs, own)
  {
    hide STRIPPED;
    envs := [];
    for i := 0 to |order|
      invariant envs == Entries(order[..i], secretEnvs)
    {
      envs := envs + [Env(order[i], secretEnvs[order[i]])];
    }
    assert order[..|order|] == order;
    envs := envs + STRIPPED;
    envs := envs + own;
    envs := StableSort(envs);
  }

  lemma {:induction false} EntryOf(order: seq<string>, secretEnvs: map<string, string>, name: string)
    requires Distinct(order) && forall k :: k in order ==> k in secretEnvs
    ensures Of(Entries(order, secretEnvs), name) == if name in order then [Env(name, secretEnvs[name])] else []
  {
    if order != [] {
      EntryOf(order[1..], secretEnvs, name);
      assert order == [order[0]] + order[1..];
      assert Entries(order, secretEnvs)[1..] == Entries(order[1..], secretEnvs);
      assert order[0] !in order[1..];
    }
  }

  /** A variable has the secret's value first, then that of a stripped key, then the template's own in their order. */
  lemma EnvOfName(order: seq<string>, secretEnvs: map<string, string>, own: seq<Env>, name: string)
    requires IsOrderOf(order, secretEnvs.Keys)
    ensures Of(EnvsFrom(order, secretEnvs, own), name)
            == (if name in secretEnvs then [Env(name, secretEnvs[name])] else [])
               + Of([Env("TOKEN", "token"), Env("SECRET_KEY", "secret-key"), Env("SECRET_KEY_2", "secret-key2")], name)
               + Of(own, name)
  {
    var entries := Entries(order, secretEnvs);
    StableSortIs(entries + STRIPPED + own, name);
    OfAppend(entries + STRIPPED, own, name);
    OfAppend(entries, STRIPPED, name);
    EntryOf(order, secretEnvs, name);
    hide Of, StableSort, Entries;
  }

  /** The rendered environment is the same whatever order the secret's variables were visited in. */
  lemma EnvsIgnoreOrder(a: seq<string>, b: seq<string>, secretEnvs: map<string, string>, own: seq<Env>)
    requires IsOrderOf(a, secretEnvs.Keys) && IsOrderOf(b, secretEnvs.Keys)
    ensures EnvsFrom(a, secretEnvs, own) == EnvsFrom(b, secretEnvs, own)
  {
    var rest := STRIPPED + own;
    var s, t := Entries(a, secretEnvs) + STRIPPED + own, Entries(b, secretEnvs) + STRIPPED + own;
    assert s == Entries(a, secretEnvs) + rest && t == Entries(b, secretEnvs) + rest;
    hide STRIPPED, StableSort, SortedEnvs;
    forall name ensures Of(StableSort(s), name) == Of(StableSort(t), name) && SortedEnvs(StableSort(s))
        && SortedEnvs(StableSort(t)) {
      StableSortIs(s, name);
      StableSortIs(t, name);
      OfAppend(Entries(a, secretEnvs), rest, name);
      OfAppend(Entries(b, secretEnvs), rest, name);
      EntryOf(a, secretEnvs, name);
      EntryOf(b, secretEnvs, name);
    }
    StableSortIs(s, "");
    StableSortIs(t, "");
    SortedSettled(StableSort(s), StableSort(t));
  }

  // ---------- which config files are mounted ----------

  /** A value of the configs entry: text, or anything else. */
  datatype Raw = Words(text: string) | Other

  predicate Usable(key: string, value: Raw) {
    && value.Words? && TrimSpace(key) != "" && TrimSpace(value.text) != ""
    && HasPrefix(TrimSpace(value.text), "/")
  }

  /** Something other than space is in the text, and the first such character is given. */
  predicate StartsWith(s: string, c: char) {
    exists i :: 0 <= i < |s| && s[i] == c && !IsSpace(c) && forall j :: 0 <= j < i ==> IsSpace(s[j])
  }

  /** A config is used exactly when it is text that starts with a slash, under a name that is not blank. */
  lemma UsableExactly(key: string, value: Raw)
    ensures Usable(key, value) <==>
      (exists c :: c in key && !IsSpace(c)) && value.Words? && StartsWith(value.text, '/')
  {
    TrimLeftIs(key);
    TrimRightKeeps(TrimLeft(key));
    if value.Words? {
      TrimLeftIs(value.text);
      TrimRightKeeps(TrimLeft(value.text));
    }
    hide TrimLeft, TrimRight;
    if value.Words? && StartsWith(value.text, '/') {
      var i :| 0 <= i < |value.text| && value.text[i] == '/' && forall j :: 0 <= j < i ==> IsSpace(value.text[j]);
      assert value.text[i] in value.text;
    }
  }

  lemma {:induction false} TrimLeftIs(s: string)
    ensures TrimLeft(s) == "" <==> forall c :: c in s ==> IsSpace(c)
    ensures TrimLeft(s) != "" ==> !IsSpace(TrimLeft(s)[0]) && StartsWith(s, TrimLeft(s)[0])
    ensures forall c :: StartsWith(s, c) ==> TrimLeft(s) != "" && TrimLeft(s)[0] == c
  {
    hide IsSpace;
    if s != "" && IsSpace(s[0]) {
      TrimLeftIs(s[1..]);
      forall c ensures StartsWith(s, c) <==> StartsWith(s[1..], c) {
        StartsWithTail(s, c);
      }
      assert s == [s[0]] + s[1..];
    } else if s != "" {
      assert s[0] in s;
      assert StartsWith(s, s[0]);
    }
  }

  lemma StartsWithTail(s: string, c: char)
    requires s != "" && IsSpace(s[0])
    ensures StartsWith(s, c) <==> StartsWith(s[1..], c)
  {
    hide IsSpace;
    if StartsWith(s, c) {
      var i :| 0 <= i < |s| && s[i] == c && !IsSpace(c) && forall j :: 0 <= j < i ==> IsSpace(s[j]);
      assert i > 0 && s[1..][i - 1] == c;
      assert forall j :: 0 <= j < i - 1 ==> s[1..][j] == s[j + 1];
    }
    if StartsWith(s[1..], c) {
      var i :| 0 <= i < |s[1..]| && s[1..][i] == c && !IsSpace(c) && forall j :: 0 <= j < i ==> IsSpace(s[1..][j]);
      assert s[i + 1] == c;
      assert forall j :: 1 <= j < i + 1 ==> s[j] == s[1..][j - 1];
    }
  }

  lemma {:induction false} TrimRightKeeps(s: string)
    requires s == "" || !IsSpace(s[0])
    ensures TrimRight(s) == "" <==> s == ""
    ensures s != "" ==> TrimRight(s) != "" && TrimRight(s)[0] == s[0]
    decreases |s|
  {
    hide IsSpace;
    if s != "" && IsSpace(s[|s| - 1]) {
      TrimRightKeeps(s[..|s| - 1]);
    }
  }

  function ConfigsFrom(order: seq<string>, raw: map<string, Raw>): map<string, string>
    requires forall k :: k in order ==> k in raw
  {
    if order == [] then map[]
    else
      var k := order[|order| - 1];
      var init := ConfigsFrom(order[..|order| - 1], raw);
      if Usable(k, raw[k]) then init[TrimSpace(k) := TrimSpace(raw[k].text)] else init
  }

  method ParseSecretConfigs(order: seq<string>, raw: map<string, Raw>) returns (configs: map<string, string>)
    requires IsOrderOf(order, raw.Keys)
    ensures configs == ConfigsFrom(order, raw)
  {
    hide TrimSpace, HasPrefix;
    configs := map[];
    for i := 0 to |order|
      invariant configs == ConfigsFrom(order[..i], raw)
    {
      assert order[..i + 1][..i] == order[..i];
      var k := order[i];
      var secretName := TrimSpace(k);
      if raw[k].Other? {
        continue;
      }
      var mountPath := TrimSpace(raw[k].text);
      if secretName == "" || mountPath == "" || !HasPrefix(mountPath, "/") {
        continue;
      }
      configs := configs[secretName := mountPath];
    }
    assert order[..|order|] == order;
  }

  /** Keys that are the same secret name once trimmed ask for the same path. */
  predicate Agreeing(raw: map<string, Raw>) {
    forall a, b :: a in raw && b in raw && Usable(a, raw[a]) && Usable(b, raw[b]) && TrimSpace(a) == TrimSpace(b) ==>
      TrimSpace(raw[a].text) == TrimSpace(raw[b].text)
  }

  /** The path of a secret name is that of the last key visited with the name. */
  lemma {:induction false} ConfigOf(order: seq<string>, raw: map<string, Raw>, name: string)
    requires forall k :: k in order ==> k in raw
    ensures name in ConfigsFrom(order, raw) <==> exists k :: k in order && Usable(k, raw[k]) && TrimSpace(k) == name
    ensures name in ConfigsFrom(order, raw) ==>
              exists k :: k in order && Usable(k, raw[k]) && TrimSpace(k) == name
                  && TrimSpace(raw[k].text) == ConfigsFrom(order, raw)[name]
  {
    hide Usable, TrimSpace;
    if order != [] {
      var init, last := order[..|order| - 1], order[|order| - 1];
      ConfigOf(init, raw, name);
      assert order == init + [last];
      if k :| k in init && Usable(k, raw[k]) && TrimSpace(k) == name {
        assert k in order;
      }
      assert last in order;
    }
  }

  lemma {:induction false} SomeOrder(keys: set<string>) returns (order: seq<string>)
    ensures IsOrderOf(order, keys)
  {
    if keys == {} {
      order := [];
    } else {
      var k :| k in keys;
      var init := SomeOrder(keys - {k});
      order := init + [k];
    }
  }

  /** An order that visits the key last decides the path by that key. */
  lemma OrderEndingIn(raw: map<string, Raw>, k: string) returns (order: seq<string>)
    requires k in raw && Usable(k, raw[k])
    ensures IsOrderOf(order, raw.Keys)
    ensures TrimSpace(k) in ConfigsFrom(order, raw) && ConfigsFrom(order, raw)[TrimSpace(k)] == TrimSpace(raw[k].text)
  {
    var init := SomeOrder(raw.Keys - {k});
    order := init + [k];
    assert order[..|order| - 1] == init;
  }

  /** The configs are the same for every order of the keys exactly when equal trimmed names ask for equal paths. */
  lemma ConfigsIgnoreOrderExactly(raw: map<string, Raw>)
    ensures Agreeing(raw) <==>
              forall a, b :: IsOrderOf(a, raw.Keys) && IsOrderOf(b, raw.Keys) ==>
                  ConfigsFrom(a, raw) == ConfigsFrom(b, raw)
  {
    hide TrimSpace, ConfigsFrom, HasPrefix;
    if Agreeing(raw) {
      forall a, b | IsOrderOf(a, raw.Keys) && IsOrderOf(b, raw.Keys)
          ensures ConfigsFrom(a, raw) == ConfigsFrom(b, raw) {
        AgreeingConfigs(raw, a, b);
      }
    } else {
      var x, y :| x in raw && y in raw && Usable(x, raw[x]) && Usable(y, raw[y]) && TrimSpace(x) == TrimSpace(y)
                  && TrimSpace(raw[x].text) != TrimSpace(raw[y].text);
      var a := OrderEndingIn(raw, x);
      var b := OrderEndingIn(raw, y);
      assert ConfigsFrom(a, raw) != ConfigsFrom(b, raw);
    }
  }

  lemma AgreeingConfigs(raw: map<string, Raw>, a: seq<string>, b: seq<string>)
    requires Agreeing(raw) && IsOrderOf(a, raw.Keys) && IsOrderOf(b, raw.Keys)
    ensures ConfigsFrom(a, raw) == ConfigsFrom(b, raw)
  {
    var x, y := ConfigsFrom(a, raw), ConfigsFrom(b, raw);
    hide TrimSpace, Usable, ConfigsFrom;
    forall name ensures (name in x <==> name in y) && (name in x && name in y ==> x[name] == y[name]) {
      ConfigOf(a, raw, name);
      ConfigOf(b, raw, name);
    }
  }

  // ---------- their volumes ----------

  datatype Volume = Volume(name: string, source: string)

  datatype Mount = Mount(name: string, path: string)

  const CONFIG_VOLUME_PREFIX := "jfs-config-"

  function ConfigVolumeName(k: nat): string {
    CONFIG_VOLUME_PREFIX + Digits(k)
  }

  lemma ConfigVolumeNameInjective(j: nat, k: nat)
    requires ConfigVolumeName(j) == ConfigVolumeName(k)
    ensures j == k
  {
    assert ConfigVolumeName(j)[|CONFIG_VOLUME_PREFIX|..] == Digits(j);
    assert ConfigVolumeName(k)[|CONFIG_VOLUME_PREFIX|..] == Digits(k);
    DigitsInjective(j, k);
  }

  /** The used names at or above a number: what the search for a fresh name can still run into. */
  ghost function UsedFrom(used: set<string>, next: nat): set<string> {
    set n | n in used && exists k: nat :: k >= next && n == ConfigVolumeName(k)
  }

  lemma UsedShrinks(used: set<string>, next: nat)
    requires ConfigVolumeName(next) in used
    ensures UsedFrom(used, next + 1) < UsedFrom(used, next)
  {
    hide ConfigVolumeName;
    assert ConfigVolumeName(next) in UsedFrom(used, next);
    if ConfigVolumeName(next) in UsedFrom(used, next + 1) {
      var k: nat :| k >= next + 1 && ConfigVolumeName(next) == ConfigVolumeName(k);
      ConfigVolumeNameInjective(next, k);
    }
  }

  /** The least number from next on whose name is not used. */
  ghost function FreshNumber(used: set<string>, next: nat): (k: nat)
    ensures k >= next && ConfigVolumeName(k) !in used
    ensures forall j: nat :: next <= j < k ==> ConfigVolumeName(j) in used
    decreases UsedFrom(used, next)
  {
    if ConfigVolumeName(next) !in used then next
    else
      UsedShrinks(used, next);
      FreshNumber(used, next + 1)
  }

  method NextConfigVolumeName(used: set<string>, next: nat) returns (name: string, next': nat)
    ensures next' == FreshNumber(used, next) + 1 && name == ConfigVolumeName(FreshNumber(used, next))
  {
    hide ConfigVolumeName;
    next' := next;
    while true
      invariant FreshNumber(used, next') == FreshNumber(used, next)
      decreases UsedFrom(used, next')
    {
      name := ConfigVolumeName(next');
      ghost var tried := next';
      next' := next' + 1;
      if name !in used {
        return;
      }
      UsedShrinks(used, tried);
    }
  }

  datatype Rendered = Rendered(volumes: seq<Volume>, mounts: seq<Mount>, next: nat)

  function VolumeNames(volumes: seq<Volume>): set<string> {
    set v | v in volumes :: v.name
  }

  function Paths(mounts: seq<Mount>): set<string> {
    set m | m in mounts :: m.path
  }

  /** One secret more: a fresh volume and its mount, unless the path is taken. */
  ghost function AddConfig(r: Rendered, secret: string, path: string): Rendered {
    if path in Paths(r.mounts) then r
    else
      var k := FreshNumber(VolumeNames(r.volumes), r.next);
      Rendered(r.volumes + [Volume(ConfigVolumeName(k), secret)], r.mounts + [Mount(ConfigVolumeName(k), path)], k + 1)
  }

  ghost function AddConfigs(r: Rendered, secrets: seq<string>, configs: map<string, string>): Rendered
    requires forall s :: s in secrets ==> s in configs
  {
    if secrets == [] then r
    else
      var last := secrets[|secrets| - 1];
      AddConfig(AddConfigs(r, secrets[..|secrets| - 1], configs), last, configs[last])
  }

  lemma NamesMore(volumes: seq<Volume>, v: Volume, mounts: seq<Mount>, m: Mount)
    ensures VolumeNames(volumes + [v]) == VolumeNames(volumes) + {v.name}
    ensures Paths(mounts + [m]) == Paths(mounts) + {m.path}
  {
    forall n ensures n in VolumeNames(volumes + [v]) <==> n in VolumeNames(volumes) || n == v.name {
      if n in VolumeNames(volumes) {
        var w :| w in volumes && w.name == n;
        assert w in volumes + [v];
      }
      assert v in volumes + [v];
    }
    forall p ensures p in Paths(mounts + [m]) <==> p in Paths(mounts) || p == m.path {
      if p in Paths(mounts) {
        var w :| w in mounts && w.path == p;
        assert w in mounts + [m];
      }
      assert m in mounts + [m];
    }
  }

  method AppendSecretConfigVolumes(volumes: seq<Volume>, mounts: seq<Mount>, configs: map<string, string>,
                                   order: seq<string>)
    returns (volumes': seq<Volume>, mounts': seq<Mount>)
    requires IsOrderOf(order, configs.Keys)
    ensures forall s :: s in Sort(order) ==> s in configs
    ensures var r := AddConfigs(Rendered(volumes, mounts, 1), Sort(order), configs);
      volumes' == r.volumes && mounts' == r.mounts
  {
    volumes', mounts' := volumes, mounts;
    SortSorts(order);
    var secretNames := Sort(order);
    hide Sort, VolumeNames, Paths, ConfigVolumeName, AddConfigs;
    ghost var start := Rendered(volumes, mounts, 1);
    NoConfigs(start, configs);
    if |configs| == 0 {
      NothingToAdd(configs, order);
      return;
    }
    var usedVolumeNames, usedMountPaths := VolumeNames(volumes), Paths(mounts);
    var next := 1;
    for i := 0 to |secretNames|
      invariant AddConfigs(start, secretNames[..i], configs) == Rendered(volumes', mounts', next)
      invariant usedVolumeNames == VolumeNames(volumes') && usedMountPaths == Paths(mounts')
    {
      AddConfigsNext(start, secretNames, i, configs);
      var mountPath := configs[secretNames[i]];
      if mountPath in usedMountPaths {
        continue;
      }
      var volumeName;
      volumeName, next := NextConfigVolumeName(usedVolumeNames, next);
      NamesMore(volumes', Volume(volumeName, secretNames[i]), mounts', Mount(volumeName, mountPath));
      volumes' := volumes' + [Volume(volumeName, secretNames[i])];
      mounts' := mounts' + [Mount(volumeName, mountPath)];
      usedVolumeNames := usedVolumeNames + {volumeName};
      usedMountPaths := usedMountPaths + {mountPath};
    }
    assert secretNames[..|secretNames|] == secretNames;
  }

  lemma NoConfigs(r: Rendered, configs: map<string, string>)
    ensures AddConfigs(r, [], configs) == r
  {
  }

  lemma AddConfigsNext(r: Rendered, secrets: seq<string>, i: nat, configs: map<string, string>)
    requires i < |secrets| && forall s :: s in secrets ==> s in configs
    ensures AddConfigs(r, secrets[..i + 1], configs)
        == AddConfig(AddConfigs(r, secrets[..i], configs), secrets[i], configs[secrets[i]])
  {
    assert secrets[..i + 1][..i] == secrets[..i];
    hide AddConfig;
  }

  lemma NothingToAdd(configs: map<string, string>, order: seq<string>)
    requires |configs| == 0 && IsOrderOf(order, configs.Keys)
    ensures Sort(order) == []
  {
    assert configs == map[];
    assert forall i :: 0 <= i < |order| ==> order[i] in configs.Keys;
  }

  /** Visiting the configs in another order changes nothing: the secrets are sorted first. */
  lemma VolumesIgnoreOrder(a: seq<string>, b: seq<string>, keys: set<string>)
    requires IsOrderOf(a, keys) && IsOrderOf(b, keys)
    ensures Sort(a) == Sort(b)
  {
    SortSorts(a);
    SortSorts(b);
    SortDistinct(a);
    SortDistinct(b);
    SortedUnique(Sort(a), Sort(b));
  }

  predicate UniqueVolumes(volumes: seq<Volume>) {
    forall i, j :: 0 <= i < j < |volumes| ==> volumes[i].name != volumes[j].name
  }

  predicate UniquePaths(mounts: seq<Mount>) {
    forall i, j :: 0 <= i < j < |mounts| ==> mounts[i].path != mounts[j].path
  }

  /**
   What is added comes after what was there, each mount with its own new volume of the secret that asks for the path.
   */
  predicate AddedWell(before: Rendered, after: Rendered, configs: map<string, string>) {
    && before.volumes <= after.volumes && before.mounts <= after.mounts
    && |after.volumes| - |before.volumes| == |after.mounts| - |before.mounts|
    && forall i :: 0 <= i < |after.mounts| - |before.mounts| ==>
         MountsOwn(after.volumes[|before.volumes|..], after.mounts[|before.mounts|..], i, configs)
  }

  predicate MountsOwn(volumes: seq<Volume>, mounts: seq<Mount>, i: nat, configs: map<string, string>)
    requires i < |volumes| == |mounts|
  {
    mounts[i].name == volumes[i].name && volumes[i].source in configs && configs[volumes[i].source] == mounts[i].path
  }

  lemma AddOneUnique(r: Rendered, secret: string, path: string)
    ensures UniqueVolumes(r.volumes) ==> UniqueVolumes(AddConfig(r, secret, path).volumes)
    ensures UniquePaths(r.mounts) ==> UniquePaths(AddConfig(r, secret, path).mounts)
    ensures Paths(AddConfig(r, secret, path).mounts) == Paths(r.mounts) + {path}
  {
    hide ConfigVolumeName, FreshNumber;
    if path !in Paths(r.mounts) {
      var k := FreshNumber(VolumeNames(r.volumes), r.next);
      NamesMore(r.volumes, Volume(ConfigVolumeName(k), secret), r.mounts, Mount(ConfigVolumeName(k), path));
      assert forall i :: 0 <= i < |r.volumes| ==> r.volumes[i].name in VolumeNames(r.volumes);
      assert forall i :: 0 <= i < |r.mounts| ==> r.mounts[i].path in Paths(r.mounts);
    }
  }

  lemma AddOneWell(before: Rendered, r: Rendered, secret: string, configs: map<string, string>)
    requires secret in configs && AddedWell(before, r, configs)
    ensures AddedWell(before, AddConfig(r, secret, configs[secret]), configs)
  {
    hide ConfigVolumeName, FreshNumber, VolumeNames, Paths;
    var path := configs[secret];
    if path !in Paths(r.mounts) {
      var k := FreshNumber(VolumeNames(r.volumes), r.next);
      var after := AddConfig(r, secret, path);
      var n, m := |before.volumes|, |before.mounts|;
      assert after.volumes[n..] == r.volumes[n..] + [Volume(ConfigVolumeName(k), secret)];
      assert after.mounts[m..] == r.mounts[m..] + [Mount(ConfigVolumeName(k), path)];
      forall i | 0 <= i < |after.mounts| - m ensures MountsOwn(after.volumes[n..], after.mounts[m..], i, configs) {
        if i < |r.mounts| - m {
          assert MountsOwn(r.volumes[n..], r.mounts[m..], i, configs);
        }
      }
    }
  }

  /**
   The rendered volumes: old ones first; every new mount names a new volume of its own; volume names and mount paths
   stay unique; and in the end the paths are the old ones and all that the configs ask for.
   */
  lemma {:induction false} AddConfigsWell(r: Rendered, secrets: seq<string>, configs: map<string, string>)
    requires forall s :: s in secrets ==> s in configs
    ensures var after := AddConfigs(r, secrets, configs);
      && AddedWell(r, after, configs)
      && (UniqueVolumes(r.volumes) ==> UniqueVolumes(after.volumes))
      && (UniquePaths(r.mounts) ==> UniquePaths(after.mounts))
      && forall p :: p in Paths(after.mounts) <==> p in Paths(r.mounts) || exists s :: s in secrets && configs[s] == p
  {
    hide AddedWell, AddConfig, UniqueVolumes, UniquePaths, Paths;
    if secrets == [] {
      NoneAddedWell(r, configs);
    } else {
      var init, last := secrets[..|secrets| - 1], secrets[|secrets| - 1];
      AddConfigsWell(r, init, configs);
      AddOneWell(r, AddConfigs(r, init, configs), last, configs);
      AddOneUnique(AddConfigs(r, init, configs), last, configs[last]);
      assert forall s :: s in secrets <==> s in init || s == last by {
        assert secrets == init + [last];
      }
    }
  }

  /** No number is passed over: all from the first on up to the last one taken name a volume in the end. */
  lemma {:induction false} NoGaps(r: Rendered, secrets: seq<string>, configs: map<string, string>)
    requires forall s :: s in secrets ==> s in configs
    ensures var after := AddConfigs(r, secrets, configs);
      && r.next <= after.next && VolumeNames(r.volumes) <= VolumeNames(after.volumes)
      && forall j: nat :: r.next <= j < after.next ==> ConfigVolumeName(j) in VolumeNames(after.volumes)
  {
    hide ConfigVolumeName, VolumeNames, Paths;
    if secrets != [] {
      var init, last := secrets[..|secrets| - 1], secrets[|secrets| - 1];
      NoGaps(r, init, configs);
      var mid := AddConfigs(r, init, configs);
      var k := FreshNumber(VolumeNames(mid.volumes), mid.next);
      NamesMore(mid.volumes, Volume(ConfigVolumeName(k), last), mid.mounts, Mount(ConfigVolumeName(k), configs[last]));
    }
  }

  lemma NoneAddedWell(r: Rendered, configs: map<string, string>)
    ensures AddedWell(r, r, configs)
  {
  }
}
