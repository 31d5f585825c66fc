/** Environment variables written over the configuration document. Names arrive split into their parts;
    the YAML parser is a parameter. */
module ConfigOverrides {
  import opened Wrappers
  import opened ConfigTree

  type Parser = (string, string) -> Result<Json>

  /** The list settings that take one variable per element. */
  datatype ListSetting =
    | AdminGroups | ReadOnlyGroups | IncludeOrigins | ExcludeOrigins
    | LegacyOrigins | LegacyExtraScenarios | ManualDecisionScenarios

  /** What an indexed variable name says; an absent number in the name means index 0. */
  datatype Target =
    | Element(setting: ListSetting, index: nat)
    | InstanceValue(instance: nat, suffix: string)
    | InstancePassword(instance: nat)
    | EndpointValue(instance: nat, endpoint: nat, suffix: string)
    | EndpointPassword(instance: nat, endpoint: nat)
    | EndpointToken(instance: nat, endpoint: nat)

  datatype Secret = NoSecret | Direct | File

  datatype Variable = Variable(name: string, target: Target, fromFile: bool, text: string)

  /** A setting with its own variable: a section or value, or a secret given directly or by file. */
  datatype Plain =
    | Value(name: string, path: Path, text: Option<string>)
    | SecretValue(name: string, path: Path, direct: bool, file: Option<string>)

  datatype Override = Override(name: string, path: Path, secret: Secret, authType: bool, text: string)

  /** One call of setConfigPath: `path` is the setting, `authType` says its block is reset first. */
  datatype Write = Write(path: Path, value: Json, authType: bool)

  function Names(names: seq<string>): (p: Path)
    ensures |p| == |names| && AllNames(p)
    ensures forall k :: 0 <= k < |p| ==> p[k] == Name(names[k])
  {
    seq(|names|, i requires 0 <= i < |names| => Name(names[i]))
  }

  predicate AllNames(p: Path) {
    forall k :: 0 <= k < |p| ==> p[k].Name?
  }

  function ListPath(setting: ListSetting): Path {
    match setting
    case AdminGroups => Names(["auth", "oidc", "adminGroups"])
    case ReadOnlyGroups => Names(["auth", "oidc", "readOnlyGroups"])
    case IncludeOrigins => Names(["crowdsec", "alertFilters", "includeOrigins"])
    case ExcludeOrigins => Names(["crowdsec", "alertFilters", "excludeOrigins"])
    case LegacyOrigins => Names(["crowdsec", "alertFilters", "legacy", "origins"])
    case LegacyExtraScenarios => Names(["crowdsec", "alertFilters", "legacy", "extraScenarios"])
    case ManualDecisionScenarios => Names(["crowdsec", "manualDecisions", "scenarios"])
  }

  function InstanceSuffix(suffix: string): Option<seq<string>> {
    match suffix
    case "ID" => Some(["id"])
    case "NAME" => Some(["name"])
    case "ICON" => Some(["icon"])
    case "LAPI" => Some(["lapi"])
    case "LAPI_URL" => Some(["lapi", "url"])
    case "LAPI_AUTH" => Some(["lapi", "auth"])
    case "LAPI_AUTH_TYPE" => Some(["lapi", "auth", "type"])
    case "LAPI_AUTH_USERNAME" => Some(["lapi", "auth", "username"])
    case "LAPI_AUTH_CERT_FILE" => Some(["lapi", "auth", "certFile"])
    case "LAPI_AUTH_KEY_FILE" => Some(["lapi", "auth", "keyFile"])
    case "LAPI_TLS" => Some(["lapi", "tls"])
    case "LAPI_TLS_CA_FILE" => Some(["lapi", "tls", "caFile"])
    case "METRICS" => Some(["metrics"])
    case "MANUAL_DECISIONS" => Some(["manualDecisions"])
    case "MANUAL_DECISIONS_SCENARIOS" => Some(["manualDecisions", "scenarios"])
    case "SYNC" => Some(["sync"])
    case _ => SyncSuffix(suffix)
  }

  function SyncSuffix(suffix: string): (r: Option<seq<string>>)
    ensures r.Some? ==> |r.value| == 2 && r.value[0] == "sync"
  {
    match suffix
    case "SYNC_LOOKBACK" => Some(["sync", "lookback"])
    case "SYNC_REFRESH_INTERVAL" => Some(["sync", "refreshInterval"])
    case "SYNC_IDLE_REFRESH_INTERVAL" => Some(["sync", "idleRefreshInterval"])
    case "SYNC_IDLE_THRESHOLD" => Some(["sync", "idleThreshold"])
    case "SYNC_REQUEST_TIMEOUT" => Some(["sync", "requestTimeout"])
    case "SYNC_HEARTBEAT_INTERVAL" => Some(["sync", "heartbeatInterval"])
    case "SYNC_ALERT_SYNC_CHUNK" => Some(["sync", "alertSyncChunk"])
    case "SYNC_ALERT_SYNC_MIN_CHUNK" => Some(["sync", "alertSyncMinChunk"])
    case "SYNC_RECONCILE_WINDOW" => Some(["sync", "reconcileWindow"])
    case "SYNC_RECONCILE_RECENT_AGE" => Some(["sync", "reconcileRecentAge"])
    case "SYNC_RECONCILE_RECENT_INTERVAL" => Some(["sync", "reconcileRecentInterval"])
    case "SYNC_RECONCILE_ACTIVE_INTERVAL" => Some(["sync", "reconcileActiveInterval"])
    case "SYNC_RECONCILE_OLD_INTERVAL" => Some(["sync", "reconcileOldInterval"])
    case "SYNC_RECONCILE_WINDOWS_PER_REFRESH" => Some(["sync", "reconcileWindowsPerRefresh"])
    case "SYNC_BOOTSTRAP_RETRY_DELAY" => Some(["sync", "bootstrapRetryDelay"])
    case "SYNC_BOOTSTRAP_RETRY_ENABLED" => Some(["sync", "bootstrapRetryEnabled"])
    case "SYNC_BOUNCER_PROPAGATION_DELAY" => Some(["sync", "bouncerPropagationDelay"])
    case _ => None
  }

  function EndpointSuffix(suffix: string): Option<seq<string>> {
    match suffix
    case "ID" => Some(["id"])
    case "NAME" => Some(["name"])
    case "ICON" => Some(["icon"])
    case "URL" => Some(["url"])
    case "REQUEST_TIMEOUT" => Some(["requestTimeout"])
    case "AUTH" => Some(["auth"])
    case "AUTH_TYPE" => Some(["auth", "type"])
    case "AUTH_USERNAME" => Some(["auth", "username"])
    case "TLS" => Some(["tls"])
    case "TLS_CA_FILE" => Some(["tls", "caFile"])
    case "TLS_CERT_FILE" => Some(["tls", "certFile"])
    case "TLS_KEY_FILE" => Some(["tls", "keyFile"])
    case _ => None
  }

  function InstancePath(instance: nat): Path { [Name("instances"), Index(instance)] }

  function EndpointPath(instance: nat, endpoint: nat): Path {
    InstancePath(instance) + [Name("metrics"), Index(endpoint)]
  }

  function TargetPath(target: Target): Option<Path> {
    match target
    case Element(setting, index) => Some(ListPath(setting) + [Index(index)])
    case InstanceValue(instance, suffix) =>
      var relative := InstanceSuffix(suffix);
      if relative.None? then None else Some(InstancePath(instance) + Names(relative.value))
    case InstancePassword(instance) => Some(InstancePath(instance) + Names(["lapi", "auth", "password"]))
    case EndpointValue(instance, endpoint, suffix) =>
      var relative := EndpointSuffix(suffix);
      if relative.None? then None else Some(EndpointPath(instance, endpoint) + Names(relative.value))
    case EndpointPassword(instance, endpoint) => Some(EndpointPath(instance, endpoint) + Names(["auth", "password"]))
    case EndpointToken(instance, endpoint) => Some(EndpointPath(instance, endpoint) + Names(["auth", "token"]))
  }

  predicate IsSecret(target: Target) {
    target.InstancePassword? || target.EndpointPassword? || target.EndpointToken?
  }

  /** The known names that end in `_AUTH_TYPE`. */
  predicate IsAuthType(target: Target) {
    || (target.InstanceValue? && target.suffix == "LAPI_AUTH_TYPE")
    || (target.EndpointValue? && target.suffix == "AUTH_TYPE")
  }

  function ToOverride(v: Variable): Result<Override> {
    var path := TargetPath(v.target);
    if path.None? then Err("unknown indexed CONFIG_ variable")
    else
      var secret := if !IsSecret(v.target) then NoSecret else if v.fromFile then File else Direct;
      Ok(Override(v.name, path.value, secret, IsAuthType(v.target), v.text))
  }

  function Collect(vars: seq<Variable>): Result<seq<Override>> {
    if vars == [] then Ok([])
    else
      var init := Collect(vars[..|vars| - 1]);
      if init.Err? then init
      else
        var last := ToOverride(vars[|vars| - 1]);
        if last.Err? then Err(last.message) else Ok(init.value + [last.value])
  }

  predicate DistinctPaths(list: seq<Override>) {
    forall i, j :: 0 <= i < j < |list| ==> list[i].path != list[j].path
  }

  /** The comparator: shorter paths first, then `_AUTH_TYPE` names. Negative, zero or positive. */
  function Compare(a: Override, b: Override): int {
    if |a.path| != |b.path| then |a.path| - |b.path|
    else (if b.authType then 1 else 0) - (if a.authType then 1 else 0)
  }

  /** Inserting behind equals keeps the sort stable. */
  function Insert(sorted: seq<Override>, o: Override): seq<Override> {
    if sorted == [] || Compare(sorted[|sorted| - 1], o) <= 0 then sorted + [o]
    else Insert(sorted[..|sorted| - 1], o) + [sorted[|sorted| - 1]]
  }

  function SortOverrides(list: seq<Override>): seq<Override> {
    if list == [] then [] else Insert(SortOverrides(list[..|list| - 1]), list[|list| - 1])
  }

  /** indexedConfigOverrides */
  function IndexedOverrides(vars: seq<Variable>): Result<seq<Override>> {
    var list := Collect(vars);
    if list.Err? then list
    else if !DistinctPaths(list.value) then Err("two variables target the same setting")
    else Ok(SortOverrides(list.value))
  }

  function SecretReference(secret: Secret, name: string, text: string): Json {
    if secret.File? then Obj(map["file" := Scalar(text)]) else Obj(map["env" := Scalar(name)])
  }

  function OverrideWrite(parse: Parser, o: Override): Result<Write> {
    if !o.secret.NoSecret? then Ok(Write(o.path, SecretReference(o.secret, o.name, o.text), false))
    else
      var value := parse(o.name, o.text);
      if value.Err? then Err(value.message) else Ok(Write(o.path, value.value, o.authType))
  }

  /** The writes of one setting of the fixed tables: none when it is not set. */
  function PlainWrites(parse: Parser, p: Plain): Result<seq<Write>> {
    match p
    case Value(name, path, text) =>
      if text.None? then Ok([])
      else
        var value := parse(name, text.value);
        if value.Err? then Err(value.message) else Ok([Write(path, value.value, false)])
    case SecretValue(name, path, direct, file) =>
      if direct && file.Some? then Err("a secret is set both directly and by file")
      else if direct then Ok([Write(path, SecretReference(Direct, name, ""), false)])
      else if file.Some? then Ok([Write(path, SecretReference(File, name, file.value), false)])
      else Ok([])
  }

  function AllPlainWrites(parse: Parser, table: seq<Plain>): Result<seq<Write>> {
    if table == [] then Ok([])
    else
      var init := AllPlainWrites(parse, table[..|table| - 1]);
      if init.Err? then init
      else
        var last := PlainWrites(parse, table[|table| - 1]);
        if last.Err? then last else Ok(init.value + last.value)
  }

  function AllOverrideWrites(parse: Parser, list: seq<Override>): Result<seq<Write>> {
    if list == [] then Ok([])
    else
      var init := AllOverrideWrites(parse, list[..|list| - 1]);
      if init.Err? then init
      else
        var last := OverrideWrite(parse, list[|list| - 1]);
        if last.Err? then Err(last.message) else Ok(init.value + [last.value])
  }

  /** Every write in the order it is made, or the first error. */
  function Writes(parse: Parser, table: seq<Plain>, vars: seq<Variable>): Result<seq<Write>> {
    var plain := AllPlainWrites(parse, table);
    if plain.Err? then plain
    else
      var list := IndexedOverrides(vars);
      if list.Err? then Err(list.message)
      else
        var indexed := AllOverrideWrites(parse, list.value);
        if indexed.Err? then indexed else Ok(plain.value + indexed.value)
  }

  /** Where a write lands: an authentication type replaces its whole block. */
  function Site(w: Write): Path {
    if w.authType && w.path != [] then w.path[..|w.path| - 1] else w.path
  }

  function Stored(w: Write): Json {
    if w.authType then Obj(map["type" := w.value]) else w.value
  }

  predicate Writable(w: Write) {
    Site(w) != [] && Site(w)[0].Name?
  }

  predicate AllWritable(writes: seq<Write>) {
    forall i :: 0 <= i < |writes| ==> Writable(writes[i])
  }

  function ApplyWrite(document: Json, w: Write): (r: Json)
    requires document.Obj? && Writable(w)
    ensures r.Obj?
  {
    Set(document, Site(w), Stored(w))
  }

  function ApplyAll(document: Json, writes: seq<Write>): (r: Json)
    requires document.Obj? && AllWritable(writes)
    ensures r.Obj?
  {
    if writes == [] then document
    else ApplyWrite(ApplyAll(document, writes[..|writes| - 1]), writes[|writes| - 1])
  }

  // ---- The shape of the document ----

  /** The nodes that hold lists. */
  ghost predicate ListNode(p: Path) {
    || p == [Name("instances")]
    || (|p| == 3 && p[0] == Name("instances") && p[1].Index? && p[2] == Name("metrics"))
    || exists s: ListSetting :: p == ListPath(s)
  }

  /** Numbers exactly inside lists. */
  ghost predicate InSchema(p: Path) {
    forall k :: 0 <= k < |p| ==> (p[k].Index? <==> ListNode(p[..k]))
  }

  /** What is read off the fixed tables: names only, nothing inside a list, and no setting is followed
      by one that contains it. */
  ghost predicate FixedTable(table: seq<Plain>) {
    && (forall i :: 0 <= i < |table| ==> table[i].path != [] && AllNames(table[i].path) && InSchema(table[i].path))
    && (forall i, j :: 0 <= i < j < |table| ==> !(table[j].path <= table[i].path))
  }

  ghost predicate HasIndex(p: Path) {
    exists k :: 0 <= k < |p| && p[k].Index?
  }

  ghost predicate IndexedShape(path: Path, authType: bool) {
    && InSchema(path) && path != [] && path[0].Name?
    && HasIndex(path)
    && (authType ==> |path| > 2 && path[|path| - 1] == Name("type") && HasIndex(path[..|path| - 1]))
  }

  /** Under an instance, only `metrics` holds a list. */
  lemma InstancePathInSchema(instance: nat, relative: seq<string>)
    requires forall k :: 0 <= k < |relative| - 1 ==> relative[k] != "metrics"
    ensures InSchema(InstancePath(instance) + Names(relative))
    ensures HasIndex(InstancePath(instance) + Names(relative))
  {
    var p := InstancePath(instance) + Names(relative);
    assert p[0] == Name("instances") && p[1].Index?;
    forall k | 0 <= k < |p| ensures p[k].Index? <==> ListNode(p[..k]) {
      NotAListPath(p[..k]);
      if k == 1 {
        assert p[..k] == [Name("instances")];
      } else if k == 3 {
        assert p[..k][2] == p[2] == Name(relative[0]);
      }
    }
  }

  lemma EndpointPathInSchema(instance: nat, endpoint: nat, relative: seq<string>)
    ensures InSchema(EndpointPath(instance, endpoint) + Names(relative))
    ensures HasIndex(EndpointPath(instance, endpoint) + Names(relative))
  {
    var p := EndpointPath(instance, endpoint) + Names(relative);
    assert p[0] == Name("instances") && p[1].Index? && p[2] == Name("metrics") && p[3].Index?;
    forall k | 0 <= k < |p| ensures p[k].Index? <==> ListNode(p[..k]) {
      NotAListPath(p[..k]);
      if k == 1 {
        assert p[..k] == [Name("instances")];
      }
    }
  }

  lemma NotAListPath(p: Path)
    requires p == [] || p[0] == Name("instances")
    ensures forall s: ListSetting :: p != ListPath(s)
  {
    assert Name("instances").name[0] == 'i';
    forall s: ListSetting ensures p != ListPath(s) {
      assert ListPath(s)[0].name[0] in {'a', 'c'};
    }
  }

  lemma ListPathInSchema(setting: ListSetting, index: nat)
    ensures IndexedShape(ListPath(setting) + [Index(index)], false)
  {
    var p := ListPath(setting) + [Index(index)];
    assert p[|p| - 1].Index?;
    assert p[0].name[0] in {'a', 'c'} && Name("instances").name[0] == 'i';
    forall k | 0 <= k < |p| ensures p[k].Index? <==> ListNode(p[..k]) {
      if k == |p| - 1 {
        assert p[..k] == ListPath(setting);
      } else {
        assert p[k] == ListPath(setting)[k];
        assert k > 0 ==> p[..k][0] == p[0];
        forall s: ListSetting ensures p[..k] != ListPath(s) {
          assert |p[..k]| == 3 ==> p[..k][2] == ListPath(setting)[2] == Name("legacy");
          assert |ListPath(s)| == 3 ==> ListPath(s)[2] != Name("legacy");
        }
      }
    }
  }

  /** Every variable the tables know addresses a place inside a list, and an authentication type ends in
      `type`. */
  lemma TargetShape(target: Target)
    requires TargetPath(target).Some?
    ensures IndexedShape(TargetPath(target).value, IsAuthType(target))
  {
    match target
    case Element(setting, index) => ListPathInSchema(setting, index);
    case InstanceValue(instance, suffix) => InstanceValueShape(instance, suffix);
    case InstancePassword(instance) => InstancePathInSchema(instance, ["lapi", "auth", "password"]);
    case EndpointValue(instance, endpoint, suffix) => EndpointValueShape(instance, endpoint, suffix);
    case EndpointPassword(instance, endpoint) => EndpointPathInSchema(instance, endpoint, ["auth", "password"]);
    case EndpointToken(instance, endpoint) => EndpointPathInSchema(instance, endpoint, ["auth", "token"]);
  }

  lemma InstanceValueShape(instance: nat, suffix: string)
    requires InstanceSuffix(suffix).Some?
    ensures IndexedShape(InstancePath(instance) + Names(InstanceSuffix(suffix).value), suffix == "LAPI_AUTH_TYPE")
  {
    InstanceSuffixShape(suffix);
    var relative := InstanceSuffix(suffix).value;
    var p := InstancePath(instance) + Names(relative);
    InstancePathInSchema(instance, relative);
    if suffix == "LAPI_AUTH_TYPE" {
      assert p[..|p| - 1][1].Index?;
      assert p[|p| - 1] == Name(relative[2]);
    }
  }

  lemma EndpointValueShape(instance: nat, endpoint: nat, suffix: string)
    requires EndpointSuffix(suffix).Some?
    ensures IndexedShape(EndpointPath(instance, endpoint) + Names(EndpointSuffix(suffix).value), suffix == "AUTH_TYPE")
  {
    var relative := EndpointSuffix(suffix).value;
    var p := EndpointPath(instance, endpoint) + Names(relative);
    EndpointPathInSchema(instance, endpoint, relative);
    if suffix == "AUTH_TYPE" {
      assert relative == ["auth", "type"];
      assert p[..|p| - 1][1].Index?;
      assert p[|p| - 1] == Name(relative[1]);
    }
  }

  lemma InstanceSuffixShape(suffix: string)
    requires InstanceSuffix(suffix).Some?
    ensures var r := InstanceSuffix(suffix).value; forall k :: 0 <= k < |r| - 1 ==> r[k] != "metrics"
    ensures suffix == "LAPI_AUTH_TYPE" ==> InstanceSuffix(suffix) == Some(["lapi", "auth", "type"])
  {
    var r := InstanceSuffix(suffix).value;
    assert "metrics"[0] == 'm' && "metrics"[1] == 'e';
    forall k | 0 <= k < |r| - 1 ensures r[k] != "metrics" {
      assert r[k] in {"lapi", "auth", "tls", "manualDecisions", "sync"};
      assert r[k][0] != 'm' || r[k][1] != 'e';
    }
  }

  // ---- The sort ----

  ghost predicate Ordered(list: seq<Override>) {
    forall i, j :: 0 <= i < j < |list| ==> Compare(list[i], list[j]) <= 0
  }

  lemma {:induction false} InsertAdds(sorted: seq<Override>, o: Override)
    ensures multiset(Insert(sorted, o)) == multiset(sorted) + multiset{o}
    ensures forall k :: 0 <= k < |Insert(sorted, o)| ==> Insert(sorted, o)[k] == o || Insert(sorted, o)[k] in sorted
    decreases |sorted|
  {
    if sorted != [] && Compare(sorted[|sorted| - 1], o) > 0 {
      var init, last := sorted[..|sorted| - 1], sorted[|sorted| - 1];
      assert sorted == init + [last];
      InsertAdds(init, o);
    }
  }

  lemma {:induction false} InsertOrders(sorted: seq<Override>, o: Override)
    requires Ordered(sorted)
    ensures Ordered(Insert(sorted, o))
    decreases |sorted|
  {
    if sorted != [] && Compare(sorted[|sorted| - 1], o) > 0 {
      var init, last := sorted[..|sorted| - 1], sorted[|sorted| - 1];
      InsertOrders(init, o);
      InsertAdds(init, o);
      var rest := Insert(init, o);
      forall i | 0 <= i < |rest| ensures Compare(rest[i], last) <= 0 {
        if rest[i] != o {
          var k :| 0 <= k < |init| && init[k] == rest[i];
          assert sorted[k] == rest[i];
        }
      }
    }
  }

  lemma {:induction false} InsertKeepsDistinct(sorted: seq<Override>, o: Override)
    requires DistinctPaths(sorted) && forall k :: 0 <= k < |sorted| ==> sorted[k].path != o.path
    ensures DistinctPaths(Insert(sorted, o))
    decreases |sorted|
  {
    if sorted != [] && Compare(sorted[|sorted| - 1], o) > 0 {
      var init, last := sorted[..|sorted| - 1], sorted[|sorted| - 1];
      InsertKeepsDistinct(init, o);
      InsertAdds(init, o);
      var rest := Insert(init, o);
      forall i | 0 <= i < |rest| ensures rest[i].path != last.path {
        if rest[i] != o {
          var k :| 0 <= k < |init| && init[k] == rest[i];
          assert sorted[k] == rest[i];
        }
      }
    }
  }

  /** The sort rearranges, and leaves shorter paths first and authentication types first among equals. */
  lemma {:induction false} SortOrders(list: seq<Override>)
    ensures multiset(SortOverrides(list)) == multiset(list)
    ensures Ordered(SortOverrides(list))
    ensures DistinctPaths(list) ==> DistinctPaths(SortOverrides(list))
    decreases |list|
  {
    if list != [] {
      var init, last := list[..|list| - 1], list[|list| - 1];
      assert list == init + [last];
      SortOrders(init);
      var sorted := SortOverrides(init);
      InsertAdds(sorted, last);
      InsertOrders(sorted, last);
      if DistinctPaths(list) {
        forall i | 0 <= i < |sorted| ensures sorted[i].path != last.path {
          assert sorted[i] in multiset(sorted);
          var k :| 0 <= k < |init| && init[k] == sorted[i];
          assert list[k] == sorted[i];
        }
        InsertKeepsDistinct(sorted, last);
      }
    }
  }

  // ---- What survives ----

  ghost predicate WriteShape(w: Write) {
    && w.path != [] && w.path[0].Name? && InSchema(w.path)
    && (w.authType ==> |w.path| > 2 && w.path[|w.path| - 1] == Name("type"))
  }

  /** A later write lands on or above an earlier setting only to refine it. */
  ghost predicate Clear(writes: seq<Write>) {
    forall i, j :: 0 <= i < j < |writes| && Site(writes[j]) <= writes[i].path ==> writes[i].path < writes[j].path
  }

  lemma SharedPrefix(p: Path, q: Path, n: nat)
    requires n <= |p| && n <= |q| && p[..n] == q[..n]
    ensures n == |p| ==> p <= q
    ensures n == |q| ==> q <= p
  {
    assert n == |p| ==> p == q[..n];
    assert n == |q| ==> q == p[..n];
  }

  lemma PrefixOfSite(p: Path, w: Write)
    requires Site(w) <= w.path && p <= Site(w)
    ensures p <= w.path && (p == w.path ==> Site(w) <= p)
  {
  }

  lemma SameBlock(p: Path, w: Write)
    requires |p| == |w.path| > 0 && Site(w) <= p && Site(w) <= w.path
    requires w.authType ==> p[|p| - 1] == w.path[|p| - 1]
    ensures p == w.path
  {
    if w.authType {
      assert p == Site(w) + [p[|p| - 1]];
      assert w.path == Site(w) + [w.path[|p| - 1]];
    }
  }

  /** Schema paths, neither inside the other, part ways at keys of one kind. */
  lemma ApartDiverge(p: Path, q: Path)
    requires InSchema(p) && InSchema(q) && !(p <= q) && !(q <= p)
    ensures Diverge(p, q)
  {
    var k := 0;
    while p[..k + 1] == q[..k + 1]
      invariant k < |p| && k < |q| && p[..k] == q[..k]
      decreases |p| - k
    {
      SharedPrefix(p, q, k + 1);
      k := k + 1;
    }
    assert p[..k + 1] == p[..k] + [p[k]] && q[..k + 1] == q[..k] + [q[k]];
    DivergeAt(p, q, k);
  }

  lemma SiteInSchema(w: Write)
    requires WriteShape(w)
    ensures Writable(w) && InSchema(Site(w)) && Site(w) <= w.path
  {
    var s := Site(w);
    forall k | 0 <= k < |s| ensures s[k].Index? <==> ListNode(s[..k]) {
      assert s[..k] == w.path[..k];
    }
  }

  lemma ReadBack(document: Json, w: Write)
    requires document.Obj? && WriteShape(w) && Writable(w)
    ensures Get(ApplyWrite(document, w), w.path) == w.value
    ensures Kinded(ApplyWrite(document, w), w.path)
  {
    GetSet(document, Site(w), Stored(w));
    if w.authType {
      var r := ApplyWrite(document, w);
      assert w.path == Site(w) + [Name("type")];
      GetAppend(r, Site(w), [Name("type")]);
      assert Get(Stored(w), [Name("type")]) == Child(Stored(w), Name("type"));
      KindedAppend(r, Site(w), Name("type"));
    }
  }

  /** Why authentication types go first among equals: writing one empties the rest of its block. */
  lemma ResetErasesSiblings(document: Json, w: Write, sibling: string)
    requires document.Obj? && WriteShape(w) && Writable(w) && w.authType && sibling != "type"
    ensures Get(ApplyWrite(document, w), Site(w) + [Name(sibling)]) == Undefined
  {
    GetSet(document, Site(w), Stored(w));
    GetAppend(ApplyWrite(document, w), Site(w), [Name(sibling)]);
    assert Get(Stored(w), [Name(sibling)]) == Child(Stored(w), Name(sibling));
  }

  lemma {:induction false} WriteSurvives(document: Json, writes: seq<Write>, i: nat)
    requires document.Obj? && i < |writes|
    requires forall j :: 0 <= j < |writes| ==> WriteShape(writes[j]) && Writable(writes[j])
    requires Clear(writes)
    requires forall j :: 0 <= j < |writes| ==> !(writes[i].path < writes[j].path)
    ensures Get(ApplyAll(document, writes), writes[i].path) == writes[i].value
    ensures Kinded(ApplyAll(document, writes), writes[i].path)
    decreases |writes|
  {
    var init, last := writes[..|writes| - 1], writes[|writes| - 1];
    if i == |init| {
      ReadBack(ApplyAll(document, init), last);
    } else {
      WriteSurvives(document, init, i);
      SiteInSchema(last);
      assert !(Site(last) <= writes[i].path);
      if writes[i].path <= Site(last) {
        PrefixOfSite(writes[i].path, last);
        assert false;
      }
      ApartDiverge(Site(last), writes[i].path);
      GetSetOther(ApplyAll(document, init), Site(last), Stored(last), writes[i].path);
    }
  }

  /** A setting of the document that no write touches, contains or refines keeps its value. */
  lemma {:induction false} UntouchedKept(document: Json, writes: seq<Write>, q: Path)
    requires document.Obj? && InSchema(q) && Kinded(document, q)
    requires forall j :: 0 <= j < |writes| ==> WriteShape(writes[j]) && Writable(writes[j])
    requires forall j :: 0 <= j < |writes| ==> !(Site(writes[j]) <= q) && !(q <= Site(writes[j]))
    ensures Get(ApplyAll(document, writes), q) == Get(document, q)
    ensures Kinded(ApplyAll(document, writes), q)
    decreases |writes|
  {
    if writes != [] {
      var init, last := writes[..|writes| - 1], writes[|writes| - 1];
      UntouchedKept(document, init, q);
      SiteInSchema(last);
      ApartDiverge(Site(last), q);
      GetSetOther(ApplyAll(document, init), Site(last), Stored(last), q);
    }
  }

  // ---- The writes of one environment ----

  /** A plain write and the table row it came from. */
  ghost predicate FromRow(w: Write, table: seq<Plain>) {
    !w.authType && exists k :: 0 <= k < |table| && table[k].path == w.path
  }

  lemma {:induction false} PlainWritesFollow(parse: Parser, table: seq<Plain>)
    requires FixedTable(table) && AllPlainWrites(parse, table).Ok?
    ensures var ws := AllPlainWrites(parse, table).value;
            && Clear(ws)
            && forall i :: 0 <= i < |ws| ==> FromRow(ws[i], table)
    decreases |table|
  {
    if table != [] {
      var init, last := table[..|table| - 1], table[|table| - 1];
      PlainWritesFollow(parse, init);
      var before, now := AllPlainWrites(parse, init).value, PlainWrites(parse, last).value;
      assert |now| <= 1 && forall i :: 0 <= i < |now| ==> now[i].path == last.path && !now[i].authType;
      forall i | 0 <= i < |before| ensures FromRow(before[i], table) && !(last.path <= before[i].path) {
        var k :| 0 <= k < |init| && init[k].path == before[i].path;
        assert table[k] == init[k];
      }
      assert table[|table| - 1].path == last.path;
    }
  }

  lemma PlainWritesClear(parse: Parser, table: seq<Plain>)
    requires FixedTable(table) && AllPlainWrites(parse, table).Ok?
    ensures var ws := AllPlainWrites(parse, table).value;
            && Clear(ws)
            && forall i :: 0 <= i < |ws| ==> WriteShape(ws[i]) && AllNames(ws[i].path)
  {
    PlainWritesFollow(parse, table);
    var ws := AllPlainWrites(parse, table).value;
    forall i | 0 <= i < |ws| ensures WriteShape(ws[i]) && AllNames(ws[i].path) {
      var k :| 0 <= k < |table| && table[k].path == ws[i].path;
    }
  }

  lemma {:induction false} CollectShape(vars: seq<Variable>)
    requires Collect(vars).Ok?
    ensures var list := Collect(vars).value;
            |list| == |vars| && forall i :: 0 <= i < |list| ==> IndexedShape(list[i].path, list[i].authType)
    decreases |vars|
  {
    if vars != [] {
      CollectShape(vars[..|vars| - 1]);
      TargetShape(vars[|vars| - 1].target);
    }
  }

  lemma {:induction false} OverrideWritesFollow(parse: Parser, list: seq<Override>)
    requires AllOverrideWrites(parse, list).Ok?
    ensures var ws := AllOverrideWrites(parse, list).value;
            |ws| == |list| && forall i :: 0 <= i < |ws| ==>
              ws[i].path == list[i].path && (ws[i].authType ==> list[i].authType)
    decreases |list|
  {
    if list != [] {
      OverrideWritesFollow(parse, list[..|list| - 1]);
    }
  }

  lemma IndexedWritesClear(parse: Parser, list: seq<Override>)
    requires Ordered(list) && DistinctPaths(list) && AllOverrideWrites(parse, list).Ok?
    requires forall i :: 0 <= i < |list| ==> IndexedShape(list[i].path, list[i].authType)
    ensures var ws := AllOverrideWrites(parse, list).value;
            && Clear(ws)
            && forall i :: 0 <= i < |ws| ==> WriteShape(ws[i]) && HasIndex(Site(ws[i]))
  {
    OverrideWritesFollow(parse, list);
    var ws := AllOverrideWrites(parse, list).value;
    forall i, j | 0 <= i < j < |ws| && Site(ws[j]) <= ws[i].path ensures ws[i].path < ws[j].path {
      assert Compare(list[i], list[j]) <= 0;
      var p, q := ws[i].path, ws[j].path;
      if |p| == |q| {
        SameBlock(p, ws[j]);
        assert false;
      } else {
        assert p == Site(ws[j]);
      }
    }
  }

  lemma IndexedOverridesFit(vars: seq<Variable>)
    requires IndexedOverrides(vars).Ok?
    ensures var list := IndexedOverrides(vars).value;
            && Ordered(list) && DistinctPaths(list)
            && forall i :: 0 <= i < |list| ==> IndexedShape(list[i].path, list[i].authType)
  {
    var collected := Collect(vars).value;
    CollectShape(vars);
    SortOrders(collected);
    var list := SortOverrides(collected);
    forall i | 0 <= i < |list| ensures IndexedShape(list[i].path, list[i].authType) {
      assert list[i] in multiset(list);
      var k :| 0 <= k < |collected| && collected[k] == list[i];
    }
  }

  /** No indexed write lands on or above a setting of the fixed tables. */
  lemma JoinClear(plain: seq<Write>, indexed: seq<Write>)
    requires Clear(plain) && forall i :: 0 <= i < |plain| ==> AllNames(plain[i].path)
    requires Clear(indexed) && forall i :: 0 <= i < |indexed| ==> HasIndex(Site(indexed[i]))
    ensures Clear(plain + indexed)
  {
    forall i, j | 0 <= i < |plain| && 0 <= j < |indexed| ensures !(Site(indexed[j]) <= plain[i].path) {
      var k :| 0 <= k < |Site(indexed[j])| && Site(indexed[j])[k].Index?;
      assert k < |plain[i].path| ==> plain[i].path[k].Name?;
    }
  }

  lemma WritesAreClear(parse: Parser, table: seq<Plain>, vars: seq<Variable>)
    requires FixedTable(table) && Writes(parse, table, vars).Ok?
    ensures Clear(Writes(parse, table, vars).value)
    ensures var ws := Writes(parse, table, vars).value;
            forall i :: 0 <= i < |ws| ==> WriteShape(ws[i]) && Writable(ws[i])
  {
    var list := IndexedOverrides(vars).value;
    PlainWritesClear(parse, table);
    IndexedOverridesFit(vars);
    IndexedWritesClear(parse, list);
    JoinClear(AllPlainWrites(parse, table).value, AllOverrideWrites(parse, list).value);
    var ws := Writes(parse, table, vars).value;
    forall i | 0 <= i < |ws| ensures Writable(ws[i]) {
      SiteInSchema(ws[i]);
    }
  }

  /** The document after the environment has been applied, or the first error. */
  function ApplyEnvironment(document: Json, parse: Parser, table: seq<Plain>, vars: seq<Variable>): Result<Json>
    requires document.Obj? && FixedTable(table)
  {
    var writes := Writes(parse, table, vars);
    if writes.Err? then Err(writes.message)
    else
      WritesAreClear(parse, table, vars);
      Ok(ApplyAll(document, writes.value))
  }

  /** Every applied override that no other one refines reads back its own value at its own path,
      whatever the document held and in whatever order the variables were set. */
  lemma OverrideSurvives(document: Json, parse: Parser, table: seq<Plain>, vars: seq<Variable>, i: nat)
    requires document.Obj? && FixedTable(table) && ApplyEnvironment(document, parse, table, vars).Ok?
    requires i < |Writes(parse, table, vars).value|
    requires var ws := Writes(parse, table, vars).value; forall j :: 0 <= j < |ws| ==> !(ws[i].path < ws[j].path)
    ensures var w := Writes(parse, table, vars).value[i];
            Get(ApplyEnvironment(document, parse, table, vars).value, w.path) == w.value
  {
    WritesAreClear(parse, table, vars);
    WriteSurvives(document, Writes(parse, table, vars).value, i);
  }

  /** A setting that no override touches, contains or refines keeps what the document said. */
  lemma OthersUntouched(document: Json, parse: Parser, table: seq<Plain>, vars: seq<Variable>, q: Path)
    requires document.Obj? && FixedTable(table) && ApplyEnvironment(document, parse, table, vars).Ok?
    requires InSchema(q) && Kinded(document, q)
    requires var ws := Writes(parse, table, vars).value;
             forall j :: 0 <= j < |ws| ==> !(Site(ws[j]) <= q) && !(q <= Site(ws[j]))
    ensures Get(ApplyEnvironment(document, parse, table, vars).value, q) == Get(document, q)
  {
    WritesAreClear(parse, table, vars);
    UntouchedKept(document, Writes(parse, table, vars).value, q);
  }

  /** Two variables for one setting are refused whatever else is set. */
  lemma ConflictRefused(parse: Parser, table: seq<Plain>, vars: seq<Variable>, i: nat, j: nat)
    requires i < j < |vars| && TargetPath(vars[i].target).Some?
    requires TargetPath(vars[i].target) == TargetPath(vars[j].target)
    ensures Writes(parse, table, vars).Err?
  {
    if Collect(vars).Ok? {
      CollectKeepsPlace(vars, i);
      CollectKeepsPlace(vars, j);
    }
  }

  lemma {:induction false} CollectKeepsPlace(vars: seq<Variable>, i: nat)
    requires i < |vars| && Collect(vars).Ok?
    ensures |Collect(vars).value| == |vars| && Ok(Collect(vars).value[i]) == ToOverride(vars[i])
    decreases |vars|
  {
    var init := vars[..|vars| - 1];
    if i < |init| {
      CollectKeepsPlace(init, i);
    } else if |init| > 0 {
      CollectKeepsPlace(init, 0);
    }
  }

  // ---- The loops ----

  method CollectOverrides(vars: seq<Variable>) returns (r: Result<seq<Override>>)
    ensures r == IndexedOverrides(vars)
  {
    var overrides: seq<Override> := [];
    for n := 0 to |vars|
      invariant Collect(vars[..n]) == Ok(overrides)
    {
      assert vars[..n + 1][..n] == vars[..n];
      var o := ToOverride(vars[n]);
      if o.Err? {
        ErrorStays(vars, n + 1);
        return Err(o.message);
      }
      overrides := overrides + [o.value];
    }
    assert vars[..|vars|] == vars;
    var distinct := CheckDistinct(overrides);
    if !distinct {
      return Err("two variables target the same setting");
    }
    r := Ok(SortOverrides(overrides));
  }

  method CheckDistinct(overrides: seq<Override>) returns (distinct: bool)
    ensures distinct == DistinctPaths(overrides)
  {
    var paths: map<Path, string> := map[];
    for n := 0 to |overrides|
      invariant forall i :: 0 <= i < n ==> overrides[i].path in paths
      invariant forall p :: p in paths ==> exists i :: 0 <= i < n && overrides[i].path == p
      invariant forall i, j :: 0 <= i < j < n ==> overrides[i].path != overrides[j].path
    {
      if overrides[n].path in paths {
        return false;
      }
      paths := paths[overrides[n].path := overrides[n].name];
    }
    distinct := true;
  }

  lemma {:induction false} ErrorStays(vars: seq<Variable>, n: nat)
    requires n <= |vars| && Collect(vars[..n]).Err?
    ensures Collect(vars) == Collect(vars[..n])
    decreases |vars| - n
  {
    if n == |vars| {
      assert vars[..n] == vars;
    } else {
      assert vars[..n + 1][..n] == vars[..n];
      ErrorStays(vars, n + 1);
    }
  }

  lemma {:induction false} PlainErrorStays(parse: Parser, table: seq<Plain>, n: nat)
    requires n <= |table| && AllPlainWrites(parse, table[..n]).Err?
    ensures AllPlainWrites(parse, table) == AllPlainWrites(parse, table[..n])
    decreases |table| - n
  {
    if n == |table| {
      assert table[..n] == table;
    } else {
      assert table[..n + 1][..n] == table[..n];
      PlainErrorStays(parse, table, n + 1);
    }
  }

  lemma {:induction false} OverrideErrorStays(parse: Parser, list: seq<Override>, n: nat)
    requires n <= |list| && AllOverrideWrites(parse, list[..n]).Err?
    ensures AllOverrideWrites(parse, list) == AllOverrideWrites(parse, list[..n])
    decreases |list| - n
  {
    if n == |list| {
      assert list[..n] == list;
    } else {
      assert list[..n + 1][..n] == list[..n];
      OverrideErrorStays(parse, list, n + 1);
    }
  }

  /** Making one write after others. */
  lemma ApplyOneMore(document: Json, writes: seq<Write>, w: Write)
    requires document.Obj? && Writable(w) && AllWritable(writes)
    ensures ApplyAll(document, writes + [w]) == ApplyWrite(ApplyAll(document, writes), w)
  {
    assert (writes + [w])[..|writes|] == writes;
  }

  lemma AtMostOneWrite(parse: Parser, p: Plain)
    requires p.path != [] && AllNames(p.path) && PlainWrites(parse, p).Ok?
    ensures var ws := PlainWrites(parse, p).value; ws == [] || (|ws| == 1 && Writable(ws[0]))
  {
  }

  lemma PlainStep(parse: Parser, table: seq<Plain>, n: nat, writes: seq<Write>, more: seq<Write>)
    requires n < |table| && AllPlainWrites(parse, table[..n]) == Ok(writes) && PlainWrites(parse, table[n]) == Ok(more)
    ensures AllPlainWrites(parse, table[..n + 1]) == Ok(writes + more)
  {
    assert table[..n + 1][..n] == table[..n];
  }

  method ApplyPlain(document: Json, parse: Parser, table: seq<Plain>)
    returns (r: Result<Json>, ghost writes: seq<Write>)
    requires document.Obj? && forall i :: 0 <= i < |table| ==> table[i].path != [] && AllNames(table[i].path)
    ensures AllPlainWrites(parse, table).Err? ==> r == Err(AllPlainWrites(parse, table).message)
    ensures AllPlainWrites(parse, table).Ok? ==>
              && writes == AllPlainWrites(parse, table).value
              && AllWritable(writes)
              && r == Ok(ApplyAll(document, writes))
  {
    var current := document;
    writes := [];
    for n := 0 to |table|
      invariant AllPlainWrites(parse, table[..n]) == Ok(writes)
      invariant AllWritable(writes)
      invariant current.Obj? && current == ApplyAll(document, writes)
    {
      var step := PlainWrites(parse, table[n]);
      if step.Err? {
        assert table[..n + 1][..n] == table[..n];
        PlainErrorStays(parse, table, n + 1);
        return Err(step.message), writes;
      }
      AtMostOneWrite(parse, table[n]);
      PlainStep(parse, table, n, writes, step.value);
      if step.value == [] {
        assert writes + step.value == writes;
      } else {
        var w := step.value[0];
        assert step.value == [w];
        ApplyOneMore(document, writes, w);
        current := ApplyWrite(current, w);
        writes := writes + [w];
      }
    }
    assert table[..|table|] == table;
    r := Ok(current);
  }

  /** The indexed part of applyConfigEnvironment. Its own check for doubly set secrets never fires. */
  method ApplyIndexed(document: Json, parse: Parser, list: seq<Override>)
    returns (r: Result<Json>, ghost writes: seq<Write>)
    requires document.Obj? && DistinctPaths(list)
    requires forall i :: 0 <= i < |list| ==> |list[i].path| > 1 && list[i].path[0].Name?
    ensures AllOverrideWrites(parse, list).Err? ==> r == Err(AllOverrideWrites(parse, list).message)
    ensures AllOverrideWrites(parse, list).Ok? ==>
              && writes == AllOverrideWrites(parse, list).value
              && AllWritable(writes)
              && r == Ok(ApplyAll(document, writes))
  {
    var current := document;
    var secrets: map<Path, string> := map[];
    writes := [];
    for n := 0 to |list|
      invariant AllOverrideWrites(parse, list[..n]) == Ok(writes)
      invariant AllWritable(writes)
      invariant current.Obj? && current == ApplyAll(document, writes)
      invariant forall i :: n <= i < |list| ==> list[i].path !in secrets
    {
      var o := list[n];
      var step := OverrideWrite(parse, o);
      if !o.secret.NoSecret? {
        assert o.path !in secrets;
        secrets := secrets[o.path := o.name];
      }
      if step.Err? {
        assert list[..n + 1][..n] == list[..n];
        OverrideErrorStays(parse, list, n + 1);
        return Err(step.message), writes;
      }
      OverrideStep(parse, list, n, writes, step.value);
      ApplyOneMore(document, writes, step.value);
      current := ApplyWrite(current, step.value);
      writes := writes + [step.value];
    }
    assert list[..|list|] == list;
    r := Ok(current);
  }

  lemma OverrideStep(parse: Parser, list: seq<Override>, n: nat, writes: seq<Write>, w: Write)
    requires n < |list| && AllOverrideWrites(parse, list[..n]) == Ok(writes) && OverrideWrite(parse, list[n]) == Ok(w)
    ensures AllOverrideWrites(parse, list[..n + 1]) == Ok(writes + [w])
  {
    assert list[..n + 1][..n] == list[..n];
  }

  lemma {:induction false} ApplyJoins(document: Json, first: seq<Write>, second: seq<Write>)
    requires document.Obj?
    requires AllWritable(first)
    requires AllWritable(second)
    ensures ApplyAll(document, first + second) == ApplyAll(ApplyAll(document, first), second)
    decreases |second|
  {
    if second == [] {
      assert first + second == first;
    } else {
      var init, last := second[..|second| - 1], second[|second| - 1];
      assert AllWritable(init) && Writable(last);
      assert first + second == (first + init) + [last];
      assert AllWritable(first + init);
      ApplyJoins(document, first, init);
      ApplyOneMore(document, first + init, last);
    }
  }

  /** applyConfigEnvironment: the fixed tables, then the indexed overrides in their sorted order. */
  method ApplyConfigEnvironment(document: Json, parse: Parser, table: seq<Plain>, vars: seq<Variable>)
    returns (r: Result<Json>)
    requires document.Obj? && FixedTable(table)
    ensures r == ApplyEnvironment(document, parse, table, vars)
  {
    var plain, first := ApplyPlain(document, parse, table);
    if plain.Err? {
      return plain;
    }
    var indexed := CollectOverrides(vars);
    if indexed.Err? {
      return Err(indexed.message);
    }
    IndexedOverridesFit(vars);
    ghost var second: seq<Write>;
    r, second := ApplyIndexed(plain.value, parse, indexed.value);
    if r.Ok? {
      ApplyJoins(document, first, second);
    }
  }
}
