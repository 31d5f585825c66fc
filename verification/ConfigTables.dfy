/** The shipped tables of sections, values and secrets, and what they guarantee. */
module ConfigTables {
  import opened Wrappers
  import opened ConfigTree
  import opened ConfigOverrides

  /** A variable and the last name of the setting it sets. */
  datatype Leaf = Leaf(variable: string, name: string)

  /** Neighbouring rows whose settings lie in one container. */
  datatype Block = Block(prefix: seq<string>, secret: bool, leaves: seq<Leaf>)

  datatype Row = Row(variable: string, path: seq<string>, secret: bool)

  const SECTIONS := Block([], false, [
    Leaf("CONFIG_SERVER", "server"),
    Leaf("CONFIG_STORAGE", "storage"),
    Leaf("CONFIG_UI", "ui"),
    Leaf("CONFIG_AUTH", "auth"),
    Leaf("CONFIG_NOTIFICATIONS", "notifications"),
    Leaf("CONFIG_AUDIT", "audit"),
    Leaf("CONFIG_UPDATES", "updates"),
    Leaf("CONFIG_CROWDSEC", "crowdsec"),
    Leaf("CONFIG_INSTANCES", "instances")])

  const SERVER := Block(["server"], false, [
    Leaf("CONFIG_SERVER_PORT", "port"),
    Leaf("CONFIG_SERVER_BASE_PATH", "basePath"),
    Leaf("CONFIG_SERVER_HOSTNAME", "hostname")])

  const STORAGE := Block(["storage"], false, [
    Leaf("CONFIG_STORAGE_DATA_DIR", "dataDir"),
    Leaf("CONFIG_STORAGE_CACHE_DIR", "cacheDir"),
    Leaf("CONFIG_STORAGE_GEONAMES_DIR", "geonamesDir"),
    Leaf("CONFIG_STORAGE_WAL_ENABLED", "walEnabled"),
    Leaf("CONFIG_STORAGE_INCREMENTAL_VACUUM_ENABLED", "incrementalVacuumEnabled"),
    Leaf("CONFIG_STORAGE_JOURNAL_SIZE_LIMIT", "journalSizeLimit"),
    Leaf("CONFIG_STORAGE_QUERY_TIMEOUT", "queryTimeout"),
    Leaf("CONFIG_STORAGE_ANALYTICS_QUERY_TIMEOUT", "analyticsQueryTimeout")])

  const UI := Block(["ui"], false, [
    Leaf("CONFIG_UI_TIME_ZONE", "timeZone"),
    Leaf("CONFIG_UI_TIME_FORMAT", "timeFormat"),
    Leaf("CONFIG_UI_DATE_FORMAT", "dateFormat"),
    Leaf("CONFIG_UI_READ_ONLY", "readOnly"),
    Leaf("CONFIG_UI_ALLOWLISTS_SIDEBAR_VISIBLE", "allowlistsSidebarVisible"),
    Leaf("CONFIG_UI_METRICS_SIDEBAR_VISIBLE", "metricsSidebarVisible")])

  const AUTH := Block(["auth"], false, [
    Leaf("CONFIG_AUTH_ENABLED", "enabled")])

  const PASSWORD_LOGIN := Block(["auth", "passwordLogin"], false, [
    Leaf("CONFIG_AUTH_PASSWORD_LOGIN_ENABLED", "enabled")])

  const OIDC := Block(["auth", "oidc"], false, [
    Leaf("CONFIG_AUTH_OIDC_ISSUER_URL", "issuerUrl"),
    Leaf("CONFIG_AUTH_OIDC_CLIENT_ID", "clientId"),
    Leaf("CONFIG_AUTH_OIDC_SCOPE", "scope"),
    Leaf("CONFIG_AUTH_OIDC_GROUPS_CLAIM", "groupsClaim"),
    Leaf("CONFIG_AUTH_OIDC_ADMIN_GROUPS", "adminGroups"),
    Leaf("CONFIG_AUTH_OIDC_READ_ONLY_GROUPS", "readOnlyGroups"),
    Leaf("CONFIG_AUTH_OIDC_UNMATCHED_ROLE", "unmatchedRole"),
    Leaf("CONFIG_AUTH_OIDC_END_SESSION", "endSession"),
    Leaf("CONFIG_AUTH_OIDC_AUTO_LOGIN", "autoLogin"),
    Leaf("CONFIG_AUTH_OIDC_BACKCHANNEL_LOGOUT", "backchannelLogout"),
    Leaf("CONFIG_AUTH_OIDC_AUTO_LINK_USERNAME", "autoLinkUsername")])

  const NOTIFICATIONS := Block(["notifications"], false, [
    Leaf("CONFIG_NOTIFICATIONS_ALLOW_PRIVATE_ADDRESSES", "allowPrivateAddresses"),
    Leaf("CONFIG_NOTIFICATIONS_DEBUG_PAYLOADS", "debugPayloads")])

  const AUDIT := Block(["audit"], false, [
    Leaf("CONFIG_AUDIT_ENABLED", "enabled"),
    Leaf("CONFIG_AUDIT_LOG_FILE", "logFile")])

  const UPDATES := Block(["updates"], false, [
    Leaf("CONFIG_UPDATES_ENABLED", "enabled")])

  const CROWDSEC := Block(["crowdsec"], false, [
    Leaf("CONFIG_CROWDSEC_SIMULATIONS_ENABLED", "simulationsEnabled")])

  const ALERT_FILTERS := Block(["crowdsec", "alertFilters"], false, [
    Leaf("CONFIG_CROWDSEC_ALERT_FILTERS_INCLUDE_ORIGINS", "includeOrigins"),
    Leaf("CONFIG_CROWDSEC_ALERT_FILTERS_EXCLUDE_ORIGINS", "excludeOrigins"),
    Leaf("CONFIG_CROWDSEC_ALERT_FILTERS_INCLUDE_CAPI", "includeCapi"),
    Leaf("CONFIG_CROWDSEC_ALERT_FILTERS_INCLUDE_ORIGIN_EMPTY", "includeOriginEmpty"),
    Leaf("CONFIG_CROWDSEC_ALERT_FILTERS_EXCLUDE_ORIGIN_EMPTY", "excludeOriginEmpty")])

  const LEGACY := Block(["crowdsec", "alertFilters", "legacy"], false, [
    Leaf("CONFIG_CROWDSEC_ALERT_FILTERS_LEGACY_ORIGINS", "origins"),
    Leaf("CONFIG_CROWDSEC_ALERT_FILTERS_LEGACY_EXTRA_SCENARIOS", "extraScenarios")])

  const MANUAL_DECISIONS := Block(["crowdsec", "manualDecisions"], false, [
    Leaf("CONFIG_CROWDSEC_MANUAL_DECISIONS_SCENARIOS", "scenarios")])

  const SYNC := Block(["crowdsec", "sync"], false, [
    Leaf("CONFIG_CROWDSEC_SYNC_LOOKBACK", "lookback"),
    Leaf("CONFIG_CROWDSEC_SYNC_REFRESH_INTERVAL", "refreshInterval"),
    Leaf("CONFIG_CROWDSEC_SYNC_MANUAL_REFRESH_ENABLED", "manualRefreshEnabled"),
    Leaf("CONFIG_CROWDSEC_SYNC_IDLE_REFRESH_INTERVAL", "idleRefreshInterval"),
    Leaf("CONFIG_CROWDSEC_SYNC_IDLE_THRESHOLD", "idleThreshold"),
    Leaf("CONFIG_CROWDSEC_SYNC_REQUEST_TIMEOUT", "requestTimeout"),
    Leaf("CONFIG_CROWDSEC_SYNC_BOUNCER_PROPAGATION_DELAY", "bouncerPropagationDelay"),
    Leaf("CONFIG_CROWDSEC_SYNC_DELETION_QUEUE_MAX_AGE", "deletionQueueMaxAge"),
    Leaf("CONFIG_CROWDSEC_SYNC_METRICS_REQUEST_TIMEOUT", "metricsRequestTimeout"),
    Leaf("CONFIG_CROWDSEC_SYNC_HEARTBEAT_INTERVAL", "heartbeatInterval"),
    Leaf("CONFIG_CROWDSEC_SYNC_ALERT_SYNC_CHUNK", "alertSyncChunk"),
    Leaf("CONFIG_CROWDSEC_SYNC_ALERT_SYNC_MIN_CHUNK", "alertSyncMinChunk"),
    Leaf("CONFIG_CROWDSEC_SYNC_RECONCILE_WINDOW", "reconcileWindow"),
    Leaf("CONFIG_CROWDSEC_SYNC_RECONCILE_RECENT_AGE", "reconcileRecentAge"),
    Leaf("CONFIG_CROWDSEC_SYNC_RECONCILE_RECENT_INTERVAL", "reconcileRecentInterval"),
    Leaf("CONFIG_CROWDSEC_SYNC_RECONCILE_ACTIVE_INTERVAL", "reconcileActiveInterval"),
    Leaf("CONFIG_CROWDSEC_SYNC_RECONCILE_OLD_INTERVAL", "reconcileOldInterval"),
    Leaf("CONFIG_CROWDSEC_SYNC_RECONCILE_WINDOWS_PER_REFRESH", "reconcileWindowsPerRefresh"),
    Leaf("CONFIG_CROWDSEC_SYNC_BOOTSTRAP_RETRY_DELAY", "bootstrapRetryDelay"),
    Leaf("CONFIG_CROWDSEC_SYNC_BOOTSTRAP_RETRY_ENABLED", "bootstrapRetryEnabled")])

  const AUTH_SECRETS := Block(["auth"], true, [
    Leaf("CONFIG_AUTH_SESSION_SECRET", "sessionSecret"),
    Leaf("CONFIG_AUTH_TOTP_SECRET", "totpSecret"),
    Leaf("CONFIG_AUTH_TOTP_SEED", "totpSeed")])

  const OIDC_SECRETS := Block(["auth", "oidc"], true, [
    Leaf("CONFIG_AUTH_OIDC_CLIENT_SECRET", "clientSecret")])

  const NOTIFICATION_SECRETS := Block(["notifications"], true, [
    Leaf("CONFIG_NOTIFICATIONS_SECRET_KEY", "secretKey")])

  /** Sections first, then values, then secrets. */
  const BLOCKS: seq<Block> := [
    SECTIONS, SERVER, STORAGE, UI, AUTH, PASSWORD_LOGIN,
    OIDC, NOTIFICATIONS, AUDIT, UPDATES, CROWDSEC, ALERT_FILTERS,
    LEGACY, MANUAL_DECISIONS, SYNC, AUTH_SECRETS, OIDC_SECRETS, NOTIFICATION_SECRETS]

  /** The names of containers below a section. */
  const CONTAINERS := {"passwordLogin", "oidc", "alertFilters", "legacy", "manualDecisions", "sync"}

  function RowsOfBlock(b: Block): (rows: seq<Row>)
    ensures |rows| == |b.leaves|
    ensures forall i :: 0 <= i < |rows| ==>
            rows[i] == Row(b.leaves[i].variable, b.prefix + [b.leaves[i].name], b.secret)
  {
    seq(|b.leaves|, i requires 0 <= i < |b.leaves| =>
      Row(b.leaves[i].variable, b.prefix + [b.leaves[i].name], b.secret))
  }

  function RowsOf(blocks: seq<Block>): seq<Row> {
    if blocks == [] then [] else RowsOf(blocks[..|blocks| - 1]) + RowsOfBlock(blocks[|blocks| - 1])
  }

  function Lookup(env: map<string, string>, name: string): Option<string> {
    if name in env then Some(env[name]) else None
  }

  function ToPlain(row: Row, env: map<string, string>): (p: Plain)
    ensures p.path == Names(row.path)
  {
    if row.secret
    then SecretValue(row.variable, Names(row.path), row.variable in env, Lookup(env, row.variable + "_FILE"))
    else Value(row.variable, Names(row.path), Lookup(env, row.variable))
  }

  function TableOf(rows: seq<Row>, env: map<string, string>): seq<Plain> {
    seq(|rows|, i requires 0 <= i < |rows| => ToPlain(rows[i], env))
  }

  /** The tables as one environment fills them. */
  function ShippedTable(env: map<string, string>): seq<Plain> {
    TableOf(RowsOf(BLOCKS), env)
  }

  // ---- What a list of blocks must satisfy ----

  /** Not inside `instances`, and not inside a list setting. */
  predicate OutsideLists(prefix: seq<string>) {
    |prefix| <= 3 && (prefix != [] ==> prefix[0] != "instances") && (|prefix| == 3 ==> prefix[2] == "legacy")
  }

  predicate GoodBlock(b: Block) {
    && OutsideLists(b.prefix)
    && (forall k :: 1 <= k < |b.prefix| ==> b.prefix[k] in CONTAINERS)
    && (b.prefix != [] ==> NoContainers(b.leaves))
    && DistinctLeaves(b.leaves)
  }

  predicate NoContainers(leaves: seq<Leaf>) {
    forall i :: 0 <= i < |leaves| ==> leaves[i].name !in CONTAINERS
  }

  predicate DistinctLeaves(leaves: seq<Leaf>) {
    forall i, j :: 0 <= i < j < |leaves| ==> leaves[i].name != leaves[j].name
  }

  /** A later block is not the sections, and shares no setting with an earlier one. */
  predicate Apart(b: Block, c: Block) {
    && c.prefix != []
    && (b.prefix == c.prefix ==> forall i, j :: 0 <= i < |b.leaves| && 0 <= j < |c.leaves| ==>
        b.leaves[i].name != c.leaves[j].name)
  }

  predicate GoodBlocks(blocks: seq<Block>) {
    && (forall n :: 0 <= n < |blocks| ==> GoodBlock(blocks[n]))
    && (forall m, n :: 0 <= m < n < |blocks| ==> Apart(blocks[m], blocks[n]))
  }

  lemma PrefixOfLeaf(p: seq<string>, l: string, q: seq<string>, m: string)
    requires q + [m] <= p + [l]
    ensures |q| <= |p|
    ensures |q| == |p| ==> q == p && m == l
    ensures |q| < |p| ==> p[|q|] == m
  {
    assert (q + [m])[|q|] == m == (p + [l])[|q|];
    assert forall k :: 0 <= k < |q| ==> q[k] == (q + [m])[k] == (p + [l])[k];
  }

  /** No setting of the later block contains one of the earlier block. */
  lemma LaterNotAbove(b: Block, c: Block, i: nat, j: nat)
    requires GoodBlock(b) && GoodBlock(c) && i < |b.leaves| && j < |c.leaves|
    requires Apart(b, c) || (b == c && i < j)
    ensures !(c.prefix + [c.leaves[j].name] <= b.prefix + [b.leaves[i].name])
  {
    if c.prefix + [c.leaves[j].name] <= b.prefix + [b.leaves[i].name] {
      PrefixOfLeaf(b.prefix, b.leaves[i].name, c.prefix, c.leaves[j].name);
      assert false;
    }
  }

  ghost predicate PrefixFree(rows: seq<Row>) {
    forall i, j :: 0 <= i < j < |rows| ==> !(rows[j].path <= rows[i].path)
  }

  lemma {:induction false} RowsComeFromBlocks(blocks: seq<Block>, i: nat) returns (n: nat, k: nat)
    requires i < |RowsOf(blocks)|
    ensures n < |blocks| && k < |blocks[n].leaves| && RowsOf(blocks)[i] == RowsOfBlock(blocks[n])[k]
    decreases |blocks|
  {
    var init := blocks[..|blocks| - 1];
    if i < |RowsOf(init)| {
      n, k := RowsComeFromBlocks(init, i);
    } else {
      n, k := |blocks| - 1, i - |RowsOf(init)|;
    }
  }

  lemma {:induction false} RowsArePrefixFree(blocks: seq<Block>)
    requires GoodBlocks(blocks)
    ensures PrefixFree(RowsOf(blocks))
    decreases |blocks|
  {
    if blocks != [] {
      var init, last := blocks[..|blocks| - 1], blocks[|blocks| - 1];
      RowsArePrefixFree(init);
      var rows, before := RowsOf(blocks), RowsOf(init);
      forall i, j | 0 <= i < j < |rows| ensures !(rows[j].path <= rows[i].path) {
        if j >= |before| {
          if i < |before| {
            var n, k := RowsComeFromBlocks(init, i);
            LaterNotAbove(init[n], last, k, j - |before|);
          } else {
            LaterNotAbove(last, last, i - |before|, j - |before|);
          }
        }
      }
    }
  }

  lemma OutsideListsInSchema(prefix: seq<string>, name: string)
    requires OutsideLists(prefix)
    ensures InSchema(Names(prefix + [name]))
  {
    var p := Names(prefix + [name]);
    forall k | 0 <= k < |p| ensures p[k].Index? <==> ListNode(p[..k]) {
      assert forall i :: 0 <= i < k ==> p[..k][i] == Name(prefix[i]);
      forall s: ListSetting ensures p[..k] != ListPath(s) {
        if k == 3 {
          assert p[..k][2] == Name("legacy");
          assert |ListPath(s)| == 3 ==> ListPath(s)[2] != Name("legacy");
        }
      }
    }
  }

  // ---- The shipped blocks ----

  lemma SectionsGood()
    ensures GoodBlock(SECTIONS)
  {
  }

  lemma StorageGood()
    ensures GoodBlock(STORAGE)
  {
  }

  lemma UiGood()
    ensures GoodBlock(UI)
  {
  }

  lemma EarlyOidcLeavesDistinct()
    ensures forall i, j :: 0 <= i < j < |OIDC.leaves| && i < 4 ==> OIDC.leaves[i].name != OIDC.leaves[j].name
  {
  }

  lemma LateOidcLeavesDistinct()
    ensures forall i, j :: 4 <= i < j < |OIDC.leaves| ==> OIDC.leaves[i].name != OIDC.leaves[j].name
  {
  }

  lemma OidcLeavesDistinct()
    ensures DistinctLeaves(OIDC.leaves)
  {
    EarlyOidcLeavesDistinct();
    LateOidcLeavesDistinct();
  }

  lemma OidcLeavesPlain()
    ensures NoContainers(OIDC.leaves)
  {
  }

  lemma OidcGood()
    ensures GoodBlock(OIDC)
  {
    OidcLeavesDistinct();
    OidcLeavesPlain();
  }

  lemma AlertFiltersGood()
    ensures GoodBlock(ALERT_FILTERS)
  {
  }

  lemma EarlySyncLeavesDistinct()
    ensures forall i, j :: 0 <= i < j < |SYNC.leaves| && i < 7 ==> SYNC.leaves[i].name != SYNC.leaves[j].name
  {
  }

  lemma LateSyncLeavesDistinct()
    ensures forall i, j :: 7 <= i < j < |SYNC.leaves| ==> SYNC.leaves[i].name != SYNC.leaves[j].name
  {
  }

  lemma SyncLeavesDistinct()
    ensures DistinctLeaves(SYNC.leaves)
  {
    EarlySyncLeavesDistinct();
    LateSyncLeavesDistinct();
  }

  lemma SyncLeavesPlain()
    ensures NoContainers(SYNC.leaves)
  {
  }

  lemma SyncGood()
    ensures GoodBlock(SYNC)
  {
    SyncLeavesDistinct();
    SyncLeavesPlain();
  }

  lemma ServerAndNotificationsGood()
    ensures GoodBlock(SERVER) && GoodBlock(NOTIFICATIONS)
  {
  }

  lemma AuditAndUpdatesGood()
    ensures GoodBlock(AUDIT) && GoodBlock(UPDATES)
  {
  }

  lemma SingleRowsGood()
    ensures GoodBlock(AUTH) && GoodBlock(PASSWORD_LOGIN) && GoodBlock(CROWDSEC) && GoodBlock(MANUAL_DECISIONS)
  {
  }

  lemma LegacyGood()
    ensures GoodBlock(LEGACY)
  {
  }

  lemma SecretsGood()
    ensures GoodBlock(AUTH_SECRETS) && GoodBlock(OIDC_SECRETS) && GoodBlock(NOTIFICATION_SECRETS)
  {
  }

  lemma BlocksApart(m: nat, n: nat)
    requires m < n < |BLOCKS|
    ensures Apart(BLOCKS[m], BLOCKS[n])
  {
  }

  lemma BlocksGood()
    ensures GoodBlocks(BLOCKS)
  {
    SectionsGood();
    StorageGood();
    UiGood();
    OidcGood();
    AlertFiltersGood();
    SyncGood();
    ServerAndNotificationsGood();
    AuditAndUpdatesGood();
    SingleRowsGood();
    LegacyGood();
    SecretsGood();
    forall m: nat, n: nat | m < n < |BLOCKS| ensures Apart(BLOCKS[m], BLOCKS[n]) {
      BlocksApart(m, n);
    }
  }

  lemma GoodBlocksAreFixed(blocks: seq<Block>, env: map<string, string>)
    requires GoodBlocks(blocks)
    ensures FixedTable(TableOf(RowsOf(blocks), env))
  {
    RowsArePrefixFree(blocks);
    var rows, table := RowsOf(blocks), TableOf(RowsOf(blocks), env);
    forall i | 0 <= i < |table| ensures table[i].path != [] && AllNames(table[i].path) && InSchema(table[i].path) {
      var n, k := RowsComeFromBlocks(blocks, i);
      OutsideListsInSchema(blocks[n].prefix, blocks[n].leaves[k].name);
    }
    forall i, j | 0 <= i < j < |table| ensures !(table[j].path <= table[i].path) {
      NamesKeepPrefix(rows[j].path, rows[i].path);
    }
  }

  /** The shipped tables meet the condition, whatever the environment. */
  lemma ShippedTableIsFixed(env: map<string, string>)
    ensures FixedTable(ShippedTable(env))
  {
    BlocksGood();
    GoodBlocksAreFixed(BLOCKS, env);
  }

  lemma NamesKeepPrefix(q: seq<string>, p: seq<string>)
    ensures Names(q) <= Names(p) ==> q <= p
  {
    if Names(q) <= Names(p) {
      forall k | 0 <= k < |q| ensures q[k] == p[k] {
        assert Names(q)[k] == Names(p)[k];
      }
    }
  }

  // ---- The configuration as shipped ----

  /** The document after the shipped variables have been applied, or the first error. */
  function ApplyShipped(document: Json, parse: Parser, env: map<string, string>, vars: seq<Variable>): Result<Json>
    requires document.Obj?
  {
    ShippedTableIsFixed(env);
    ApplyEnvironment(document, parse, ShippedTable(env), vars)
  }

  /** Every override of the shipped variables that no other one refines reads back its own value at its own
      path, whatever the document held and in whatever order the variables were set. */
  lemma ShippedOverrideSurvives(document: Json, parse: Parser, env: map<string, string>, vars: seq<Variable>, i: nat)
    requires document.Obj? && Writes(parse, ShippedTable(env), vars).Ok? &&
             i < |Writes(parse, ShippedTable(env), vars).value|
    requires var ws := Writes(parse, ShippedTable(env), vars).value;
             forall j :: 0 <= j < |ws| ==> !(ws[i].path < ws[j].path)
    ensures var r, w := ApplyShipped(document, parse, env, vars), Writes(parse, ShippedTable(env), vars).value[i];
            r.Ok? && Get(r.value, w.path) == w.value
  {
    ShippedTableIsFixed(env);
    OverrideSurvives(document, parse, ShippedTable(env), vars, i);
  }

  /** And a setting that none of them touches, contains or refines keeps what the document said. */
  lemma ShippedOthersUntouched(document: Json, parse: Parser, env: map<string, string>, vars: seq<Variable>, q: Path)
    requires document.Obj? && Writes(parse, ShippedTable(env), vars).Ok? && InSchema(q) && Kinded(document, q)
    requires var ws := Writes(parse, ShippedTable(env), vars).value;
             forall j :: 0 <= j < |ws| ==> !(Site(ws[j]) <= q) && !(q <= Site(ws[j]))
    ensures var r := ApplyShipped(document, parse, env, vars);
            r.Ok? && Get(r.value, q) == Get(document, q)
  {
    ShippedTableIsFixed(env);
    OthersUntouched(document, parse, ShippedTable(env), vars, q);
  }

  method ApplyShippedEnvironment(document: Json, parse: Parser, env: map<string, string>, vars: seq<Variable>)
    returns (r: Result<Json>)
    requires document.Obj?
    ensures r == ApplyShipped(document, parse, env, vars)
  {
    ShippedTableIsFixed(env);
    r := ApplyConfigEnvironment(document, parse, ShippedTable(env), vars);
  }
}
