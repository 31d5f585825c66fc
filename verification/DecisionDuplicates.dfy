/** The duplicate flag of cached decisions: the window ranking that defines it, and the cache that
    keeps it current by re-ranking only groups that changed or whose members expired. Times are
    integers; the rows' other columns are one opaque text. */
module DecisionDuplicates {
  import opened Wrappers
  import opened Ordering
  import opened Text

  // ----- rows and their ranking -----

  type Id = string

  /** What the flag is partitioned by inside one instance, and what the dirty set remembers. */
  datatype Key = Key(value: Option<string>, simulated: bool)

  datatype Decision = Decision(
    instance: string, value: Option<string>, simulated: bool, stopAt: int,
    alertId: int, columns: string, isDuplicate: bool)
  {
    function GroupKey(): Key { Key(value, simulated) }
  }

  type Table = map<Id, Decision>

  const MAX_INT64 := 0x7FFF_FFFF_FFFF_FFFF

  function LeadingNumber(s: string, acc: nat): nat {
    if s != "" && IsDigit(s[0]) then LeadingNumber(s[1..], acc * 10 + Digit(s[0])) else acc
  }

  /** The numeric part of the ordering: ids that start with a digit count as their leading
      number, which the database caps at its largest integer, and all others as -1. */
  function NumericId(id: Id): int {
    if id == "" || !IsDigit(id[0]) then -1
    else if LeadingNumber(id, 0) > MAX_INT64 then MAX_INT64
    else LeadingNumber(id, 0)
  }

  predicate RanksBefore(j: Id, a: Decision, i: Id, b: Decision) {
    || a.stopAt > b.stopAt
    || (a.stopAt == b.stopAt && NumericId(j) > NumericId(i))
    || (a.stopAt == b.stopAt && NumericId(j) == NumericId(i) && LexLess(i, j))
  }

  predicate SameGroup(a: Decision, b: Decision) {
    a.instance == b.instance && a.GroupKey() == b.GroupKey()
  }

  /** The rows of the same group that are still active and precede this one in the window. */
  function Rivals(rows: Table, now: int, id: Id): set<Id>
    requires id in rows
  {
    set j | j in rows && rows[j].stopAt > now && SameGroup(rows[j], rows[id]) && RanksBefore(j, rows[j], id, rows[id])
  }

  /** ROW_NUMBER() over the active rows of the group. */
  function RowNumber(rows: Table, now: int, id: Id): nat
    requires id in rows
  {
    1 + |Rivals(rows, now, id)|
  }

  predicate FullRankFlag(rows: Table, now: int, id: Id)
    requires id in rows
  {
    rows[id].stopAt > now && RowNumber(rows, now, id) > 1
  }

  /** The simple definition the cache must agree with. */
  predicate FlagsMatchFullRank(rows: Table, now: int) {
    forall id <- rows.Keys :: rows[id].isDuplicate == FullRankFlag(rows, now, id)
  }

  /** Whether some row of the group, active or not, precedes this one. */
  ghost predicate HasBetter(rows: Table, id: Id)
    requires id in rows
  {
    exists j :: j in rows && SameGroup(rows[j], rows[id]) && RanksBefore(j, rows[j], id, rows[id])
  }

  lemma RanksBeforeTotal(j: Id, a: Decision, i: Id, b: Decision)
    ensures j != i ==> RanksBefore(j, a, i, b) || RanksBefore(i, b, j, a)
    ensures !(RanksBefore(j, a, i, b) && RanksBefore(i, b, j, a))
    ensures !RanksBefore(i, b, i, b)
  {
    LexTotal(i, j);
    LexAsymmetric(i, j);
    LexAsymmetric(i, i);
  }

  lemma RanksBeforeTransitive(i: Id, a: Decision, j: Id, b: Decision, k: Id, c: Decision)
    requires RanksBefore(i, a, j, b) && RanksBefore(j, b, k, c)
    ensures RanksBefore(i, a, k, c)
  {
    if LexLess(k, j) && LexLess(j, i) {
      LexTransitive(k, j, i);
    }
  }

  /** A better-ranked row never expires earlier, so among active rows the flag does not depend on
      the time of ranking. This is what makes refreshing only some groups sound. */
  lemma RankIsTimeless(rows: Table, now: int, id: Id)
    requires id in rows && rows[id].stopAt > now
    ensures FullRankFlag(rows, now, id) == HasBetter(rows, id)
  {
    if j :| j in rows && SameGroup(rows[j], rows[id]) && RanksBefore(j, rows[j], id, rows[id]) {
      assert j in Rivals(rows, now, id);
    } else {
      assert Rivals(rows, now, id) == {};
    }
  }

  // ----- what matching the full rank means for a reader -----

  ghost predicate IsGroupMaximum(rows: Table, now: int, w: Id, id: Id)
    requires id in rows
  {
    && w in rows && rows[w].stopAt > now && SameGroup(rows[w], rows[id])
    && forall j :: j in rows && j != w && rows[j].stopAt > now && SameGroup(rows[j], rows[id])
         ==> RanksBefore(w, rows[w], j, rows[j])
  }

  lemma {:induction false} BestOf(rows: Table, members: set<Id>) returns (w: Id)
    requires members != {} && members <= rows.Keys
    ensures w in members
    ensures forall j :: j in members && j != w ==> RanksBefore(w, rows[w], j, rows[j])
    decreases |members|
  {
    var x :| x in members;
    if members == {x} {
      w := x;
    } else {
      var rest := members - {x};
      assert members == rest + {x};
      var best := BestOf(rows, rest);
      RanksBeforeTotal(x, rows[x], best, rows[best]);
      if RanksBefore(x, rows[x], best, rows[best]) {
        w := x;
        forall j | j in members && j != w ensures RanksBefore(w, rows[w], j, rows[j]) {
          if j != best { RanksBeforeTransitive(x, rows[x], best, rows[best], j, rows[j]); }
        }
      } else {
        w := best;
      }
    }
  }

  /** With flags equal to the full rank, each group with an active row shows exactly one: the
      maximum under (stop time, numeric id, id). Expired rows are never flagged. */
  lemma OneVisibleRowPerGroup(rows: Table, now: int, id: Id) returns (w: Id)
    requires FlagsMatchFullRank(rows, now) && id in rows
    ensures rows[id].stopAt <= now ==> !rows[id].isDuplicate
    ensures rows[id].stopAt > now ==>
              && IsGroupMaximum(rows, now, w, id)
              && forall j :: j in rows && rows[j].stopAt > now && SameGroup(rows[j], rows[id])
                   ==> (!rows[j].isDuplicate <==> j == w)
  {
    w := id;
    if rows[id].stopAt > now {
      var members := set j | j in rows && rows[j].stopAt > now && SameGroup(rows[j], rows[id]);
      assert id in members;
      w := BestOf(rows, members);
      forall j | j in members ensures !rows[j].isDuplicate <==> j == w {
        RankIsTimeless(rows, now, j);
        if j == w {
          forall k | k in rows && SameGroup(rows[k], rows[w]) ensures !RanksBefore(k, rows[k], w, rows[w]) {
            RanksBeforeTotal(k, rows[k], w, rows[w]);
          }
        }
      }
    }
  }

  // ----- the cache: table, persisted markers and in-memory state -----

  const RANK_VERSION := "2"

  datatype Meta = Meta(refreshAt: Option<int>, dirtyMarker: Option<string>, rankVersion: Option<string>)

  datatype Memory = Memory(
    dirty: bool, initialized: bool, lastRefreshAt: Option<int>, ownsMarker: bool, dirtyKeys: set<Key>)

  datatype Cache = Cache(rows: Table, meta: Meta, mem: Memory)

  predicate MetaDirty(meta: Meta) {
    meta.dirtyMarker == Some("true") || meta.rankVersion != Some(RANK_VERSION)
  }

  /** A restart that reads these markers starts initialized. */
  predicate CleanMeta(meta: Meta) {
    meta.refreshAt.Some? && !MetaDirty(meta)
  }

  /** loadDecisionDuplicateRefreshState, which leaves the dirty set alone. */
  function Load(meta: Meta, dirtyKeys: set<Key>): Memory {
    Memory(MetaDirty(meta) || meta.refreshAt.None?, CleanMeta(meta), meta.refreshAt, false, dirtyKeys)
  }

  function Loaded(c: Cache): Memory {
    if !c.mem.initialized && c.mem.dirtyKeys == {} then Load(c.meta, {}) else c.mem
  }

  /** Marking a set of keys one after the other; the order makes no difference. */
  function Mark(c: Cache, keys: set<Key>): Cache {
    if keys == {} then c else
      var m := Loaded(c);
      var marked := m.(dirtyKeys := m.dirtyKeys + keys, dirty := true);
      if m.dirty then c.(mem := marked)
      else c.(meta := c.meta.(dirtyMarker := Some("true")), mem := marked.(ownsMarker := true))
  }

  function FullRefreshRows(rows: Table, now: int): Table {
    map id | id in rows :: rows[id].(isDuplicate := FullRankFlag(rows, now, id))
  }

  /** The temporary key table stores a null value as an empty text plus a flag. */
  predicate JoinsKey(key: Key, row: Decision) {
    var stored := if key.value.Some? then key.value.value else "";
    row.simulated == key.simulated && (row.value == Some(stored) || (key.value.None? && row.value.None?))
  }

  function Joined(rows: Table, keys: set<Key>): set<Id> {
    set id | id in rows && exists key <- keys :: JoinsKey(key, rows[id])
  }

  function JoinedRivals(rows: Table, joined: set<Id>, now: int, id: Id): set<Id>
    requires id in rows
  {
    set j | j in joined && j in rows && rows[j].stopAt > now && SameGroup(rows[j], rows[id]) &&
      RanksBefore(j, rows[j], id, rows[id])
  }

  /** The incremental pass: only rows that join a key are ranked, among themselves. */
  function RefreshKeyRows(rows: Table, keys: set<Key>, now: int): Table {
    var joined := Joined(rows, keys);
    map id | id in rows ::
      if id in joined
      then rows[id].(isDuplicate := rows[id].stopAt > now && 1 + |JoinedRivals(rows, joined, now, id)| > 1)
      else rows[id]
  }

  /** Keys with a member that expired after `since` and no later than `now`. */
  function ExpiredKeys(rows: Table, since: Option<int>, now: int): set<Key> {
    if since.None? then {}
    else set id | id in rows && since.value < rows[id].stopAt <= now :: rows[id].GroupKey()
  }

  function Persisted(now: int): Meta {
    Meta(Some(now), Some("false"), Some(RANK_VERSION))
  }

  function Settled(now: int): Memory {
    Memory(false, true, Some(now), false, {})
  }

  predicate MustRefreshAll(m: Memory, force: bool) {
    force || !m.initialized || (m.dirty && !m.ownsMarker && m.dirtyKeys == {})
  }

  /** The rows after the flag-writing part of a refresh. */
  function RefreshedRows(c: Cache, now: int, force: bool): Table {
    var m := Loaded(c);
    var keys := m.dirtyKeys + ExpiredKeys(c.rows, m.lastRefreshAt, now);
    if MustRefreshAll(m, force) || (keys == {} && m.dirty) then FullRefreshRows(c.rows, now)
    else if keys == {} then c.rows
    else RefreshKeyRows(c.rows, keys, now)
  }

  function Refresh(c: Cache, now: int, force: bool): Cache {
    var m := Loaded(c);
    var keys := m.dirtyKeys + ExpiredKeys(c.rows, m.lastRefreshAt, now);
    var rows := RefreshedRows(c, now, force);
    if !MustRefreshAll(m, force) && keys == {} && !m.dirty
    then Cache(rows, Persisted(now), m.(lastRefreshAt := Some(now)))
    else Cache(rows, Persisted(now), Settled(now))
  }

  /** A new process: only the database survives. */
  function Restart(c: Cache): Cache {
    c.(mem := Load(c.meta, {}))
  }

  /** The process dies after the flags are written and before the markers are. */
  function CrashedRefresh(c: Cache, now: int, force: bool): Cache {
    Restart(c.(rows := RefreshedRows(c, now, force)))
  }

  // ----- row changes -----

  predicate SameColumns(a: Decision, b: Decision) {
    a.(isDuplicate := false) == b.(isDuplicate := false)
  }

  /** insertDecision: an upsert that rewrites every column but the instance, clears the flag and
      marks the new key, unless nothing differs. */
  function Insert(c: Cache, id: Id, row: Decision): Cache {
    var stored := row.(isDuplicate := false, instance := if id in c.rows then c.rows[id].instance else row.instance);
    if id in c.rows && SameColumns(c.rows[id], stored) then c
    else Mark(c.(rows := c.rows[id := stored]), {stored.GroupKey()})
  }

  datatype Change = Change(stopAt: int, payloadValue: Option<string>, simulated: bool, columns: string)

  function ChangedRow(row: Decision, u: Change): Decision {
    row.(stopAt := u.stopAt, simulated := u.simulated, columns := u.columns)
  }

  /** The keys updateDecision marks: the row's own before the change, then the row's value, or
      the payload's when the row has none, with the new simulated flag. */
  function UpdateMarks(before: Option<Decision>, u: Change): set<Key> {
    match before
    case Some(row) => {row.GroupKey(), Key(if row.value.Some? then row.value else u.payloadValue, u.simulated)}
    case None => {Key(u.payloadValue, u.simulated)}
  }

  function Update(c: Cache, id: Id, u: Change): Cache {
    if id in c.rows
    then Mark(c.(rows := c.rows[id := ChangedRow(c.rows[id], u)]), UpdateMarks(Some(c.rows[id]), u))
    else Mark(c, UpdateMarks(None, u))
  }

  function KeysOf(rows: Table, ids: set<Id>): set<Key> {
    set id | id in ids && id in rows :: rows[id].GroupKey()
  }

  /** Deletion by id list or by alert: the keys of the doomed rows are marked first. */
  function DeleteIds(c: Cache, ids: set<Id>): Cache {
    var marked := Mark(c, KeysOf(c.rows, ids));
    marked.(rows := c.rows - ids)
  }

  function IdsOfAlerts(rows: Table, alerts: set<int>): set<Id> {
    set id | id in rows && rows[id].alertId in alerts
  }

  function OldIds(rows: Table, cutoff: int): set<Id> {
    set id | id in rows && rows[id].stopAt < cutoff
  }

  /** Retention cleanup, which marks nothing; a limited batch removes some of the old rows. */
  function DeleteUnmarked(c: Cache, ids: set<Id>): Cache {
    c.(rows := c.rows - ids)
  }

  function Clear(c: Cache): Cache {
    Cache(map[], Meta(None, None, None), Memory(true, false, None, false, {}))
  }
}
