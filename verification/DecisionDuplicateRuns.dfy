/** Why the incremental refresh agrees with the full re-rank after any run of inserts, updates,
    deletes, cleanups, refreshes, restarts and crashes, and which row changes it cannot follow. */
module DecisionDuplicateRuns {
  import opened Wrappers
  import opened DecisionDuplicates

  // ----- the invariant -----

  /** Outside the keys still to refresh, a row that outlives the clock has the flag its rank gives
      it, and a row that had expired at the last refresh has none. Rows that expired in between
      may hold anything: their keys are found again by their stop time. */
  ghost predicate RowsSettled(rows: Table, pending: set<Key>, since: int, clock: int) {
    forall id :: id in rows && rows[id].GroupKey() !in pending ==>
      && (rows[id].stopAt > clock ==> rows[id].isDuplicate == HasBetter(rows, id))
      && (rows[id].stopAt <= since ==> !rows[id].isDuplicate)
  }

  ghost predicate MemoryAgrees(c: Cache, clock: int) {
    c.mem.initialized ==>
      && c.mem.lastRefreshAt.Some? && c.mem.lastRefreshAt.value <= clock
      && c.meta.refreshAt == c.mem.lastRefreshAt
      && c.meta.rankVersion == Some(RANK_VERSION)
      && (c.mem.dirty <==> c.mem.dirtyKeys != {})
      && (c.mem.dirty <==> c.meta.dirtyMarker == Some("true"))
      && (c.mem.dirty ==> c.mem.ownsMarker)
      && RowsSettled(c.rows, c.mem.dirtyKeys, c.mem.lastRefreshAt.value, clock)
  }

  /** Crash safety: markers that a restart would trust describe the stored rows. */
  ghost predicate MarkersTruthful(c: Cache, clock: int) {
    CleanMeta(c.meta) ==> c.meta.refreshAt.value <= clock && RowsSettled(c.rows, {}, c.meta.refreshAt.value, clock)
  }

  ghost predicate Inv(c: Cache, clock: int) {
    && MemoryAgrees(c, clock)
    && MarkersTruthful(c, clock)
    && (!c.mem.initialized ==> c.mem.dirty)
    && (!c.mem.initialized && c.mem.dirtyKeys != {} ==> !CleanMeta(c.meta))
  }

  /** In-memory state that still owes a refresh is never hidden by the stored markers. */
  lemma PendingWorkSurvivesRestart(c: Cache, clock: int)
    requires Inv(c, clock) && c.mem.dirtyKeys != {}
    ensures !Restart(c).mem.initialized
  {
  }

  // ----- steps -----

  datatype Op =
    | InsertDecision(id: Id, row: Decision)
    | UpdateDecision(id: Id, change: Change)
    | DeleteByIds(ids: set<Id>)
    | DeleteByAlerts(alerts: set<int>)
    | DeleteOld(cutoff: int)
    | DeleteOldBatch(cutoff: int, chosen: set<Id>)
    | ClearSyncData
    | RefreshFlags(force: bool)
    | CrashDuringRefresh(forced: bool)
    | RestartProcess

  function Apply(c: Cache, op: Op, at: int): Cache {
    match op
    case InsertDecision(id, row) => Insert(c, id, row)
    case UpdateDecision(id, change) => Update(c, id, change)
    case DeleteByIds(ids) => DeleteIds(c, ids)
    case DeleteByAlerts(alerts) => DeleteIds(c, IdsOfAlerts(c.rows, alerts))
    case DeleteOld(cutoff) => DeleteUnmarked(c, OldIds(c.rows, cutoff))
    case DeleteOldBatch(_, chosen) => DeleteUnmarked(c, chosen)
    case ClearSyncData => Clear(c)
    case RefreshFlags(force) => Refresh(c, at, force)
    case CrashDuringRefresh(force) => CrashedRefresh(c, at, force)
    case RestartProcess => Restart(c)
  }

  /** The update whose new key is not among the keys it marks: a row without a value, a payload
      with one, and a simulated flag that flips. */
  predicate UpdateMissesItsKey(row: Decision, u: Change) {
    row.value.None? && u.payloadValue.Some? && u.simulated != row.simulated
  }

  /** An upsert marks only the new key, so the run must not move an existing row to another
      group. A limited cleanup must not reach past the present; an unlimited one may. */
  predicate Allowed(c: Cache, op: Op, at: int) {
    match op
    case InsertDecision(id, row) => id in c.rows ==> c.rows[id].GroupKey() == row.GroupKey()
    case UpdateDecision(id, change) => id in c.rows ==> !UpdateMissesItsKey(c.rows[id], change)
    case DeleteOldBatch(cutoff, chosen) => cutoff <= at && chosen <= OldIds(c.rows, cutoff)
    case _ => true
  }

  // ----- row-level lemmas -----

  lemma TimePasses(c: Cache, clock: int, at: int)
    requires Inv(c, clock) && clock <= at
    ensures Inv(c, at)
  {
  }

  /** Changing rows only in pending groups leaves the other groups settled. */
  lemma UntouchedGroupsStaySettled(rows: Table, rows': Table, pending: set<Key>, pending': set<Key>, since: int,
      clock: int)
    requires RowsSettled(rows, pending, since, clock)
    requires pending <= pending'
    requires forall id :: id in rows' && rows'[id].GroupKey() !in pending' ==> id in rows && rows'[id] == rows[id]
    requires forall id :: id in rows && rows[id].GroupKey() !in pending' ==> id in rows' && rows'[id] == rows[id]
    ensures RowsSettled(rows', pending', since, clock)
  {
    forall id | id in rows' && rows'[id].GroupKey() !in pending'
      ensures HasBetter(rows', id) == HasBetter(rows, id)
    {
      if j :| j in rows && SameGroup(rows[j], rows[id]) && RanksBefore(j, rows[j], id, rows[id]) {
        assert j in rows' && rows'[j] == rows[j];
      }
      if j :| j in rows' && SameGroup(rows'[j], rows'[id]) && RanksBefore(j, rows'[j], id, rows'[id]) {
        assert j in rows && rows'[j] == rows[j];
      }
    }
  }

  /** Removing rows that stop before every row that must keep its flag changes no rank. */
  lemma OldRowsRankBelow(rows: Table, doomed: set<Id>, cutoff: int, pending: set<Key>, since: int, clock: int)
    requires RowsSettled(rows, pending, since, clock)
    requires doomed <= OldIds(rows, cutoff)
    requires cutoff <= clock || doomed == OldIds(rows, cutoff)
    ensures RowsSettled(rows - doomed, pending, since, clock)
  {
    var rest := rows - doomed;
    forall id | id in rest && rest[id].stopAt > clock ensures HasBetter(rest, id) == HasBetter(rows, id) {
      if j :| j in rows && SameGroup(rows[j], rows[id]) && RanksBefore(j, rows[j], id, rows[id]) {
        assert rows[j].stopAt >= rows[id].stopAt;
        assert id !in doomed && j !in doomed;
        assert j in rest;
      }
    }
  }

  lemma MarkedAndChanged(c: Cache, rows': Table, keys: set<Key>, clock: int)
    requires Inv(c, clock)
    requires keys == {} ==> rows' == c.rows
    requires forall id :: id in rows' && rows'[id].GroupKey() !in keys ==> id in c.rows && rows'[id] == c.rows[id]
    requires forall id :: id in c.rows && c.rows[id].GroupKey() !in keys ==> id in rows' && rows'[id] == c.rows[id]
    ensures Inv(Mark(c.(rows := rows'), keys), clock)
    ensures Inv(Mark(c, keys).(rows := rows'), clock)
  {
    var c' := Mark(c.(rows := rows'), keys);
    assert c' == Mark(c, keys).(rows := rows');
    if keys != {} {
      var m := Loaded(c);
      assert !CleanMeta(c'.meta);
      if m.initialized {
        UntouchedGroupsStaySettled(c.rows, rows', m.dirtyKeys, m.dirtyKeys + keys, m.lastRefreshAt.value, clock);
      }
    }
  }

  // ----- the refresh -----

  lemma SameRankingSameBetter(rows: Table, rows': Table, id: Id)
    requires rows.Keys == rows'.Keys && id in rows
    requires forall j :: j in rows ==> SameColumns(rows[j], rows'[j])
    ensures HasBetter(rows, id) == HasBetter(rows', id)
  {
    if j :| j in rows && SameGroup(rows[j], rows[id]) && RanksBefore(j, rows[j], id, rows[id]) {
      assert SameGroup(rows'[j], rows'[id]) && RanksBefore(j, rows'[j], id, rows'[id]);
    }
    if j :| j in rows' && SameGroup(rows'[j], rows'[id]) && RanksBefore(j, rows'[j], id, rows'[id]) {
      assert SameGroup(rows[j], rows[id]) && RanksBefore(j, rows[j], id, rows[id]);
    }
  }

  lemma FullRankIgnoresOldFlags(rows: Table, rows': Table, now: int, id: Id)
    requires rows.Keys == rows'.Keys && id in rows
    requires forall j :: j in rows ==> SameColumns(rows[j], rows'[j])
    ensures FullRankFlag(rows, now, id) == FullRankFlag(rows', now, id)
  {
    assert Rivals(rows, now, id) == Rivals(rows', now, id);
  }

  lemma FullRefreshMatches(rows: Table, now: int)
    ensures FlagsMatchFullRank(FullRefreshRows(rows, now), now)
  {
    var rows' := FullRefreshRows(rows, now);
    forall id | id in rows' ensures rows'[id].isDuplicate == FullRankFlag(rows', now, id) {
      FullRankIgnoresOldFlags(rows, rows', now, id);
    }
  }

  /** A join by key picks whole groups, so ranking inside the join is ranking in the table. */
  lemma JoinRanksLikeTable(rows: Table, keys: set<Key>, now: int, id: Id)
    requires id in Joined(rows, keys)
    ensures JoinedRivals(rows, Joined(rows, keys), now, id) == Rivals(rows, now, id)
  {
    var key :| key in keys && JoinsKey(key, rows[id]);
    forall j | j in rows && SameGroup(rows[j], rows[id]) ensures j in Joined(rows, keys) {
      assert JoinsKey(key, rows[j]);
    }
  }

  lemma OwnKeyJoins(rows: Table, keys: set<Key>, id: Id)
    requires id in rows && rows[id].GroupKey() in keys
    ensures id in Joined(rows, keys)
  {
    assert JoinsKey(rows[id].GroupKey(), rows[id]);
  }

  /** The incremental pass equals the full one on every settled table whose pending and newly
      expired keys it is given. */
  lemma RefreshedKeysMatchFull(rows: Table, pending: set<Key>, since: int, clock: int, now: int)
    requires RowsSettled(rows, pending, since, clock) && since <= clock <= now
    ensures RefreshKeyRows(rows, pending + ExpiredKeys(rows, Some(since), now), now) == FullRefreshRows(rows, now)
  {
    var keys := pending + ExpiredKeys(rows, Some(since), now);
    var fast, full := RefreshKeyRows(rows, keys, now), FullRefreshRows(rows, now);
    forall id | id in rows ensures fast[id] == full[id] {
      if rows[id].GroupKey() in keys { OwnKeyJoins(rows, keys, id); }
      if id in Joined(rows, keys) {
        JoinRanksLikeTable(rows, keys, now, id);
      } else if rows[id].stopAt > now {
        RankIsTimeless(rows, now, id);
      }
    }
  }

  lemma NothingPendingNothingToDo(rows: Table, now: int)
    ensures RefreshKeyRows(rows, {}, now) == rows
  {
  }

  /** Refinement: whatever branch the refresh takes, it stores the rows of a full re-rank. */
  lemma RefreshStoresFullRank(c: Cache, clock: int, now: int, force: bool)
    requires Inv(c, clock) && clock <= now
    ensures RefreshedRows(c, now, force) == FullRefreshRows(c.rows, now)
    ensures FlagsMatchFullRank(RefreshedRows(c, now, force), now)
  {
    FullRefreshMatches(c.rows, now);
    var m := Loaded(c);
    if !MustRefreshAll(m, force) {
      RefreshedKeysMatchFull(c.rows, m.dirtyKeys, m.lastRefreshAt.value, clock, now);
      NothingPendingNothingToDo(c.rows, now);
    }
  }

  lemma FullRowsAreSettled(rows: Table, pending: set<Key>, since: int, now: int)
    requires since <= now
    ensures RowsSettled(FullRefreshRows(rows, now), pending, since, now)
  {
    var rows' := FullRefreshRows(rows, now);
    forall id | id in rows' ensures rows'[id].stopAt > now ==> rows'[id].isDuplicate == HasBetter(rows', id) {
      SameRankingSameBetter(rows, rows', id);
      if rows'[id].stopAt > now { RankIsTimeless(rows, now, id); }
    }
  }

  lemma RefreshKeepsInv(c: Cache, clock: int, now: int, force: bool)
    requires Inv(c, clock) && clock <= now
    ensures Inv(Refresh(c, now, force), now)
    ensures Inv(CrashedRefresh(c, now, force), now)
  {
    RefreshStoresFullRank(c, clock, now, force);
    FullRowsAreSettled(c.rows, {}, now, now);
    if CleanMeta(c.meta) {
      FullRowsAreSettled(c.rows, {}, c.meta.refreshAt.value, now);
    }
  }

  // ----- whole runs -----

  /** One step at a time keeps the invariant. */
  lemma StepKeepsInv(c: Cache, clock: int, op: Op, at: int)
    requires Inv(c, clock) && clock <= at && Allowed(c, op, at)
    ensures Inv(Apply(c, op, at), at)
  {
    TimePasses(c, clock, at);
    match op
    case InsertDecision(id, row) =>
      var stored := row.(isDuplicate := false, instance := if id in c.rows then c.rows[id].instance else row.instance);
      MarkedAndChanged(c, c.rows[id := stored], {stored.GroupKey()}, at) by {
        assert id in c.rows ==> c.rows[id].GroupKey() == stored.GroupKey();
      }
    case UpdateDecision(id, u) =>
      if id in c.rows {
        var row := ChangedRow(c.rows[id], u);
        assert row.GroupKey() in UpdateMarks(Some(c.rows[id]), u);
        MarkedAndChanged(c, c.rows[id := row], UpdateMarks(Some(c.rows[id]), u), at);
      } else {
        MarkedAndChanged(c, c.rows, UpdateMarks(None, u), at);
      }
    case DeleteByIds(ids) => DeleteKeepsInv(c, ids, at);
    case DeleteByAlerts(alerts) => DeleteKeepsInv(c, IdsOfAlerts(c.rows, alerts), at);
    case DeleteOld(cutoff) => CleanupKeepsInv(c, OldIds(c.rows, cutoff), cutoff, at);
    case DeleteOldBatch(cutoff, chosen) => CleanupKeepsInv(c, chosen, cutoff, at);
    case ClearSyncData =>
    case RefreshFlags(force) => RefreshKeepsInv(c, clock, at, force);
    case CrashDuringRefresh(force) => RefreshKeepsInv(c, clock, at, force);
    case RestartProcess =>
  }

  lemma DeleteKeepsInv(c: Cache, ids: set<Id>, clock: int)
    requires Inv(c, clock)
    ensures Inv(DeleteIds(c, ids), clock)
  {
    var keys := KeysOf(c.rows, ids);
    forall id | id in c.rows && c.rows[id].GroupKey() !in keys ensures id !in ids {
    }
    if keys == {} {
      assert c.rows - ids == c.rows;
    }
    MarkedAndChanged(c, c.rows - ids, keys, clock);
    assert Mark(c, keys).rows == c.rows;
  }

  lemma CleanupKeepsInv(c: Cache, doomed: set<Id>, cutoff: int, clock: int)
    requires Inv(c, clock)
    requires doomed <= OldIds(c.rows, cutoff)
    requires cutoff <= clock || doomed == OldIds(c.rows, cutoff)
    ensures Inv(DeleteUnmarked(c, doomed), clock)
  {
    if c.mem.initialized {
      OldRowsRankBelow(c.rows, doomed, cutoff, c.mem.dirtyKeys, c.mem.lastRefreshAt.value, clock);
    }
    if CleanMeta(c.meta) {
      OldRowsRankBelow(c.rows, doomed, cutoff, {}, c.meta.refreshAt.value, clock);
    }
  }

  datatype Event = Event(at: int, op: Op)

  predicate ValidRun(c: Cache, clock: int, events: seq<Event>)
    decreases |events|
  {
    events == [] ||
    (&& clock <= events[0].at
     && Allowed(c, events[0].op, events[0].at)
     && ValidRun(Apply(c, events[0].op, events[0].at), events[0].at, events[1..]))
  }

  function RunFrom(c: Cache, events: seq<Event>): Cache
    decreases |events|
  {
    if events == [] then c else RunFrom(Apply(c, events[0].op, events[0].at), events[1..])
  }

  function LastClock(clock: int, events: seq<Event>): int
    decreases |events|
  {
    if events == [] then clock else LastClock(events[0].at, events[1..])
  }

  lemma {:induction false} RunKeepsInv(c: Cache, clock: int, events: seq<Event>)
    requires Inv(c, clock) && ValidRun(c, clock, events)
    ensures Inv(RunFrom(c, events), LastClock(clock, events))
    decreases |events|
  {
    if events != [] {
      StepKeepsInv(c, clock, events[0].op, events[0].at);
      RunKeepsInv(Apply(c, events[0].op, events[0].at), events[0].at, events[1..]);
    }
  }

  /** A process that starts on markers it must not trust, over any rows with any flags. */
  lemma UntrustedStartIsSafe(c: Cache, clock: int)
    requires !CleanMeta(c.meta)
    ensures Inv(Restart(c), clock)
  {
  }

  /** Main theorem. After any run with a clock that never goes back, crashes and restarts
      included, a refresh leaves exactly the flags of a full re-rank, and repeats nothing else. */
  lemma IncrementalRefreshIsFullRank(c: Cache, clock: int, events: seq<Event>, now: int)
    requires Inv(c, clock) && ValidRun(c, clock, events) && LastClock(clock, events) <= now
    ensures Refresh(RunFrom(c, events), now, false).rows == FullRefreshRows(RunFrom(c, events).rows, now)
    ensures FlagsMatchFullRank(Refresh(RunFrom(c, events), now, false).rows, now)
  {
    RunKeepsInv(c, clock, events);
    RefreshStoresFullRank(RunFrom(c, events), LastClock(clock, events), now, false);
  }

  /** The restart half of the main theorem on its own terms: from clean markers the new process
      ranks only groups with an expired member, and still ends with the flags of a full re-rank. */
  lemma CleanRestartRefreshesIncrementally(c: Cache, clock: int, now: int)
    requires Inv(c, clock) && CleanMeta(c.meta) && clock <= now
    ensures var keys := ExpiredKeys(c.rows, c.meta.refreshAt, now);
            && RefreshedRows(Restart(c), now, false) ==
                (if keys == {} then c.rows else RefreshKeyRows(c.rows, keys, now))
            && FlagsMatchFullRank(RefreshedRows(Restart(c), now, false), now)
  {
    assert Inv(Restart(c), clock);
    RefreshStoresFullRank(Restart(c), clock, now, false);
    assert {} + ExpiredKeys(c.rows, c.meta.refreshAt, now) == ExpiredKeys(c.rows, c.meta.refreshAt, now);
  }
}
