/** The part of the cache database that owns the duplicate flags: fields updated in place, with
    every method tied to its step of the specification. Statements of the database run as pure
    functions of the table. */
module DecisionStore {
  import opened Collections
  import opened Wrappers
  import opened DecisionDuplicates
  import opened DecisionDuplicateRuns

  /** The text under which the in-memory map keeps a key. */
  function EncodeKey(key: Key): string {
    (if key.simulated then "1" else "0") + "\0" +
    (match key.value case None => "\U{0001}" case Some(v) => "\U{0002}" + v)
  }

  lemma EncodeKeyInjective(a: Key, b: Key)
    requires EncodeKey(a) == EncodeKey(b)
    ensures a == b
  {
    assert EncodeKey(a)[0] == EncodeKey(b)[0];
    assert EncodeKey(a)[2] == EncodeKey(b)[2];
    assert EncodeKey(a)[3..] == (match a.value case None => "" case Some(v) => v);
    assert EncodeKey(b)[3..] == (match b.value case None => "" case Some(v) => v);
  }

  ghost predicate WellKeyed(m: map<string, Key>) {
    forall text :: text in m ==> text == EncodeKey(m[text])
  }

  lemma AddKey(m: map<string, Key>, key: Key)
    requires WellKeyed(m)
    ensures WellKeyed(m[EncodeKey(key) := key])
    ensures m[EncodeKey(key) := key].Values == m.Values + {key}
  {
    var m' := m[EncodeKey(key) := key];
    if EncodeKey(key) in m { EncodeKeyInjective(m[EncodeKey(key)], key); }
    forall k | k in m.Values + {key} ensures k in m'.Values {
      if k == key {
        assert EncodeKey(key) in m';
      } else {
        var text :| text in m && m[text] == k;
        assert text in m' && m'[text] == k;
      }
    }
  }

  lemma MarkTwice(c: Cache, a: set<Key>, b: set<Key>)
    ensures Mark(Mark(c, a), b) == Mark(c, a + b)
  {
    if a == {} {
      assert a + b == b;
    } else if b == {} {
      assert a + b == a;
    } else {
      var once := Mark(c, a);
      assert Loaded(once) == once.mem;
      assert Loaded(c).dirtyKeys + a + b == Loaded(c).dirtyKeys + (a + b);
    }
  }

  lemma MarkOneMore(c: Cache, keys: seq<Key>, i: nat)
    requires i < |keys|
    ensures Mark(Mark(c, Elements(keys[..i])), {keys[i]}) == Mark(c, Elements(keys[..i + 1]))
  {
    MarkTwice(c, Elements(keys[..i]), {keys[i]});
    assert Elements(keys[..i + 1]) == Elements(keys[..i]) + {keys[i]};
  }

  lemma MarkBesideRows(c: Cache, rows: Table, keys: set<Key>)
    ensures Mark(c, keys).(rows := rows) == Mark(c.(rows := rows), keys)
  {
  }

  /** An update marks its two keys one after the other, with the write in between. */
  lemma UpdateMarksTwice(c: Cache, id: Id, u: Change)
    ensures id in c.rows ==>
              var row := c.rows[id];
              var second := Key(if row.value.Some? then row.value else u.payloadValue, u.simulated);
              Mark(Mark(c, {row.GroupKey()}).(rows := c.rows[id := ChangedRow(row, u)]), {second}) == Update(c, id, u)
    ensures id !in c.rows ==> Mark(c, {Key(u.payloadValue, u.simulated)}) == Update(c, id, u)
  {
    if id in c.rows {
      var row := c.rows[id];
      var rows, second :=
        c.rows[id := ChangedRow(row, u)], Key(if row.value.Some? then row.value else u.payloadValue, u.simulated);
      MarkBesideRows(c, rows, {row.GroupKey()});
      MarkTwice(c.(rows := rows), {row.GroupKey()}, {second});
      assert {row.GroupKey()} + {second} == UpdateMarks(Some(row), u);
    }
  }

  lemma EmptyValues<K, V>(m: map<K, V>)
    ensures m == map[] <==> m.Values == {}
  {
    if k :| k in m {
      assert m[k] in m.Values;
    }
  }

  /** Drops repeated keys by their text. */
  method UniqueKeys(keys: seq<Key>) returns (unique: map<string, Key>)
    ensures unique.Values == Elements(keys)
  {
    unique := map[];
    for i := 0 to |keys|
      invariant WellKeyed(unique)
      invariant unique.Values == Elements(keys[..i])
    {
      AddKey(unique, keys[i]);
      unique := unique[EncodeKey(keys[i]) := keys[i]];
      assert keys[..i + 1] == keys[..i] + [keys[i]];
    }
    assert keys[..|keys|] == keys;
  }

  const CHUNK := 900

  class DecisionTable {
    var rows: Table
    var meta: Meta
    var flagsDirty: bool
    var flagsInitialized: bool
    var lastRefreshAt: Option<int>
    var ownsDirtyMarker: bool
    var dirtyKeys: map<string, Key>

    ghost predicate Valid() reads this { WellKeyed(dirtyKeys) }

    ghost function State(): Cache reads this {
      Cache(rows, meta, Memory(flagsDirty, flagsInitialized, lastRefreshAt, ownsDirtyMarker, dirtyKeys.Values))
    }

    /** Opens a database another process left behind. */
    constructor (rows: Table, meta: Meta)
      ensures Valid()
      ensures State() == Cache(rows, meta, Load(meta, {}))
    {
      this.rows, this.meta := rows, meta;
      flagsDirty, flagsInitialized, lastRefreshAt, ownsDirtyMarker := true, false, None, false;
      dirtyKeys := map[];
      new;
      LoadRefreshState();
    }

    method LoadRefreshState()
      requires Valid()
      modifies this
      ensures Valid() && dirtyKeys == old(dirtyKeys)
      ensures State() == old(State()).(mem := Load(old(meta), old(State()).mem.dirtyKeys))
    {
      var rankVersionMatches := meta.rankVersion == Some(RANK_VERSION);
      var dirty := meta.dirtyMarker == Some("true") || !rankVersionMatches;
      lastRefreshAt := meta.refreshAt;
      flagsInitialized := meta.refreshAt.Some? && !dirty;
      flagsDirty := dirty || meta.refreshAt.None?;
      ownsDirtyMarker := false;
    }

    method MarkKey(key: Key)
      requires Valid()
      modifies this
      ensures Valid() && rows == old(rows)
      ensures State() == Mark(old(State()), {key})
    {
      if !flagsInitialized && dirtyKeys == map[] {
        LoadRefreshState();
      }
      EmptyValues(dirtyKeys);
      AddKey(dirtyKeys, key);
      dirtyKeys := dirtyKeys[EncodeKey(key) := key];
      if !flagsDirty {
        meta := meta.(dirtyMarker := Some("true"));
        ownsDirtyMarker := true;
      }
      flagsDirty := true;
    }

    method MarkKeys(keys: seq<Key>)
      requires Valid()
      modifies this
      ensures Valid() && rows == old(rows)
      ensures State() == Mark(old(State()), Elements(keys))
    {
      for i := 0 to |keys|
        invariant Valid() && rows == old(rows)
        invariant State() == Mark(old(State()), Elements(keys[..i]))
      {
        MarkOneMore(old(State()), keys, i);
        MarkKey(keys[i]);
      }
      assert keys[..|keys|] == keys;
    }

    /** Reads the keys of the given rows in chunks and marks them. */
    method MarkKeysByIds(ids: seq<Id>)
      requires Valid()
      modifies this
      ensures Valid() && rows == old(rows)
      ensures State() == Mark(old(State()), KeysOf(old(rows), Elements(ids)))
    {
      var offset := 0;
      while offset < |ids|
        invariant 0 <= offset
        invariant Valid() && rows == old(rows)
        invariant State() == Mark(old(State()), KeysOf(rows, Elements(if offset < |ids| then ids[..offset] else ids)))
        decreases |ids| - offset
      {
        var end := if offset + CHUNK < |ids| then offset + CHUNK else |ids|;
        var chunk := ids[offset..end];
        var keys := ToSeq(KeysOf(rows, Elements(chunk)));
        MarkKeys(keys);
        assert Elements(keys) == KeysOf(rows, Elements(chunk));
        MarkTwice(old(State()), KeysOf(rows, Elements(ids[..offset])), KeysOf(rows, Elements(chunk)));
        assert ids[..offset] + chunk == ids[..end];
        KeysOfUnion(rows, ids[..offset], chunk);
        assert end == |ids| ==> ids[..end] == ids;
        offset := offset + CHUNK;
      }
      assert |ids| == 0 ==> KeysOf(rows, Elements(ids)) == {};
    }

    /** Upserts a decision; the row is written before its new key is marked. */
    method InsertDecision(id: Id, row: Decision) returns (changed: bool)
      requires Valid()
      modifies this
      ensures Valid()
      ensures State() == Insert(old(State()), id, row)
      ensures changed <==> !(id in old(rows) && SameColumns(old(rows)[id], row.(instance := old(rows)[id].instance)))
    {
      var stored := row.(isDuplicate := false, instance := if id in rows then rows[id].instance else row.instance);
      if id in rows && SameColumns(rows[id], stored) {
        return false;
      }
      rows := rows[id := stored];
      MarkKey(stored.GroupKey());
      changed := true;
    }

    /** Marks before and after writing, as two separate keys. */
    method UpdateDecision(id: Id, u: Change)
      requires Valid()
      modifies this
      ensures Valid()
      ensures State() == Update(old(State()), id, u)
    {
      var existing: Option<Decision> := if id in rows then Some(rows[id]) else None;
      UpdateMarksTwice(State(), id, u);
      if existing.Some? {
        MarkKey(existing.value.GroupKey());
        rows := rows[id := ChangedRow(existing.value, u)];
      }
      var value := if existing.Some? && existing.value.value.Some? then existing.value.value else u.payloadValue;
      MarkKey(Key(value, u.simulated));
    }

    method DeleteByIds(ids: seq<Id>) returns (changes: nat)
      requires Valid()
      modifies this
      ensures Valid()
      ensures State() == DeleteIds(old(State()), Elements(ids))
      ensures changes == |old(rows)| - |rows|
    {
      MarkKeysByIds(ids);
      var rest := rows - Elements(ids);
      assert rest.Keys <= rows.Keys;
      Sizes(rest.Keys, rows.Keys);
      changes := |rows| - |rest|;
      rows := rest;
    }

    method DeleteByAlerts(alerts: seq<int>) returns (changes: nat)
      requires Valid()
      modifies this
      ensures Valid()
      ensures State() == DeleteIds(old(State()), IdsOfAlerts(old(rows), Elements(alerts)))
    {
      var ids := ToSeq(IdsOfAlerts(rows, Elements(alerts)));
      assert Elements(ids) == IdsOfAlerts(rows, Elements(alerts));
      changes := DeleteByIds(ids);
    }

    /** Retention cleanup; with a limit, at most that many of the old rows go. */
    method DeleteOldDecisions(cutoff: int, limit: Option<nat>) returns (ghost chosen: set<Id>)
      requires Valid()
      modifies this
      ensures Valid()
      ensures State() == DeleteUnmarked(old(State()), chosen) && chosen <= OldIds(old(rows), cutoff)
      ensures limit.None? ==> chosen == OldIds(old(rows), cutoff)
      ensures limit.Some? ==> |chosen| <= limit.value
      ensures limit.Some? && |chosen| < limit.value ==> chosen == OldIds(old(rows), cutoff)
    {
      var doomed := OldIds(rows, cutoff);
      if limit.Some? {
        var rest := doomed;
        doomed := {};
        while rest != {} && |doomed| < limit.value
          invariant doomed !! rest && doomed + rest == OldIds(rows, cutoff)
          invariant |doomed| <= limit.value
        {
          var id :| id in rest;
          doomed, rest := doomed + {id}, rest - {id};
        }
      }
      chosen := doomed;
      rows := rows - doomed;
    }

    method ClearSyncData()
      requires Valid()
      modifies this
      ensures Valid()
      ensures State() == Clear(old(State()))
    {
      rows := map[];
      flagsDirty, flagsInitialized, lastRefreshAt, ownsDirtyMarker := true, false, None, false;
      dirtyKeys := map[];
      meta := Meta(None, None, None);
    }

    method PersistRefreshState(now: int)
      modifies this`meta
      ensures meta == Persisted(now)
    {
      meta := meta.(refreshAt := Some(now));
      meta := meta.(dirtyMarker := Some("false"));
      meta := meta.(rankVersion := Some(RANK_VERSION));
    }

    method RefreshAll(now: int) returns (changes: nat)
      requires Valid()
      modifies this
      ensures Valid()
      ensures State() == Cache(FullRefreshRows(old(rows), now), Persisted(now), Settled(now))
      ensures changes == |FlagChanges(old(rows), rows)|
    {
      var desired := FullRefreshRows(rows, now);
      changes := |FlagChanges(rows, desired)|;
      rows := desired;
      dirtyKeys := map[];
      flagsDirty, flagsInitialized, lastRefreshAt, ownsDirtyMarker := false, true, Some(now), false;
      PersistRefreshState(now);
    }

    /** Collects the keys to refresh, without repetition: the dirty ones and those of rows that
        expired since the last refresh. */
    method CollectKeys(now: int) returns (unique: map<string, Key>)
      ensures unique.Values == dirtyKeys.Values + ExpiredKeys(rows, lastRefreshAt, now)
      ensures unique == map[] <==> unique.Values == {}
    {
      var pending := ToSeq(dirtyKeys.Values);
      if lastRefreshAt.Some? {
        var expired := ToSeq(ExpiredKeys(rows, lastRefreshAt, now));
        assert Elements(pending + expired) == Elements(pending) + Elements(expired);
        pending := pending + expired;
      }
      unique := UniqueKeys(pending);
      assert Elements(pending) == dirtyKeys.Values + ExpiredKeys(rows, lastRefreshAt, now);
      EmptyValues(unique);
    }

    /** The transaction that re-ranks the groups of the given keys. */
    method RefreshKeys(keys: set<Key>, now: int) returns (changes: nat)
      requires Valid()
      modifies this
      ensures Valid()
      ensures State() == Cache(RefreshKeyRows(old(rows), keys, now), Persisted(now), Settled(now))
      ensures changes == |FlagChanges(old(rows), rows)|
    {
      var updated := RefreshKeyRows(rows, keys, now);
      changes := |FlagChanges(rows, updated)|;
      rows := updated;
      dirtyKeys := map[];
      flagsDirty, flagsInitialized, lastRefreshAt, ownsDirtyMarker := false, true, Some(now), false;
      PersistRefreshState(now);
    }

    method RefreshPending(now: int) returns (changes: nat)
      requires Valid()
      requires !MustRefreshAll(State().mem, false)
      modifies this
      ensures Valid()
      ensures State() == Refresh(old(State()), now, false)
      ensures changes == |FlagChanges(old(rows), rows)|
    {
      ghost var before := State();
      assert Loaded(before) == before.mem;
      var uniqueKeys := CollectKeys(now);
      var keys := uniqueKeys.Values;
      if uniqueKeys == map[] && !flagsDirty {
        lastRefreshAt := Some(now);
        PersistRefreshState(now);
        assert State() == Refresh(before, now, false);
        assert FlagChanges(before.rows, rows) == {};
        return 0;
      }
      if uniqueKeys == map[] && flagsDirty {
        changes := RefreshAll(now);
        return;
      }
      changes := RefreshKeys(keys, now);
    }

    /** Brings every flag up to date and reports how many changed. After any run the invariant
        covers, the result is the full re-rank. */
    method RefreshDuplicateFlags(now: int, force: bool) returns (changes: nat)
      requires Valid()
      modifies this
      ensures Valid()
      ensures State() == Refresh(old(State()), now, force)
      ensures changes == |FlagChanges(old(rows), rows)|
      ensures forall clock :: Inv(old(State()), clock) && clock <= now ==> FlagsMatchFullRank(rows, now)
    {
      ghost var before := State();
      EmptyValues(dirtyKeys);
      if !flagsInitialized && dirtyKeys == map[] {
        LoadRefreshState();
      }
      EmptyValues(dirtyKeys);
      assert State() == before.(mem := Loaded(before));
      assert Loaded(State()) == State().mem;
      if force || !flagsInitialized || (flagsDirty && !ownsDirtyMarker && dirtyKeys == map[]) {
        changes := RefreshAll(now);
      } else {
        changes := RefreshPending(now);
      }
      assert rows == RefreshedRows(before, now, force);
      forall clock | Inv(before, clock) && clock <= now ensures FlagsMatchFullRank(rows, now) {
        RefreshStoresFullRank(before, clock, now, force);
      }
    }
  }

  function FlagChanges(rows: Table, rows': Table): set<Id> {
    set id | id in rows && id in rows' && rows[id].isDuplicate != rows'[id].isDuplicate
  }

  lemma KeysOfUnion(rows: Table, a: seq<Id>, b: seq<Id>)
    ensures KeysOf(rows, Elements(a + b)) == KeysOf(rows, Elements(a)) + KeysOf(rows, Elements(b))
  {
    forall id | id in a + b && id in rows
      ensures rows[id].GroupKey() in KeysOf(rows, Elements(a)) + KeysOf(rows, Elements(b))
    {
      assert id in Elements(a) || id in Elements(b);
    }
  }

  lemma Sizes<T>(a: set<T>, b: set<T>)
    requires a <= b
    ensures |a| <= |b|
  {
    assert b == a + (b - a);
  }
}
