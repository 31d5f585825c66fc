/** The search tables updated in place, statement by statement. */
module SearchIndexStore {
  import opened Collections
  import opened Numbers
  import opened Wrappers
  import opened SearchIndex

  const CHUNK := 900

  lemma DeleteTwice(s: Index, a: set<string>, b: set<string>)
    requires Linked(s)
    ensures DeleteEntries(DeleteEntries(s, a), b) == DeleteEntries(s, a + b)
  {
    DeleteKeepsLinked(s, a);
    DeleteKeepsLinked(s, a + b);
    DeleteKeepsLinked(DeleteEntries(s, a), b);
    var l, r := DeleteEntries(DeleteEntries(s, a), b), DeleteEntries(s, a + b);
    assert l.rows == r.rows;
    forall e ensures e in l.entries <==> e in r.entries {
      if e in s.entries {
        assert s.entries[e].id in s.rows;
      }
    }
    assert l.entries == r.entries;
  }

  /** One past the largest rowid in use. */
  method NextRowid(used: set<int>) returns (rowid: int)
    ensures rowid !in used
  {
    var list := ToSeq(used);
    rowid := 1;
    for i := 0 to |list|
      invariant forall k :: 0 <= k < i ==> list[k] < rowid
    {
      if rowid <= list[i] {
        rowid := list[i] + 1;
      }
    }
  }

  predicate Indexes(decisions: map<string, Row>, entry: Entry) {
    entry.id in decisions && HasText(decisions[entry.id]) && decisions[entry.id].text == Some(entry.text)
  }

  /** Midway through a scoped rebuild: the entries of `done` are back, the rest of the scope has none. */
  ghost predicate ScopeDone(s: Index, r: Index, scope: set<string>, done: set<string>) {
    && (forall id :: id in scope ==> (id in r.rows <==> id in done && id in s.decisions && HasText(s.decisions[id])))
    && (forall id :: id in scope && id in r.rows ==>
        r.rows[id] in r.entries && s.decisions[id].text == Some(r.entries[r.rows[id]].text))
    && (forall id :: id !in scope ==> (id in r.rows <==> id in s.rows))
    && (forall id :: id !in scope && id in r.rows && s.rows[id] in s.entries ==>
          r.rows[id] == s.rows[id] && s.rows[id] in r.entries && r.entries[s.rows[id]] == s.entries[s.rows[id]])
  }

  lemma AddToScope(s: Index, r: Index, scope: set<string>, done: set<string>, id: string, rowid: int)
    requires Linked(r) && r.decisions == s.decisions && ScopeDone(s, r, scope, done)
    requires id in scope && id !in done && id in s.decisions && HasText(s.decisions[id]) && rowid !in r.entries
    ensures var after := AddEntry(r, id, s.decisions[id].text.value, rowid);
            Linked(after) && ScopeDone(s, after, scope, done + {id})
  {
    AddKeepsLinked(r, id, s.decisions[id].text.value, rowid);
  }

  function IndexedIds(entries: map<int, Entry>): set<string> {
    set e | e in entries :: entries[e].id
  }

  /** No two entries are about one decision. */
  ghost predicate Distinct(entries: map<int, Entry>) {
    forall e, f :: e in entries && f in entries && entries[e].id == entries[f].id ==> e == f
  }

  ghost predicate Backfilled(decisions: map<string, Row>, entries: map<int, Entry>) {
    && (forall e :: e in entries ==> Indexes(decisions, entries[e]))
    && Distinct(entries)
    && IndexedIds(entries) == set id | id in decisions && HasText(decisions[id])
  }

  lemma OneMoreEntry(entries: map<int, Entry>, rowid: int, entry: Entry)
    requires rowid !in entries && entry.id !in IndexedIds(entries)
    ensures IndexedIds(entries[rowid := entry]) == IndexedIds(entries) + {entry.id}
    ensures Distinct(entries) ==> Distinct(entries[rowid := entry])
  {
    var after := entries[rowid := entry];
    forall id | id in IndexedIds(entries) + {entry.id} ensures id in IndexedIds(after) {
      if id == entry.id {
        assert after[rowid].id == id;
      } else {
        var e :| e in entries && entries[e].id == id;
        assert after[e].id == id;
      }
    }
    forall e | e in entries ensures entries[e].id != entry.id {
      assert entries[e].id in IndexedIds(entries);
    }
  }

  lemma BackfilledIsRebuilt(s: Index, r: Index)
    requires r.decisions == s.decisions && Backfilled(r.decisions, r.entries)
    requires Linked(r)
    ensures Rebuilt(ClearEntries(s), r, s.decisions.Keys)
  {
    forall id | id in r.rows ensures Indexes(r.decisions, r.entries[r.rows[id]]) {
      var e := r.rows[id];
      assert e in r.entries && r.entries[e].id == id;
    }
    forall id | id in s.decisions && HasText(s.decisions[id]) ensures id in r.rows {
      assert id in IndexedIds(r.entries);
      var e :| e in r.entries && r.entries[e].id == id;
    }
  }

  /** How many of `total` rows a query with an optional limit returns. */
  function Batch(total: nat, limit: Option<nat>): nat {
    if limit.Some? && limit.value < total then limit.value else total
  }

  class SearchTables {
    var decisions: map<string, Row>
    var entries: map<int, Entry>
    var rows: map<string, int>
    var searchIndexUpdatesDeferred: bool
    ghost var stale: set<string>

    constructor ()
      ensures Valid() && Agrees(State())
    {
      decisions, entries, rows, searchIndexUpdatesDeferred, stale := map[], map[], map[], false, {};
    }

    function State(): Index
      reads this
    {
      Index(decisions, entries, rows)
    }

    ghost function Sys(): System
      reads this
    {
      System(State(), searchIndexUpdatesDeferred, stale)
    }

    ghost predicate Valid()
      reads this
    {
      Inv(Sys())
    }

    method InsertRow(id: string, text: string) returns (rowid: int)
      modifies this`entries, this`rows
      ensures rowid !in old(entries) && State() == AddEntry(old(State()), id, text, rowid)
    {
      rowid := NextRowid(entries.Keys);
      entries := entries[rowid := Entry(id, text)];
      rows := rows[id := rowid];
    }

    /** deleteDecisionSearchIndexes: both deletes, 900 ids at a time. */
    method DeleteSearchIndexes(ids: seq<string>)
      requires Linked(State())
      modifies this`entries, this`rows
      ensures State() == DeleteEntries(old(State()), Elements(ids))
    {
      ghost var before := State();
      var offset := 0;
      assert DeleteEntries(before, Elements(ids[..0])) == before;
      while offset < |ids|
        invariant 0 <= offset
        invariant State() == DeleteEntries(before, Elements(ids[..Min(offset, |ids|)]))
      {
        var end := Min(offset + CHUNK, |ids|);
        var chunk := ids[offset..end];
        ElementsOfPrefix(ids, offset, end);
        DeleteTwice(before, Elements(ids[..offset]), Elements(chunk));
        entries := entries - RowidsOf(rows, Elements(chunk));
        rows := rows - Elements(chunk);
        offset := offset + CHUNK;
      }
      assert ids[..|ids|] == ids;
    }

    method DeleteRows(ids: seq<string>)
      modifies this`decisions
      ensures State() == RemoveDecisions(old(State()), Elements(ids))
    {
      var offset := 0;
      while offset < |ids|
        invariant 0 <= offset
        invariant decisions == old(decisions) - Elements(ids[..Min(offset, |ids|)])
      {
        var end := Min(offset + CHUNK, |ids|);
        ElementsOfPrefix(ids, offset, end);
        decisions := decisions - Elements(ids[offset..end]);
        offset := offset + CHUNK;
      }
      assert ids[..|ids|] == ids;
    }

    /** upsertDecisionSearchIndex when updates are not deferred. */
    method UpsertSearchIndex(id: string, text: string) returns (rowid: int)
      requires Linked(State())
      modifies this`entries, this`rows
      ensures rowid !in DeleteEntries(old(State()), {id}).entries
      ensures State() == Upsert(old(State()), id, text, rowid)
    {
      DeleteSearchIndexes([id]);
      assert Elements([id]) == {id};
      rowid := InsertRow(id, text);
    }

    /** An upsert that finds nothing different writes nothing, the index included. */
    method InsertDecision(id: string, row: Row) returns (changed: bool)
      requires Valid() && row.text.Some?
      modifies this
      ensures Valid() && changed == !(id in old(decisions) && old(decisions)[id] == row)
      ensures exists rowid :: var step := Insert(id, row, rowid);
              Enabled(old(Sys()), step) && Sys() == Next(old(Sys()), step)
    {
      ghost var before := Sys();
      ghost var rowid := NextRowid(entries.Keys);
      changed := !(id in decisions && decisions[id] == row);
      if changed {
        decisions := decisions[id := row];
        if searchIndexUpdatesDeferred {
          stale := stale + {id};
        } else {
          rowid := UpsertSearchIndex(id, row.text.value);
        }
      }
      assert Enabled(before, Insert(id, row, rowid)) && Sys() == Next(before, Insert(id, row, rowid));
      InsertKeepsInv(before, id, row, rowid);
    }

    method UpdateDecision(id: string, stopAt: int, text: string, columns: string)
      requires Valid()
      modifies this
      ensures Valid()
      ensures exists rowid :: var step := Update(id, stopAt, text, columns, rowid);
              Enabled(old(Sys()), step) && Sys() == Next(old(Sys()), step)
    {
      ghost var before := Sys();
      ghost var rowid := 0;
      if id in decisions {
        decisions := decisions[id := decisions[id].(stopAt := stopAt, text := Some(text), columns := columns)];
      }
      if searchIndexUpdatesDeferred {
        rowid := NextRowid(entries.Keys);
        stale := if id in decisions then stale + {id} else stale;
      } else {
        rowid := UpsertSearchIndex(id, text);
        stale := if id in decisions then stale else stale + {id};
      }
      assert Enabled(before, Update(id, stopAt, text, columns, rowid)) &&
        Sys() == Next(before, Update(id, stopAt, text, columns, rowid));
      UpdateKeepsInv(before, id, stopAt, text, columns, rowid);
    }

    /** The entry goes whether or not updates are deferred. */
    method DeleteDecision(id: string)
      requires Valid()
      modifies this
      ensures Valid() && Sys() == Next(old(Sys()), DeleteOne(id))
    {
      RemovalAgrees(State(), {id});
      decisions := decisions - {id};
      DeleteSearchIndexes([id]);
      assert Elements([id]) == {id};
    }

    method DeleteCachedDecisions(ids: seq<string>)
      requires Valid()
      modifies this
      ensures Valid() && Sys() == Next(old(Sys()), DeleteMany(Elements(ids)))
    {
      RemovalAgrees(State(), Elements(ids));
      DeleteRows(ids);
      DeleteSearchIndexes(ids);
    }

    method DeleteCachedAlerts(alerts: set<string>)
      requires Valid()
      modifies this
      ensures Valid() && Sys() == Next(old(Sys()), DeleteByAlerts(alerts))
    {
      ghost var ids := ByAlerts(State(), alerts);
      RemovalAgrees(State(), ids);
      if searchIndexUpdatesDeferred {
        stale := stale + ids;
      } else {
        var decisionIds := ToSeq(ByAlerts(State(), alerts));
        assert Elements(decisionIds) == ids;
        DeleteSearchIndexes(decisionIds);
      }
      decisions := decisions - ByAlerts(State(), alerts);
    }

    /** The ids of expired rows; with a limit, that many of them in no particular order. */
    method PickExpired(cutoff: int, limit: Option<nat>) returns (ids: seq<string>)
      ensures Elements(ids) <= Expired(State(), cutoff) && |Elements(ids)| == |ids|
      ensures |ids| == Batch(|Expired(State(), cutoff)|, limit)
    {
      ids := ToSeq(Expired(State(), cutoff));
      assert Elements(ids) == Expired(State(), cutoff);
      SizeOfDistinct(ids);
      if limit.Some? && limit.value < |ids| {
        ids := ids[..limit.value];
        SizeOfDistinct(ids);
      }
    }

    /** Retention cleanup; with a limit, a batch of at most that many expired rows. */
    method DeleteOldDecisions(cutoff: int, limit: Option<nat>) returns (changes: nat)
      requires Valid()
      modifies this
      ensures Valid() && changes == Batch(|Expired(old(State()), cutoff)|, limit)
      ensures exists picked :: |picked| == changes && Enabled(old(Sys()), DeleteOld(cutoff, picked))
                && Sys() == Next(old(Sys()), DeleteOld(cutoff, picked))
    {
      ghost var before := Sys();
      var ids := PickExpired(cutoff, limit);
      changes := |ids|;
      RemovalAgrees(State(), Elements(ids));
      if searchIndexUpdatesDeferred {
        stale := stale + Elements(ids);
      } else {
        DeleteSearchIndexes(ids);
      }
      DeleteRows(ids);
      assert Sys() == Next(before, DeleteOld(cutoff, Elements(ids)));
    }

    method BeginDeferredSearchIndexUpdates(clear: bool)
      requires Valid()
      modifies this
      ensures Valid() && Sys() == Next(old(Sys()), Begin(clear))
    {
      searchIndexUpdatesDeferred := true;
      if clear {
        entries, rows, stale := map[], map[], stale + decisions.Keys;
      }
    }

    method ClearSyncData()
      requires Valid()
      modifies this
      ensures Valid() && Sys() == Next(old(Sys()), ClearAll)
    {
      decisions, entries, rows, stale := map[], map[], map[], {};
    }

    /** The entries of every decision with text, not yet mapped. */
    method Backfill()
      requires entries == map[]
      modifies this`entries
      ensures Backfilled(decisions, entries)
    {
      var list := ToSeq(set id | id in decisions && HasText(decisions[id]));
      for i := 0 to |list|
        invariant forall e :: e in entries ==> Indexes(decisions, entries[e])
        invariant Distinct(entries)
        invariant IndexedIds(entries) == Elements(list[..i])
      {
        var id := list[i];
        assert id in list;
        ElementsOfPrefix(list, i, i + 1);
        assert Elements(list[i..i + 1]) == {id} && id !in Elements(list[..i]);
        var rowid := NextRowid(entries.Keys);
        OneMoreEntry(entries, rowid, Entry(id, decisions[id].text.value));
        entries := entries[rowid := Entry(id, decisions[id].text.value)];
      }
      assert list[..|list|] == list;
    }

    /** synchronizeDecisionSearchRows: skipped when the two tables are of one size. */
    method SynchronizeRows()
      requires Distinct(entries)
      modifies this`rows
      ensures |entries| == |old(rows)| ==> rows == old(rows)
      ensures |entries| != |old(rows)| ==> Linked(State())
    {
      if |entries| == |rows| {
        return;
      }
      rows := map[];
      var list := ToSeq(entries.Keys);
      for i := 0 to |list|
        invariant forall id :: id in rows ==> rows[id] in entries && entries[rows[id]].id == id
        invariant forall k :: 0 <= k < i ==>
          list[k] in entries && entries[list[k]].id in rows && rows[entries[list[k]].id] == list[k]
      {
        assert list[i] in list;
        rows := rows[entries[list[i]].id := list[i]];
      }
      forall e | e in entries ensures entries[e].id in rows && rows[entries[e].id] == e {
        assert e in list;
      }
    }

    /** A full rebuild restores agreement from any tables: a mapping that is no bijection, entries with
        old texts, entries of missing decisions. */
    method RebuildAllSearchIndexes()
      modifies this
      ensures Valid() && Agrees(State()) && !searchIndexUpdatesDeferred && decisions == old(decisions)
      ensures exists after :: Enabled(old(Sys()), RebuildAll(after)) && Sys() == Next(old(Sys()), RebuildAll(after))
    {
      ghost var before := Sys();
      entries, rows := map[], map[];
      Backfill();
      SynchronizeRows();
      searchIndexUpdatesDeferred := false;
      stale := {};
      BackfilledIsRebuilt(before.index, State());
      assert Enabled(before, RebuildAll(State())) && Sys() == Next(before, RebuildAll(State()));
      FullRebuildAgrees(before.index, State());
    }

    /** rebuildScopedSearchIndexes: entries of the scope are deleted, then added again, 900 ids at a time. */
    method RebuildScopedSearchIndexes(decisionIds: seq<string>)
      requires Valid()
      modifies this
      ensures Valid() && !searchIndexUpdatesDeferred
      ensures exists after :: var step := RebuildScope(Elements(decisionIds), after);
                Enabled(old(Sys()), step) && Sys() == Next(old(Sys()), step)
    {
      ghost var before := Sys();
      ghost var s := State();
      var ids := ToSeq(Elements(decisionIds));
      assert Elements(ids) == Elements(decisionIds);
      DeleteKeepsLinked(s, Elements(ids));
      DeleteSearchIndexes(ids);
      for i := 0 to |ids|
        invariant decisions == s.decisions && Linked(State())
        invariant searchIndexUpdatesDeferred == before.deferred && stale == before.stale
        invariant ScopeDone(s, State(), Elements(ids), Elements(ids[..i]))
      {
        var id := ids[i];
        ElementsOfPrefix(ids, i, i + 1);
        assert Elements(ids[i..i + 1]) == {id};
        assert id in Elements(ids) && id !in Elements(ids[..i]);
        if id in decisions && HasText(decisions[id]) {
          ghost var r := State();
          var rowid := InsertRow(id, decisions[id].text.value);
          AddToScope(s, r, Elements(ids), Elements(ids[..i]), id, rowid);
        }
      }
      assert ids[..|ids|] == ids;
      searchIndexUpdatesDeferred := false;
      stale := stale - Elements(decisionIds);
      assert Enabled(before, RebuildScope(Elements(decisionIds), State()));
      assert Sys() == Next(before, RebuildScope(Elements(decisionIds), State()));
      StepKeepsInv(before, RebuildScope(Elements(decisionIds), State()));
    }
  }
}
