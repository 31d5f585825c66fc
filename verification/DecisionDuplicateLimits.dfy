/** Exactly which single-row changes the incremental refresh can follow. Both writers of existing
    rows can move a row to a group they do not mark. */
module DecisionDuplicateLimits {
  import opened Wrappers
  import opened Ordering
  import opened Text
  import opened DecisionDuplicates
  import opened DecisionDuplicateRuns

  /** Just refreshed at `t`: nothing pending, markers stored, flags right. */
  ghost predicate CleanAt(c: Cache, t: int) {
    c.mem == Settled(t) && c.meta == Persisted(t) && FlagsMatchFullRank(c.rows, t)
  }

  ghost predicate RightAfterRefresh(c: Cache, now: int) {
    FlagsMatchFullRank(Refresh(c, now, false).rows, now)
  }

  /** Whatever the rest of the table holds and whenever the next refresh comes, it is right. */
  ghost predicate UpdateAlwaysFollowed(id: Id, row: Decision, u: Change, t: int) {
    forall c, now :: CleanAt(c, t) && id in c.rows && c.rows[id] == row && t <= now
      ==> RightAfterRefresh(Update(c, id, u), now)
  }

  ghost predicate UpsertAlwaysFollowed(id: Id, row: Decision, replacement: Decision, t: int) {
    forall c, now :: CleanAt(c, t) && id in c.rows && c.rows[id] == row && t <= now
      ==> RightAfterRefresh(Insert(c, id, replacement), now)
  }

  lemma CleanCacheIsSettled(c: Cache, t: int)
    requires CleanAt(c, t)
    ensures RowsSettled(c.rows, {}, t, t) && Inv(c, t)
  {
    forall id | id in c.rows ensures c.rows[id].stopAt > t ==> c.rows[id].isDuplicate == HasBetter(c.rows, id) {
      if c.rows[id].stopAt > t { RankIsTimeless(c.rows, t, id); }
    }
  }

  lemma InvIsEnough(c: Cache, t: int, now: int)
    requires Inv(c, t) && t <= now
    ensures RightAfterRefresh(c, now)
  {
    RefreshStoresFullRank(c, t, now, false);
  }

  /** Moving one row out of a settled table: the groups that are not marked stay settled when
      the moved row decided none of their flags. */
  lemma MoveKeepsSettled(rows: Table, id: Id, moved: Decision, pending: set<Key>, t: int)
    requires RowsSettled(rows, {}, t, t) && id in rows
    requires rows[id].GroupKey() in pending || rows[id].stopAt <= t || HasBetter(rows, id)
    requires moved.GroupKey() in pending || (moved.stopAt <= t && !moved.isDuplicate)
    ensures RowsSettled(rows[id := moved], pending, t, t)
  {
    var rows' := rows[id := moved];
    forall k | k in rows' && k != id && rows'[k].GroupKey() !in pending && rows'[k].stopAt > t
      ensures HasBetter(rows', k) == HasBetter(rows, k)
    {
      if j :| j in rows && SameGroup(rows[j], rows[k]) && RanksBefore(j, rows[j], k, rows[k]) {
        if j == id {
          var b :| b in rows && SameGroup(rows[b], rows[id]) && RanksBefore(b, rows[b], id, rows[id]);
          RanksBeforeTotal(b, rows[b], id, rows[id]);
          RanksBeforeTransitive(b, rows[b], id, rows[id], k, rows[k]);
          assert SameGroup(rows'[b], rows'[k]) && RanksBefore(b, rows'[b], k, rows'[k]);
        } else {
          assert SameGroup(rows'[j], rows'[k]) && RanksBefore(j, rows'[j], k, rows'[k]);
        }
      }
      if j :| j in rows' && SameGroup(rows'[j], rows'[k]) && RanksBefore(j, rows'[j], k, rows'[k]) {
        assert j != id;
        assert SameGroup(rows[j], rows[k]) && RanksBefore(j, rows[j], k, rows[k]);
      }
    }
  }

  // ----- updateDecision -----

  lemma FollowedUpdate(c: Cache, id: Id, u: Change, t: int, now: int)
    requires CleanAt(c, t) && id in c.rows && t <= now
    requires UpdateMissesItsKey(c.rows[id], u) ==> u.stopAt <= t && !c.rows[id].isDuplicate
    ensures RightAfterRefresh(Update(c, id, u), now)
  {
    CleanCacheIsSettled(c, t);
    MoveKeepsSettled(c.rows, id, ChangedRow(c.rows[id], u), UpdateMarks(Some(c.rows[id]), u), t);
    assert {} + UpdateMarks(Some(c.rows[id]), u) == UpdateMarks(Some(c.rows[id]), u);
    InvIsEnough(Update(c, id, u), t, now);
  }

  /** Neither marked key joins the row's new place, so the refresh keeps whatever flag it carries. */
  lemma MissedRowKeepsFlag(c: Cache, id: Id, u: Change, t: int)
    requires CleanAt(c, t) && id in c.rows && UpdateMissesItsKey(c.rows[id], u)
    ensures id in Refresh(Update(c, id, u), t, false).rows
    ensures Refresh(Update(c, id, u), t, false).rows[id] == ChangedRow(c.rows[id], u)
    ensures Refresh(Update(c, id, u), t, false).rows.Keys == c.rows.Keys
    ensures forall k :: k in c.rows ==>
            SameColumns(Update(c, id, u).rows[k], Refresh(Update(c, id, u), t, false).rows[k])
  {
    var c' := Update(c, id, u);
    assert ExpiredKeys(c'.rows, Some(t), t) == {};
    assert c'.mem.dirtyKeys == UpdateMarks(Some(c.rows[id]), u);
    assert id !in Joined(c'.rows, c'.mem.dirtyKeys + {});
  }

  function Another(id: Id): (r: Id)
    ensures r != id
  {
    if id == "a" then "b" else "a"
  }

  /** A row alone in its group, or the best of it, is not a duplicate. */
  lemma AloneIsUnflagged(rows: Table, now: int, id: Id)
    requires id in rows
    requires forall j :: j in rows && j != id ==> !SameGroup(rows[j], rows[id]) || rows[j].stopAt < rows[id].stopAt
    ensures !FullRankFlag(rows, now, id)
  {
    RanksBeforeTotal(id, rows[id], id, rows[id]);
    assert Rivals(rows, now, id) == {};
  }

  lemma BeatenIsFlagged(rows: Table, now: int, id: Id, better: Id)
    requires id in rows && better in rows && now < rows[id].stopAt < rows[better].stopAt
    requires SameGroup(rows[better], rows[id])
    ensures FullRankFlag(rows, now, id)
  {
    assert better in Rivals(rows, now, id);
  }

  /** A duplicate that leaves unmarked for an empty group stays flagged there. */
  lemma MissedFlaggedUpdate(id: Id, row: Decision, u: Change, t: int) returns (c: Cache)
    requires row.isDuplicate && row.stopAt > t && UpdateMissesItsKey(row, u)
    ensures CleanAt(c, t) && id in c.rows && c.rows[id] == row
    ensures !RightAfterRefresh(Update(c, id, u), t)
  {
    c := Beaten(id, row, t);
    BeatenIsClean(id, row, t);
    MissedRowKeepsFlag(c, id, u, t);
    var rows' := Refresh(Update(c, id, u), t, false).rows;
    assert rows'.Keys == {id, Another(id)};
    AloneIsUnflagged(rows', t, id);
    assert rows'[id].isDuplicate;
  }

  /** A duplicate and the row that beats it, freshly refreshed. */
  function Beaten(id: Id, row: Decision, t: int): Cache {
    Cache(map[id := row, Another(id) := row.(stopAt := row.stopAt + 1, isDuplicate := false)], Persisted(t), Settled(t))
  }

  lemma BeatenIsClean(id: Id, row: Decision, t: int)
    requires row.isDuplicate && row.stopAt > t
    ensures CleanAt(Beaten(id, row, t), t)
  {
    var rows := Beaten(id, row, t).rows;
    BeatenIsFlagged(rows, t, id, Another(id));
    AloneIsUnflagged(rows, t, Another(id));
  }

  /** An unflagged row that arrives unmarked beside a better one stays visible. */
  lemma MissedUnflaggedUpdate(id: Id, row: Decision, u: Change, t: int) returns (c: Cache)
    requires !row.isDuplicate && u.stopAt > t && UpdateMissesItsKey(row, u)
    ensures CleanAt(c, t) && id in c.rows && c.rows[id] == row
    ensures !RightAfterRefresh(Update(c, id, u), t)
  {
    var better := Another(id);
    var rows := map[id := row, better := row.(stopAt := u.stopAt + 1, simulated := u.simulated)];
    c := Cache(rows, Persisted(t), Settled(t));
    AloneIsUnflagged(rows, t, id);
    AloneIsUnflagged(rows, t, better);
    MissedRowKeepsFlag(c, id, u, t);
    var rows' := Refresh(Update(c, id, u), t, false).rows;
    assert SameColumns(rows[better], rows'[better]);
    BeatenIsFlagged(rows', t, id, better);
    assert !rows'[id].isDuplicate;
  }

  /** updateDecision is followed in every table if and only if it does not miss the row's new
      key, or the row lands there already expired and unflagged. */
  lemma UpdateFollowedIff(id: Id, row: Decision, u: Change, t: int)
    requires row.isDuplicate ==> row.stopAt > t
    ensures UpdateAlwaysFollowed(id, row, u, t)
       <==> (UpdateMissesItsKey(row, u) ==> u.stopAt <= t && !row.isDuplicate)
  {
    if UpdateMissesItsKey(row, u) ==> u.stopAt <= t && !row.isDuplicate {
      forall c, now | CleanAt(c, t) && id in c.rows && c.rows[id] == row && t <= now
        ensures RightAfterRefresh(Update(c, id, u), now)
      {
        FollowedUpdate(c, id, u, t, now);
      }
    } else {
      var c;
      if row.isDuplicate {
        c := MissedFlaggedUpdate(id, row, u, t);
      } else {
        c := MissedUnflaggedUpdate(id, row, u, t);
      }
      assert !RightAfterRefresh(Update(c, id, u), t);
    }
  }

  // ----- insertDecision over an existing row -----

  lemma FollowedUpsert(c: Cache, id: Id, replacement: Decision, t: int, now: int)
    requires CleanAt(c, t) && id in c.rows && t <= now
    requires c.rows[id].GroupKey() == replacement.GroupKey() || c.rows[id].stopAt <= t || c.rows[id].isDuplicate
    ensures RightAfterRefresh(Insert(c, id, replacement), now)
  {
    CleanCacheIsSettled(c, t);
    var c' := Insert(c, id, replacement);
    if c' != c {
      var moved := replacement.(isDuplicate := false, instance := c.rows[id].instance);
      MoveKeepsSettled(c.rows, id, moved, {moved.GroupKey()}, t);
      assert {} + {moved.GroupKey()} == {moved.GroupKey()};
    }
    InvIsEnough(c', t, now);
  }

  /** An id that ranks below the given one at equal stop times. */
  function LowerId(id: Id): (r: Id)
    requires id != ""
    ensures r != id && (NumericId(r) < NumericId(id) || (NumericId(r) == NumericId(id) && LexLess(r, id)))
  {
    if IsDigit(id[0]) then "a" else ""
  }

  /** A row and a lower-ranked duplicate of it, freshly refreshed. */
  function Twins(id: Id, row: Decision, t: int): Cache
    requires id != ""
  {
    Cache(map[id := row, LowerId(id) := row.(isDuplicate := true)], Persisted(t), Settled(t))
  }

  lemma TwinsAreClean(id: Id, row: Decision, t: int)
    requires id != "" && row.value != Some("") && row.stopAt > t && !row.isDuplicate
    ensures CleanAt(Twins(id, row, t), t)
  {
    var rows, other := Twins(id, row, t).rows, LowerId(id);
    RanksBeforeTotal(id, row, other, rows[other]);
    RanksBeforeTotal(other, rows[other], id, row);
    assert id in Rivals(rows, t, other);
    assert Rivals(rows, t, id) == {};
  }

  lemma MissedUpsert(id: Id, row: Decision, replacement: Decision, t: int) returns (c: Cache)
    requires id != "" && row.value != Some("")
    requires row.GroupKey() != replacement.GroupKey() && row.stopAt > t && !row.isDuplicate
    ensures CleanAt(c, t) && id in c.rows && c.rows[id] == row
    ensures !RightAfterRefresh(Insert(c, id, replacement), t)
  {
    c := Twins(id, row, t);
    TwinsAreClean(id, row, t);
    var other, rows' := LowerId(id), Refresh(Insert(c, id, replacement), t, false).rows;
    TwinLeavesOther(id, row, replacement, t);
    RanksBeforeTotal(other, rows'[other], other, rows'[other]);
    assert Rivals(rows', t, other) == {};
  }

  /** The refresh does not look at the group the row has left. */
  lemma TwinLeavesOther(id: Id, row: Decision, replacement: Decision, t: int)
    requires id != "" && row.value != Some("")
    requires row.GroupKey() != replacement.GroupKey() && row.stopAt > t && !row.isDuplicate
    ensures var other, rows' := LowerId(id), Refresh(Insert(Twins(id, row, t), id, replacement), t, false).rows;
            rows'.Keys == {id, other} && rows'[other].isDuplicate && rows'[id].GroupKey() != rows'[other].GroupKey()
  {
    var c', key, other := Insert(Twins(id, row, t), id, replacement), replacement.GroupKey(), LowerId(id);
    assert c'.mem.dirtyKeys == {key};
    assert ExpiredKeys(c'.rows, Some(t), t) == {};
    assert !JoinsKey(key, c'.rows[other]);
    assert other !in Joined(c'.rows, {key} + {});
  }

  /** An upsert of an existing row is followed in every table if and only if it keeps the row's
      value and simulated flag, or the row had expired or was itself a duplicate. Values are null
      or non-empty. */
  lemma UpsertFollowedIff(id: Id, row: Decision, replacement: Decision, t: int)
    requires id != "" && row.value != Some("")
    requires row.isDuplicate ==> row.stopAt > t
    ensures UpsertAlwaysFollowed(id, row, replacement, t)
       <==> (row.GroupKey() == replacement.GroupKey() || row.stopAt <= t || row.isDuplicate)
  {
    if row.GroupKey() == replacement.GroupKey() || row.stopAt <= t || row.isDuplicate {
      forall c, now | CleanAt(c, t) && id in c.rows && c.rows[id] == row && t <= now
        ensures RightAfterRefresh(Insert(c, id, replacement), now)
      {
        FollowedUpsert(c, id, replacement, t, now);
      }
    } else {
      var c := MissedUpsert(id, row, replacement, t);
      assert !RightAfterRefresh(Insert(c, id, replacement), t);
    }
  }
}
