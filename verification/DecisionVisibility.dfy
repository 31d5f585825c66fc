/** What the duplicate flags and the row changes mean to somebody who reads the columns. */
module DecisionVisibility {
  import opened Ordering
  import opened Text
  import opened DecisionDuplicates
  import opened DecisionDuplicateRuns

  // ----- the number an id counts as -----

  ghost predicate LeadingDigits(id: Id, digits: string, rest: string) {
    id == digits + rest && AllDigits(digits) && (rest == "" || !('0' <= rest[0] <= '9'))
  }

  /** An id casts to the number of its leading digits, at most the largest 64-bit integer; without any,
      it counts as -1. */
  ghost predicate CountsAs(id: Id, n: int) {
    || ((id == "" || !('0' <= id[0] <= '9')) && n == -1)
    || exists digits, rest :: LeadingDigits(id, digits, rest) && n == Capped(Number(digits))
  }

  function Capped(n: nat): nat {
    if n <= 9223372036854775807 then n else 9223372036854775807
  }

  lemma {:induction false} LeadingNumberReads(before: string, digits: string, rest: string)
    requires forall i :: 0 <= i < |before| ==> IsDigit(before[i])
    requires forall i :: 0 <= i < |digits| ==> IsDigit(digits[i])
    requires rest == "" || !IsDigit(rest[0])
    ensures LeadingNumber(digits + rest, Number(before)) == Number(before + digits)
    decreases |digits|
  {
    if digits == "" {
      assert digits + rest == rest && before + digits == before;
    } else {
      var more := before + [digits[0]];
      assert more[..|more| - 1] == before;
      assert (digits + rest)[1..] == digits[1..] + rest;
      LeadingNumberReads(more, digits[1..], rest);
      assert more + digits[1..] == before + digits;
    }
  }

  lemma NumericIdReads(id: Id, digits: string, rest: string)
    requires LeadingDigits(id, digits, rest)
    ensures NumericId(id) == Capped(Number(digits))
  {
    LeadingNumberReads("", digits, rest);
    assert "" + digits == digits;
    assert id[0] == digits[0];
  }

  lemma {:induction false} LeadingDigitsExist(id: Id) returns (digits: string, rest: string)
    ensures id == digits + rest && (forall i :: 0 <= i < |digits| ==> IsDigit(digits[i]))
    ensures rest == "" || !IsDigit(rest[0])
    decreases |id|
  {
    if id == "" || !IsDigit(id[0]) {
      digits, rest := "", id;
    } else {
      digits, rest := LeadingDigitsExist(id[1..]);
      digits := [id[0]] + digits;
    }
  }

  /** Every id counts as exactly one number, the one the ranking uses. */
  lemma CountsAsIff(id: Id, n: int)
    ensures CountsAs(id, n) <==> n == NumericId(id)
  {
    if digits, rest :| LeadingDigits(id, digits, rest) && n == Capped(Number(digits)) {
      NumericIdReads(id, digits, rest);
    }
    if n == NumericId(id) && id != "" && IsDigit(id[0]) {
      var digits, rest := LeadingDigitsExist(id);
      assert LeadingDigits(id, digits, rest);
      NumericIdReads(id, digits, rest);
    }
  }

  // ----- who is shown -----

  /** Later stop time first, then larger number, then later id in character order. */
  ghost predicate Outranks(j: Id, a: Decision, i: Id, b: Decision) {
    || a.stopAt > b.stopAt
    || (a.stopAt == b.stopAt
        && exists m, n :: CountsAs(j, m) && CountsAs(i, n) && (m > n || (m == n && Follows(j, i))))
  }

  ghost predicate Follows(j: Id, i: Id) {
    exists k: nat :: DiffersBelow(i, j, k)
  }

  ghost predicate Rival(rows: Table, now: int, j: Id, i: Id)
    requires i in rows
  {
    && j in rows && rows[j].stopAt > now
    && rows[j].instance == rows[i].instance && rows[j].value == rows[i].value && rows[j].simulated == rows[i].simulated
    && Outranks(j, rows[j], i, rows[i])
  }

  lemma OutranksIff(j: Id, a: Decision, i: Id, b: Decision)
    ensures Outranks(j, a, i, b) <==> RanksBefore(j, a, i, b)
  {
    CountsAsIff(j, NumericId(j));
    CountsAsIff(i, NumericId(i));
    LexLessIff(i, j);
    forall m, n | CountsAs(j, m) && CountsAs(i, n) ensures m == NumericId(j) && n == NumericId(i) {
      CountsAsIff(j, m);
      CountsAsIff(i, n);
    }
  }

  /** A row is flagged exactly when it is active and an active row of its instance with its value and its
      simulated flag outranks it. */
  lemma FlaggedIff(rows: Table, now: int, id: Id)
    requires id in rows
    ensures FullRankFlag(rows, now, id) <==> rows[id].stopAt > now && exists j :: Rival(rows, now, j, id)
  {
    forall j ensures Rival(rows, now, j, id) <==> j in Rivals(rows, now, id) {
      if j in rows {
        OutranksIff(j, rows[j], id, rows[id]);
      }
    }
    if j :| j in Rivals(rows, now, id) {
      assert |Rivals(rows, now, id)| > 0;
    } else {
      assert Rivals(rows, now, id) == {};
    }
  }

  /** The main theorem for a reader of the columns: after any run, crashes and restarts included, a refresh
      writes no column but the flag, and flags exactly the active rows that an active rival outranks. */
  lemma RefreshShowsTheBest(c: Cache, clock: int, events: seq<Event>, now: int, id: Id)
    requires Inv(c, clock) && ValidRun(c, clock, events) && LastClock(clock, events) <= now
    requires id in RunFrom(c, events).rows
    ensures var before, after := RunFrom(c, events).rows, Refresh(RunFrom(c, events), now, false).rows;
            && after.Keys == before.Keys
            && after[id] == before[id].(isDuplicate := after[id].isDuplicate)
            && (after[id].isDuplicate <==> before[id].stopAt > now && exists j :: Rival(before, now, j, id))
  {
    IncrementalRefreshIsFullRank(c, clock, events, now);
    FlaggedIff(RunFrom(c, events).rows, now, id);
  }

  /** In particular, of active rows that differ in their numeric ids alone the largest number is shown. */
  lemma LargestNumberIsShown(rows: Table, now: int, w: Id, j: Id)
    requires FlagsMatchFullRank(rows, now) && w in rows && j in rows
    requires AllDigits(w) && AllDigits(j) && Number(w) <= 9223372036854775807 && Number(j) <= 9223372036854775807
    requires rows[w].stopAt == rows[j].stopAt > now && !rows[w].isDuplicate
    requires rows[j].instance == rows[w].instance && rows[j].value == rows[w].value &&
             rows[j].simulated == rows[w].simulated
    ensures Number(j) <= Number(w)
  {
    FlaggedIff(rows, now, w);
    if Number(j) > Number(w) {
      assert LeadingDigits(j, j, "") && LeadingDigits(w, w, "");
      assert CountsAs(j, Number(j)) && CountsAs(w, Number(w));
      assert Rival(rows, now, j, w);
    }
  }

  // ----- what the row changes store -----

  ghost predicate OthersSame(before: Table, after: Table, id: Id) {
    forall k :: k != id ==> (k in after <==> k in before) && (k in before ==> after[k] == before[k])
  }

  /** An insert stores every column of the row, except that a stored row keeps its instance; a row that
      changes is shown until the next refresh. */
  lemma InsertStores(c: Cache, id: Id, row: Decision)
    ensures var before, after := c.rows, Insert(c, id, row).rows;
            && id in after && OthersSame(before, after, id)
            && after[id].value == row.value && after[id].simulated == row.simulated && after[id].stopAt == row.stopAt
            && after[id].alertId == row.alertId && after[id].columns == row.columns
            && after[id].instance == (if id in before then before[id].instance else row.instance)
            && ((id in before && after[id] == before[id]) || !after[id].isDuplicate)
  {
  }

  /** An update stores the new stop time, simulated flag and columns, and leaves the rest of the row. */
  lemma UpdateStores(c: Cache, id: Id, u: Change)
    ensures var before, after := c.rows, Update(c, id, u).rows;
            && after.Keys == before.Keys && OthersSame(before, after, id)
            && (id in before ==>
                  && after[id].stopAt == u.stopAt && after[id].simulated == u.simulated
                  && after[id].columns == u.columns
                  && after[id].value == before[id].value && after[id].instance == before[id].instance
                  && after[id].alertId == before[id].alertId && after[id].isDuplicate == before[id].isDuplicate)
  {
  }

  /** Deletions take exactly the rows of the alerts, or exactly the rows that stopped before the cutoff. */
  lemma DeletionsTake(c: Cache, alerts: set<int>, cutoff: int, id: Id)
    ensures var after := DeleteIds(c, IdsOfAlerts(c.rows, alerts)).rows;
            && (id in after <==> id in c.rows && c.rows[id].alertId !in alerts)
            && (id in after ==> after[id] == c.rows[id])
    ensures var after := DeleteUnmarked(c, OldIds(c.rows, cutoff)).rows;
            && (id in after <==> id in c.rows && c.rows[id].stopAt >= cutoff)
            && (id in after ==> after[id] == c.rows[id])
  {
  }
}
