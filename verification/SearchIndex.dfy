/** The full-text index of decisions: the entries, the table that maps a decision to its entry, and
    the decisions they must agree with. */
module SearchIndex {
  import opened Wrappers

  /** `columns` stands for the columns the index does not read. */
  datatype Row = Row(alert: string, stopAt: int, text: Option<string>, columns: string)

  datatype Entry = Entry(id: string, text: string)

  /** `rows` maps a decision id to the rowid of its entry. */
  datatype Index = Index(decisions: map<string, Row>, entries: map<int, Entry>, rows: map<string, int>)

  predicate HasText(row: Row) {
    row.text.Some? && row.text.value != ""
  }

  /** The mapping is a bijection between indexed ids and entries. */
  ghost predicate Linked(s: Index) {
    && (forall id :: id in s.rows ==> s.rows[id] in s.entries && s.entries[s.rows[id]].id == id)
    && (forall e :: e in s.entries ==> s.entries[e].id in s.rows && s.rows[s.entries[e].id] == e)
  }

  /** A search finds the decision by its current text, and finds nothing else under its id. */
  ghost predicate AgreesAt(s: Index, id: string)
    requires Linked(s)
  {
    && (id in s.rows ==> id in s.decisions && s.decisions[id].text == Some(s.entries[s.rows[id]].text))
    && (id in s.decisions && HasText(s.decisions[id]) ==> id in s.rows)
  }

  ghost predicate Agrees(s: Index) {
    Linked(s) && forall id :: AgreesAt(s, id)
  }

  // ---- What the statements do ----

  function RowidsOf(rows: map<string, int>, ids: set<string>): set<int> {
    set id | id in ids && id in rows :: rows[id]
  }

  function DeleteEntries(s: Index, ids: set<string>): Index {
    s.(entries := s.entries - RowidsOf(s.rows, ids), rows := s.rows - ids)
  }

  /** SQLite picks the rowid; it is unused. */
  function AddEntry(s: Index, id: string, text: string, rowid: int): Index {
    s.(entries := s.entries[rowid := Entry(id, text)], rows := s.rows[id := rowid])
  }

  function Upsert(s: Index, id: string, text: string, rowid: int): Index {
    AddEntry(DeleteEntries(s, {id}), id, text, rowid)
  }

  function ByAlerts(s: Index, alerts: set<string>): set<string> {
    set id | id in s.decisions && s.decisions[id].alert in alerts
  }

  function Expired(s: Index, cutoff: int): set<string> {
    set id | id in s.decisions && s.decisions[id].stopAt < cutoff
  }

  function RemoveDecisions(s: Index, ids: set<string>): Index {
    s.(decisions := s.decisions - ids)
  }

  function ClearEntries(s: Index): Index {
    s.(entries := map[], rows := map[])
  }

  /** `ids` indexed afresh from the decisions, the rest as it was. */
  ghost predicate Rebuilt(s: Index, r: Index, ids: set<string>) {
    && r.decisions == s.decisions && Linked(r)
    && (forall id :: id in ids ==> (id in r.rows <==> id in s.decisions && HasText(s.decisions[id])))
    && (forall id :: id in ids && id in r.rows ==> s.decisions[id].text == Some(r.entries[r.rows[id]].text))
    && (forall id :: id !in ids ==> (id in r.rows <==> id in s.rows))
    && (forall id :: id !in ids && id in r.rows && s.rows[id] in s.entries ==>
          r.rows[id] == s.rows[id] && r.entries[r.rows[id]] == s.entries[s.rows[id]])
  }

  /** An UPDATE of one decision, which hits nothing when the id is not stored. */
  function ChangeDecision(s: Index, id: string, stopAt: int, text: string, columns: string): Index {
    if id !in s.decisions then s
    else s.(decisions := s.decisions[id := s.decisions[id].(stopAt := stopAt, text := Some(text), columns := columns)])
  }

  // ---- Runs ----

  datatype Step =
    | Insert(id: string, row: Row, rowid: int)
    | Update(id: string, stopAt: int, text: string, columns: string, rowid: int)
    | DeleteOne(id: string)
    | DeleteMany(ids: set<string>)
    | DeleteByAlerts(alerts: set<string>)
    | DeleteOld(cutoff: int, picked: set<string>)
    | Begin(clear: bool)
    | RebuildAll(after: Index)
    | RebuildScope(ids: set<string>, after: Index)
    | ClearAll

  /** `stale` collects the ids a step changed behind the index's back. */
  datatype System = System(index: Index, deferred: bool, stale: set<string>)

  ghost predicate Enabled(sys: System, step: Step) {
    match step
    case Insert(id, row, rowid) => row.text.Some? && rowid !in DeleteEntries(sys.index, {id}).entries
    case Update(id, stopAt, text, columns, rowid) => rowid !in DeleteEntries(sys.index, {id}).entries
    case DeleteOld(cutoff, picked) => picked <= Expired(sys.index, cutoff)
    case RebuildAll(after) => Rebuilt(ClearEntries(sys.index), after, sys.index.decisions.Keys)
    case RebuildScope(ids, after) => Rebuilt(sys.index, after, ids)
    case _ => true
  }

  ghost function Next(sys: System, step: Step): System
    requires Enabled(sys, step)
  {
    var s := sys.index;
    match step
    case Insert(id, row, rowid) =>
      var stored := s.(decisions := s.decisions[id := row]);
      if id in s.decisions && s.decisions[id] == row then sys
      else if sys.deferred then sys.(index := stored, stale := sys.stale + {id})
      else sys.(index := Upsert(stored, id, row.text.value, rowid))
    case Update(id, stopAt, text, columns, rowid) =>
      var stored := ChangeDecision(s, id, stopAt, text, columns);
      if sys.deferred then sys.(index := stored, stale := if id in s.decisions then sys.stale + {id} else sys.stale)
      else
        var unstored := if id in s.decisions then {} else {id};
        sys.(index := Upsert(stored, id, text, rowid), stale := sys.stale + unstored)
    case DeleteOne(id) => sys.(index := DeleteEntries(RemoveDecisions(s, {id}), {id}))
    case DeleteMany(ids) => sys.(index := DeleteEntries(RemoveDecisions(s, ids), ids))
    case DeleteByAlerts(alerts) =>
      var ids := ByAlerts(s, alerts);
      if sys.deferred then sys.(index := RemoveDecisions(s, ids), stale := sys.stale + ids)
      else sys.(index := RemoveDecisions(DeleteEntries(s, ids), ids))
    case DeleteOld(cutoff, picked) =>
      if sys.deferred then sys.(index := RemoveDecisions(s, picked), stale := sys.stale + picked)
      else sys.(index := RemoveDecisions(DeleteEntries(s, picked), picked))
    case Begin(clear) =>
      if clear then System(ClearEntries(s), true, sys.stale + s.decisions.Keys) else sys.(deferred := true)
    case RebuildAll(after) => System(after, false, {})
    case RebuildScope(ids, after) => System(after, false, sys.stale - ids)
    case ClearAll => sys.(index := Index(map[], map[], map[]), stale := {})
  }

  /** The index is a bijection at all times and is right about every id that is not stale. */
  ghost predicate Inv(sys: System) {
    Linked(sys.index) && forall id :: id !in sys.stale ==> AgreesAt(sys.index, id)
  }

  // ---- What the steps do to the decisions ----

  ghost predicate OtherDecisionsSame(s: Index, r: Index, id: string) {
    forall other :: other != id ==>
      (other in r.decisions <==> other in s.decisions) &&
        (other in s.decisions ==> r.decisions[other] == s.decisions[other])
  }

  /** A decision is stored with its text, deferred or not. */
  lemma DecisionStored(sys: System, id: string, row: Row, rowid: int)
    requires Enabled(sys, Insert(id, row, rowid))
    ensures var s, r := sys.index, Next(sys, Insert(id, row, rowid)).index;
            id in r.decisions && r.decisions[id] == row && OtherDecisionsSame(s, r, id)
  {
  }

  /** An update changes stop time, text and the other columns of a stored decision, and stores none. */
  lemma DecisionUpdated(sys: System, id: string, stopAt: int, text: string, columns: string, rowid: int)
    requires Enabled(sys, Update(id, stopAt, text, columns, rowid))
    ensures var s, r := sys.index, Next(sys, Update(id, stopAt, text, columns, rowid)).index;
            && r.decisions.Keys == s.decisions.Keys && OtherDecisionsSame(s, r, id)
            && (id in s.decisions ==>
                  r.decisions[id] == Row(s.decisions[id].alert, stopAt, Some(text), columns))
  {
  }

  /** A deletion takes exactly the decisions named, or those of the alerts named. */
  lemma DecisionsDeleted(sys: System, ids: set<string>, alerts: set<string>, id: string)
    ensures var s, r := sys.index, Next(sys, DeleteMany(ids)).index;
            (id in r.decisions <==> id in s.decisions && id !in ids) &&
              (id in r.decisions ==> r.decisions[id] == s.decisions[id])
    ensures var s, r := sys.index, Next(sys, DeleteByAlerts(alerts)).index;
            && (id in r.decisions <==> id in s.decisions && s.decisions[id].alert !in alerts)
            && (id in r.decisions ==> r.decisions[id] == s.decisions[id])
  {
  }

  /** A cleanup takes only decisions that stopped before the cutoff, and all of them when all are picked. */
  lemma OldDecisionsDeleted(sys: System, cutoff: int, picked: set<string>, id: string)
    requires Enabled(sys, DeleteOld(cutoff, picked))
    ensures var s, r := sys.index, Next(sys, DeleteOld(cutoff, picked)).index;
            && (id in r.decisions ==> id in s.decisions && r.decisions[id] == s.decisions[id])
            && (id in s.decisions && id !in r.decisions ==> s.decisions[id].stopAt < cutoff)
            && (picked == Expired(s, cutoff) && id in r.decisions ==> r.decisions[id].stopAt >= cutoff)
  {
  }

  /** A rebuild leaves one entry, with its text, for each decision that has text; a scoped one does so for
      its scope, and leaves the other entries. */
  lemma RebuildsExactly(sys: System, after: Index, ids: set<string>, id: string)
    ensures Enabled(sys, RebuildAll(after)) ==>
              && after.decisions == sys.index.decisions
              && (id in after.rows <==>
                  id in after.decisions && after.decisions[id].text.Some? && after.decisions[id].text != Some(""))
              && (id in after.rows ==> after.decisions[id].text == Some(after.entries[after.rows[id]].text))
    ensures Enabled(sys, RebuildScope(ids, after)) && id in ids ==>
              && after.decisions == sys.index.decisions
              && (id in after.rows <==>
                  id in after.decisions && after.decisions[id].text.Some? && after.decisions[id].text != Some(""))
              && (id in after.rows ==> after.decisions[id].text == Some(after.entries[after.rows[id]].text))
    ensures Enabled(sys, RebuildScope(ids, after)) && id !in ids && Linked(sys.index) ==>
              && (id in after.rows <==> id in sys.index.rows)
              && (id in after.rows ==> after.entries[after.rows[id]] == sys.index.entries[sys.index.rows[id]])
  {
  }

  lemma DeleteKeepsLinked(s: Index, ids: set<string>)
    requires Linked(s)
    ensures Linked(DeleteEntries(s, ids))
    ensures forall id :: id in DeleteEntries(s, ids).rows <==> id in s.rows && id !in ids
    ensures forall id :: id in s.rows && id !in ids ==>
              DeleteEntries(s, ids).rows[id] == s.rows[id] &&
                DeleteEntries(s, ids).entries[s.rows[id]] == s.entries[s.rows[id]]
  {
    var r := DeleteEntries(s, ids);
    forall e | e in r.entries ensures r.entries[e].id in r.rows && r.rows[r.entries[e].id] == e {
      var id := s.entries[e].id;
      assert id in s.rows && s.rows[id] == e;
    }
  }

  lemma AddKeepsLinked(s: Index, id: string, text: string, rowid: int)
    requires Linked(s) && id !in s.rows && rowid !in s.entries
    ensures Linked(AddEntry(s, id, text, rowid))
  {
  }

  lemma UpsertAgrees(s: Index, id: string, text: string, rowid: int)
    requires Linked(s) && rowid !in DeleteEntries(s, {id}).entries
    ensures var r := Upsert(s, id, text, rowid);
            && Linked(r) && r.rows.Keys == s.rows.Keys + {id}
            && r.entries[r.rows[id]] == Entry(id, text)
            && forall other :: other in s.rows && other != id ==>
                 r.rows[other] == s.rows[other] && r.entries[s.rows[other]] == s.entries[s.rows[other]]
  {
    DeleteKeepsLinked(s, {id});
    AddKeepsLinked(DeleteEntries(s, {id}), id, text, rowid);
  }

  lemma InsertKeepsInv(sys: System, id: string, row: Row, rowid: int)
    requires Inv(sys) && Enabled(sys, Insert(id, row, rowid))
    ensures Inv(Next(sys, Insert(id, row, rowid)))
  {
    var stored := sys.index.(decisions := sys.index.decisions[id := row]);
    assert Linked(stored);
    if !sys.deferred {
      UpsertAgrees(stored, id, row.text.value, rowid);
    }
  }

  lemma UpdateKeepsInv(sys: System, id: string, stopAt: int, text: string, columns: string, rowid: int)
    requires Inv(sys) && Enabled(sys, Update(id, stopAt, text, columns, rowid))
    ensures Inv(Next(sys, Update(id, stopAt, text, columns, rowid)))
  {
    var s := sys.index;
    var stored := ChangeDecision(s, id, stopAt, text, columns);
    assert Linked(stored);
    if !sys.deferred {
      UpsertAgrees(stored, id, text, rowid);
    }
  }

  /** Removing decisions together with their entries. */
  lemma RemovalAgrees(s: Index, ids: set<string>)
    requires Linked(s)
    ensures RemoveDecisions(DeleteEntries(s, ids), ids) == DeleteEntries(RemoveDecisions(s, ids), ids)
    ensures var r := RemoveDecisions(DeleteEntries(s, ids), ids);
            Linked(r) && forall id :: id in ids || AgreesAt(s, id) ==> AgreesAt(r, id)
  {
    DeleteKeepsLinked(s, ids);
  }

  lemma StepKeepsInv(sys: System, step: Step)
    requires Inv(sys) && Enabled(sys, step)
    ensures Inv(Next(sys, step))
  {
    var s := sys.index;
    match step
    case Insert(id, row, rowid) => InsertKeepsInv(sys, id, row, rowid);
    case Update(id, stopAt, text, columns, rowid) => UpdateKeepsInv(sys, id, stopAt, text, columns, rowid);
    case DeleteOne(id) => RemovalAgrees(s, {id});
    case DeleteMany(ids) => RemovalAgrees(s, ids);
    case DeleteByAlerts(alerts) => RemovalAgrees(s, ByAlerts(s, alerts));
    case DeleteOld(cutoff, picked) => RemovalAgrees(s, picked);
    case RebuildAll(after) => FullRebuildAgrees(s, after);
    case RebuildScope(ids, after) => ScopedRebuildAgreesAt(s, after, ids);
    case _ =>
  }

  ghost predicate Run(start: System, steps: seq<Step>, end: System)
    decreases |steps|
  {
    if steps == [] then start == end
    else Enabled(start, steps[0]) && Run(Next(start, steps[0]), steps[1..], end)
  }

  /** Over any run the index stays right about everything that is not stale; with nothing stale it
      agrees with the decisions entirely. */
  lemma {:induction false} RunKeepsInv(start: System, steps: seq<Step>, end: System)
    requires Inv(start) && Run(start, steps, end)
    ensures Inv(end)
    ensures end.stale == {} ==> Agrees(end.index)
    decreases |steps|
  {
    if steps != [] {
      StepKeepsInv(start, steps[0]);
      RunKeepsInv(Next(start, steps[0]), steps[1..], end);
    }
  }

  /** Without deferral, and updating only decisions that exist, nothing ever goes stale. */
  ghost predicate Immediate(sys: System, step: Step) {
    !step.Begin? && (step.Update? ==> step.id in sys.index.decisions)
  }

  ghost predicate ImmediateRun(start: System, steps: seq<Step>, end: System)
    decreases |steps|
  {
    if steps == [] then start == end
    else Enabled(start, steps[0]) && Immediate(start, steps[0]) && ImmediateRun(Next(start, steps[0]), steps[1..], end)
  }

  lemma {:induction false} ImmediateRunAgrees(start: System, steps: seq<Step>, end: System)
    requires !start.deferred && Agrees(start.index) && start.stale == {} && ImmediateRun(start, steps, end)
    ensures Agrees(end.index) && !end.deferred && end.stale == {}
    decreases |steps|
  {
    if steps != [] {
      StepKeepsInv(start, steps[0]);
      ImmediateRunAgrees(Next(start, steps[0]), steps[1..], end);
    }
  }

  /** Tables indexed afresh from nothing agree. */
  lemma FullRebuildAgrees(s: Index, after: Index)
    requires Rebuilt(ClearEntries(s), after, s.decisions.Keys)
    ensures Agrees(after)
  {
    forall id ensures AgreesAt(after, id) {
      assert id !in s.decisions ==> id !in after.rows;
    }
  }

  lemma ScopedRebuildAgreesAt(s: Index, after: Index, ids: set<string>)
    requires Linked(s) && Rebuilt(s, after, ids)
    ensures forall id :: AgreesAt(after, id) <==> (id in ids || AgreesAt(s, id))
  {
  }

  /** A scoped rebuild restores agreement exactly when its scope covers every id that disagrees. */
  lemma ScopedRebuildAgreesIff(s: Index, after: Index, ids: set<string>)
    requires Linked(s) && Rebuilt(s, after, ids)
    ensures Agrees(after) <==> forall id :: id !in ids ==> AgreesAt(s, id)
  {
    ScopedRebuildAgreesAt(s, after, ids);
  }

  /** From a right index, any work done while deferred is repaired by a scope that covers what it touched. */
  lemma DeferredWorkRepaired(start: System, steps: seq<Step>, end: System, ids: set<string>, after: Index)
    requires Inv(start) && Run(start, steps, end) && end.stale <= ids && Rebuilt(end.index, after, ids)
    ensures Agrees(after)
  {
    RunKeepsInv(start, steps, end);
    ScopedRebuildAgreesIff(end.index, after, ids);
  }

  /** Updating a decision that is not stored leaves an entry behind: agreement survives exactly when it is. */
  lemma UpdateAgreesIff(s: Index, id: string, stopAt: int, text: string, columns: string, rowid: int)
    requires Agrees(s) && rowid !in DeleteEntries(s, {id}).entries
    ensures Agrees(Next(System(s, false, {}), Update(id, stopAt, text, columns, rowid)).index) <==> id in s.decisions
  {
    var sys := System(s, false, {});
    StepKeepsInv(sys, Update(id, stopAt, text, columns, rowid));
    UpsertAgrees(s, id, text, rowid);
    var r := Next(sys, Update(id, stopAt, text, columns, rowid)).index;
    if id !in s.decisions {
      assert !AgreesAt(r, id);
    }
  }
}
