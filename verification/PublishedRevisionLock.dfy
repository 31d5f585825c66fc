/** The read/write lock that lets readers keep one committed revision while a writer publishes the
    next: writers go first, wait at most a timeout, and releases may be repeated. Every call,
    release and timer firing is one atomic step. Requests are numbered in order of arrival. */
module PublishedRevisionLock {
  import opened Collections

  datatype Kind = Read | Write

  /** The lock's four fields, then the grants whose release has not run yet, then history: the
      kind of each request, the grants in order, and the writers that gave up. */
  datatype World = World(
    readers: int, writing: bool, waitingReaders: seq<nat>, waitingWriters: seq<nat>,
    liveReads: set<nat>, liveWrites: set<nat>,
    kinds: seq<Kind>, granted: seq<nat>, timedOut: set<nat>)

  const Initial := World(0, false, [], [], {}, {}, [], [], {})

  datatype Event = AcquireRead | AcquireWrite | Release(id: nat) | TimerFires(writer: nat)

  // ----- steps -----

  function GrantRead(w: World, id: nat): World {
    w.(readers := w.readers + 1, liveReads := w.liveReads + {id}, granted := w.granted + [id])
  }

  function GrantWrite(w: World, id: nat): World {
    w.(writing := true, liveWrites := w.liveWrites + {id}, granted := w.granted + [id])
  }

  /** Grants a whole queue of readers in order. */
  function GrantReads(w: World, ids: seq<nat>): World {
    if ids == [] then w else GrantRead(GrantReads(w, ids[..|ids| - 1]), ids[|ids| - 1])
  }

  function Drain(w: World): World {
    if w.writing then w
    else if w.waitingWriters != [] then
      if w.readers > 0 then w
      else GrantWrite(w.(waitingWriters := w.waitingWriters[1..]), w.waitingWriters[0])
    else GrantReads(w.(waitingReaders := []), w.waitingReaders)
  }

  function IndexOf(s: seq<nat>, x: nat): (i: int)
    ensures -1 <= i < |s|
    ensures i == -1 ==> x !in s
    ensures i >= 0 ==> s[i] == x && x !in s[..i]
  {
    if s == [] then -1
    else if s[0] == x then 0
    else var i := IndexOf(s[1..], x); if i == -1 then -1 else i + 1
  }

  /** Takes one waiting writer out of the queue. */
  function GiveUp(w: World, i: nat): World
    requires i < |w.waitingWriters|
  {
    w.(waitingWriters := w.waitingWriters[..i] + w.waitingWriters[i + 1..],
       timedOut := w.timedOut + {w.waitingWriters[i]})
  }

  function Step(w: World, e: Event): World {
    match e
    case AcquireRead =>
      var w1 := w.(kinds := w.kinds + [Read]);
      if !w.writing && w.waitingWriters == [] then GrantRead(w1, |w.kinds|)
      else w1.(waitingReaders := w.waitingReaders + [|w.kinds|])
    case AcquireWrite =>
      var w1 := w.(kinds := w.kinds + [Write]);
      if !w.writing && w.readers == 0 && w.waitingWriters == [] then GrantWrite(w1, |w.kinds|)
      else w1.(waitingWriters := w.waitingWriters + [|w.kinds|])
    case Release(id) =>
      if id in w.liveReads then Drain(w.(readers := w.readers - 1, liveReads := w.liveReads - {id}))
      else if id in w.liveWrites then Drain(w.(writing := false, liveWrites := w.liveWrites - {id}))
      else w
    case TimerFires(id) =>
      var i := IndexOf(w.waitingWriters, id);
      if i == -1 then w
      else Drain(GiveUp(w, i))
  }

  function Run(w: World, events: seq<Event>): World
    decreases |events|
  {
    if events == [] then w else Run(Step(w, events[0]), events[1..])
  }

  // ----- what every reachable state satisfies -----

  /** The fields describe the live grants, and a writer excludes all other holders. */
  ghost predicate Counted(w: World) {
    && w.readers == |w.liveReads|
    && (w.writing <==> w.liveWrites != {})
    && |w.liveWrites| <= 1
    && (w.liveWrites != {} ==> w.liveReads == {})
  }

  /** No lost wake-up: writers wait only for a holder, readers only for a writer. */
  ghost predicate NobodyForgotten(w: World) {
    && (w.waitingWriters != [] ==> w.liveReads != {} || w.liveWrites != {})
    && (w.waitingReaders != [] ==> w.writing || w.waitingWriters != [])
  }

  ghost predicate Ascending(s: seq<nat>) {
    forall i, j :: 0 <= i < j < |s| ==> s[i] < s[j]
  }

  /** Requests have been made, and waiting readers hold nothing and wait in order of arrival. */
  ghost predicate Accounted(w: World) {
    && (forall i :: 0 <= i < |w.granted| ==> w.granted[i] < |w.kinds|)
    && (forall id :: id in w.liveReads ==> id < |w.kinds|)
    && (forall id :: id in w.liveWrites ==> id < |w.kinds|)
    && (forall id :: id in w.timedOut ==> id < |w.kinds| && w.kinds[id] == Write)
    && Ascending(w.waitingReaders)
    && (forall i :: 0 <= i < |w.waitingReaders| ==>
          && w.waitingReaders[i] < |w.kinds| && w.kinds[w.waitingReaders[i]] == Read
          && w.waitingReaders[i] !in w.liveReads)
  }

  /** The writers among the grants, in order. */
  function WriterGrants(kinds: seq<Kind>, granted: seq<nat>): seq<nat> {
    if granted == [] then []
    else
      var last := granted[|granted| - 1];
      WriterGrants(kinds, granted[..|granted| - 1]) + (if last < |kinds| && kinds[last] == Write then [last] else [])
  }

  /** The writers that arrived, in order of arrival, without those that gave up. */
  function PatientWriters(kinds: seq<Kind>, timedOut: set<nat>): seq<nat> {
    if kinds == [] then []
    else
      var n := |kinds| - 1;
      PatientWriters(kinds[..n], timedOut) + (if kinds[n] == Write && n !in timedOut then [n] else [])
  }

  /** Writers are granted in arrival order minus timeouts, and nobody else waits as a writer. */
  ghost predicate InArrivalOrder(w: World) {
    WriterGrants(w.kinds, w.granted) + w.waitingWriters == PatientWriters(w.kinds, w.timedOut)
  }

  ghost predicate Distinct(s: seq<nat>) {
    forall i, j :: 0 <= i < j < |s| ==> s[i] != s[j]
  }

  /** No request is granted twice, and a reader waits exactly until it is granted. */
  ghost predicate GrantedOnce(w: World) {
    && Distinct(w.granted)
    && (forall id: nat :: id < |w.kinds| && w.kinds[id] == Read ==> (id in w.granted <==> id !in w.waitingReaders))
  }

  ghost predicate Inv(w: World) {
    Counted(w) && NobodyForgotten(w) && Accounted(w) && InArrivalOrder(w) && GrantedOnce(w)
  }

  // ----- the log of grants -----

  lemma WriterGrantsAppend(kinds: seq<Kind>, granted: seq<nat>, id: nat)
    ensures WriterGrants(kinds, granted + [id])
         == WriterGrants(kinds, granted) + (if id < |kinds| && kinds[id] == Write then [id] else [])
  {
    assert (granted + [id])[..|granted|] == granted;
  }

  lemma {:induction false} WriterGrantsExtendKinds(kinds: seq<Kind>, kind: Kind, granted: seq<nat>)
    requires forall i :: 0 <= i < |granted| ==> granted[i] < |kinds|
    ensures WriterGrants(kinds + [kind], granted) == WriterGrants(kinds, granted)
    decreases |granted|
  {
    if granted != [] {
      WriterGrantsExtendKinds(kinds, kind, granted[..|granted| - 1]);
    }
  }

  lemma PatientWritersAppend(kinds: seq<Kind>, kind: Kind, timedOut: set<nat>)
    ensures PatientWriters(kinds + [kind], timedOut)
         == PatientWriters(kinds, timedOut) + (if kind == Write && |kinds| !in timedOut then [|kinds|] else [])
  {
    assert (kinds + [kind])[..|kinds|] == kinds;
  }

  ghost predicate AllPatientWriters(kinds: seq<Kind>, timedOut: set<nat>, line: seq<nat>) {
    forall i :: 0 <= i < |line| ==> line[i] < |kinds| && kinds[line[i]] == Write && line[i] !in timedOut
  }

  lemma {:induction false} PatientWritersAreWriters(kinds: seq<Kind>, timedOut: set<nat>)
    ensures AllPatientWriters(kinds, timedOut, PatientWriters(kinds, timedOut))
    ensures Ascending(PatientWriters(kinds, timedOut))
    decreases |kinds|
  {
    if kinds != [] {
      var n := |kinds| - 1;
      var rest, line := PatientWriters(kinds[..n], timedOut), PatientWriters(kinds, timedOut);
      PatientWritersAreWriters(kinds[..n], timedOut);
      assert AllPatientWriters(kinds, timedOut, rest);
      if kinds[n] == Write && n !in timedOut {
        assert line == rest + [n];
      } else {
        assert line == rest;
      }
    }
  }

  lemma {:induction false} LaterTimeoutIsIrrelevant(kinds: seq<Kind>, timedOut: set<nat>, id: nat)
    requires id >= |kinds|
    ensures PatientWriters(kinds, timedOut + {id}) == PatientWriters(kinds, timedOut)
    decreases |kinds|
  {
    if kinds != [] {
      LaterTimeoutIsIrrelevant(kinds[..|kinds| - 1], timedOut, id);
    }
  }

  /** A timeout takes exactly that writer out of the line. */
  lemma {:induction false} TimeoutLeavesLine(kinds: seq<Kind>, timedOut: set<nat>, a: seq<nat>, id: nat, b: seq<nat>)
    requires PatientWriters(kinds, timedOut) == a + [id] + b
    ensures PatientWriters(kinds, timedOut + {id}) == a + b
    decreases |kinds|
  {
    var n := |kinds| - 1;
    assert kinds != [];
    var rest := PatientWriters(kinds[..n], timedOut);
    if kinds[n] == Write && n !in timedOut {
      var line := a + [id] + b;
      assert line == rest + [n] && rest == line[..|line| - 1] && n == line[|line| - 1];
      if b == [] {
        assert line[..|line| - 1] == a;
        LaterTimeoutIsIrrelevant(kinds[..n], timedOut, n);
        assert a + b == a;
      } else {
        var b' := b[..|b| - 1];
        assert line[..|line| - 1] == a + [id] + b';
        TimeoutLeavesLine(kinds[..n], timedOut, a, id, b');
        PatientWritersAreWriters(kinds[..n], timedOut);
        assert rest[|a|] == id;
        assert a + b == a + b' + [n];
      }
    } else {
      TimeoutLeavesLine(kinds[..n], timedOut, a, id, b);
    }
  }

  // ----- draining: right counts in, the wake-up guarantee out -----

  lemma {:induction false} GrantReadsFields(w: World, ids: seq<nat>)
    ensures GrantReads(w, ids) == w.(readers := w.readers + |ids|, liveReads := GrantReads(w, ids).liveReads,
                                     granted := w.granted + ids)
    decreases |ids|
  {
    if ids == [] {
      assert w.granted + ids == w.granted;
    } else {
      var init, last := ids[..|ids| - 1], ids[|ids| - 1];
      GrantReadsFields(w, init);
      assert w.granted + ids == w.granted + init + [last];
    }
  }

  lemma {:induction false} GrantReadsMembers(w: World, ids: seq<nat>, id: nat)
    ensures id in GrantReads(w, ids).liveReads <==> id in w.liveReads || id in ids
    decreases |ids|
  {
    if ids != [] {
      var init, last := ids[..|ids| - 1], ids[|ids| - 1];
      GrantReadsMembers(w, init, id);
      assert ids == init + [last];
    }
  }

  lemma {:induction false} GrantReadsCount(w: World, ids: seq<nat>)
    requires Ascending(ids) && forall i :: 0 <= i < |ids| ==> ids[i] !in w.liveReads
    ensures |GrantReads(w, ids).liveReads| == |w.liveReads| + |ids|
    decreases |ids|
  {
    if ids != [] {
      var init, last := ids[..|ids| - 1], ids[|ids| - 1];
      GrantReadsCount(w, init);
      GrantReadsMembers(w, init, last);
      assert last !in init;
    }
  }

  lemma GrantReadsEffect(w: World, ids: seq<nat>)
    requires Ascending(ids) && forall i :: 0 <= i < |ids| ==> ids[i] !in w.liveReads
    ensures var live := GrantReads(w, ids).liveReads;
            && GrantReads(w, ids) == w.(readers := w.readers + |ids|, liveReads := live, granted := w.granted + ids)
            && |live| == |w.liveReads| + |ids|
            && forall id :: id in live ==> id in w.liveReads || id in ids
  {
    GrantReadsFields(w, ids);
    GrantReadsCount(w, ids);
    forall id | id in GrantReads(w, ids).liveReads ensures id in w.liveReads || id in ids {
      GrantReadsMembers(w, ids, id);
    }
  }

  lemma {:induction false} WriterGrantsAppendReaders(kinds: seq<Kind>, granted: seq<nat>, ids: seq<nat>)
    requires forall i :: 0 <= i < |ids| ==> ids[i] < |kinds| && kinds[ids[i]] == Read
    ensures WriterGrants(kinds, granted + ids) == WriterGrants(kinds, granted)
    decreases |ids|
  {
    if ids == [] {
      assert granted + ids == granted;
    } else {
      var init, last := ids[..|ids| - 1], ids[|ids| - 1];
      assert granted + ids == granted + init + [last];
      WriterGrantsAppend(kinds, granted + init, last);
      WriterGrantsAppendReaders(kinds, granted, init);
    }
  }

  lemma FrontWriterIsKnown(w: World)
    requires InArrivalOrder(w) && w.waitingWriters != []
    ensures w.waitingWriters[0] < |w.kinds| && w.kinds[w.waitingWriters[0]] == Write
  {
    PatientWritersAreWriters(w.kinds, w.timedOut);
    var grants := WriterGrants(w.kinds, w.granted);
    assert (grants + w.waitingWriters)[|grants|] == w.waitingWriters[0];
  }

  lemma DrainGrantsWriterInOrder(w: World)
    requires InArrivalOrder(w)
    requires !w.writing && w.waitingWriters != [] && w.readers <= 0
    ensures InArrivalOrder(Drain(w))
  {
    FrontWriterIsKnown(w);
    var id, grants := w.waitingWriters[0], WriterGrants(w.kinds, w.granted);
    WriterGrantsAppend(w.kinds, w.granted, id);
    assert grants + w.waitingWriters == grants + [id] + w.waitingWriters[1..];
  }

  lemma DrainGrantsWriter(w: World)
    requires Counted(w) && Accounted(w) && InArrivalOrder(w)
    requires !w.writing && w.waitingWriters != [] && w.readers <= 0
    ensures Counted(Drain(w)) && NobodyForgotten(Drain(w)) && Accounted(Drain(w)) && InArrivalOrder(Drain(w))
  {
    FrontWriterIsKnown(w);
    DrainGrantsWriterInOrder(w);
    GrantedStayKnown(w.kinds, w.granted, [w.waitingWriters[0]]);
  }

  lemma DrainGrantsReadersInOrder(w: World)
    requires Accounted(w) && InArrivalOrder(w)
    requires !w.writing && w.waitingWriters == []
    ensures InArrivalOrder(Drain(w))
  {
    GrantReadsEffect(w.(waitingReaders := []), w.waitingReaders);
    WriterGrantsAppendReaders(w.kinds, w.granted, w.waitingReaders);
  }

  lemma DrainGrantsReaders(w: World)
    requires Counted(w) && Accounted(w)
    requires !w.writing && w.waitingWriters == []
    ensures Counted(Drain(w)) && NobodyForgotten(Drain(w)) && Accounted(Drain(w))
  {
    GrantReadsEffect(w.(waitingReaders := []), w.waitingReaders);
    GrantedStayKnown(w.kinds, w.granted, w.waitingReaders);
  }

  lemma GrantedStayKnown(kinds: seq<Kind>, a: seq<nat>, b: seq<nat>)
    requires forall i :: 0 <= i < |a| ==> a[i] < |kinds|
    requires forall i :: 0 <= i < |b| ==> b[i] < |kinds|
    ensures forall i :: 0 <= i < |a + b| ==> (a + b)[i] < |kinds|
  {
  }

  lemma DistinctAppend(a: seq<nat>, b: seq<nat>)
    requires Distinct(a) && Distinct(b) && forall i :: 0 <= i < |b| ==> b[i] !in a
    ensures Distinct(a + b)
  {
  }

  /** A waiting writer holds no grant: the line of writers has nobody twice. */
  lemma WaitingWriterNotGranted(w: World, i: nat)
    requires Accounted(w) && InArrivalOrder(w) && i < |w.waitingWriters|
    ensures w.waitingWriters[i] < |w.kinds| && w.kinds[w.waitingWriters[i]] == Write
    ensures w.waitingWriters[i] !in w.granted && w.waitingWriters[i] !in w.timedOut
  {
    var grants, line, id := WriterGrants(w.kinds, w.granted), PatientWriters(w.kinds, w.timedOut), w.waitingWriters[i];
    PatientWritersAreWriters(w.kinds, w.timedOut);
    assert line[|grants| + i] == id;
    NobodyTwice(grants, w.waitingWriters, i);
    if id in w.granted {
      var k :| 0 <= k < |w.granted| && w.granted[k] == id;
      GrantedWriterIsInLine(w.kinds, w.granted, k);
    }
  }

  lemma NobodyTwice(a: seq<nat>, b: seq<nat>, i: nat)
    requires Ascending(a + b) && i < |b|
    ensures b[i] !in a
  {
    forall p | 0 <= p < |a| ensures a[p] != b[i] {
      assert (a + b)[p] == a[p] && (a + b)[|a| + i] == b[i];
    }
  }

  lemma DrainGrantsReadersOnce(w: World)
    requires Accounted(w) && GrantedOnce(w) && !w.writing && w.waitingWriters == []
    ensures GrantedOnce(Drain(w))
  {
    GrantReadsFields(w.(waitingReaders := []), w.waitingReaders);
    DistinctAppend(w.granted, w.waitingReaders);
  }

  lemma DrainGrantsOnce(w: World)
    requires Accounted(w) && InArrivalOrder(w) && GrantedOnce(w)
    ensures GrantedOnce(Drain(w))
  {
    if !w.writing && w.waitingWriters != [] && w.readers <= 0 {
      WaitingWriterNotGranted(w, 0);
      DistinctAppend(w.granted, [w.waitingWriters[0]]);
    } else if !w.writing && w.waitingWriters == [] {
      DrainGrantsReadersOnce(w);
    }
  }

  lemma DrainKeepsInv(w: World)
    requires Counted(w) && Accounted(w) && InArrivalOrder(w) && GrantedOnce(w)
    ensures Inv(Drain(w))
  {
    DrainGrantsOnce(w);
    if !w.writing && w.waitingWriters != [] && w.readers <= 0 {
      DrainGrantsWriter(w);
    } else if !w.writing && w.waitingWriters == [] {
      DrainGrantsReaders(w);
      DrainGrantsReadersInOrder(w);
    }
  }

  // ----- every step keeps the invariant -----

  lemma ArrivalCounted(w: World, e: Event)
    requires Counted(w) && NobodyForgotten(w) && Accounted(w) && (e.AcquireRead? || e.AcquireWrite?)
    ensures Counted(Step(w, e)) && NobodyForgotten(Step(w, e))
  {
  }

  lemma ArrivalAccounted(w: World, e: Event)
    requires Accounted(w) && (e.AcquireRead? || e.AcquireWrite?)
    ensures Accounted(Step(w, e))
  {
    var id, w' := |w.kinds|, Step(w, e);
    assert forall i :: 0 <= i < |w'.granted| ==> w'.granted[i] < |w'.kinds|;
    assert w'.waitingReaders == w.waitingReaders || w'.waitingReaders == w.waitingReaders + [id];
    assert w'.liveReads == w.liveReads || (w'.liveReads == w.liveReads + {id} && w'.waitingReaders == w.waitingReaders);
  }

  lemma ArrivalGrantedOnce(w: World, e: Event)
    requires Accounted(w) && GrantedOnce(w) && (e.AcquireRead? || e.AcquireWrite?)
    ensures GrantedOnce(Step(w, e))
  {
    var id, w' := |w.kinds|, Step(w, e);
    DistinctAppend(w.granted, [id]);
    assert w'.granted == w.granted || w'.granted == w.granted + [id];
    assert w'.waitingReaders == w.waitingReaders || w'.waitingReaders == w.waitingReaders + [id];
  }

  lemma ArrivalInOrder(w: World, e: Event)
    requires Accounted(w) && InArrivalOrder(w) && (e.AcquireRead? || e.AcquireWrite?)
    ensures InArrivalOrder(Step(w, e))
  {
    var id, kind := |w.kinds|, if e.AcquireRead? then Read else Write;
    var grants := WriterGrants(w.kinds, w.granted);
    WriterGrantsExtendKinds(w.kinds, kind, w.granted);
    WriterGrantsAppend(w.kinds + [kind], w.granted, id);
    PatientWritersAppend(w.kinds, kind, w.timedOut);
    assert grants + (w.waitingWriters + [id]) == grants + w.waitingWriters + [id];
    assert w.waitingWriters == [] ==> grants + [id] + [] == grants + w.waitingWriters + [id];
  }

  lemma ReleaseReadKeepsInv(w: World, id: nat)
    requires Inv(w) && id in w.liveReads
    ensures Inv(Step(w, Release(id)))
  {
    var w1 := w.(readers := w.readers - 1, liveReads := w.liveReads - {id});
    assert Counted(w1) && InArrivalOrder(w1) && Accounted(w1) && GrantedOnce(w1);
    DrainKeepsInv(w1);
  }

  lemma ReleaseWriteKeepsInv(w: World, id: nat)
    requires Inv(w) && id in w.liveWrites
    ensures Inv(Step(w, Release(id)))
  {
    var w1 := w.(writing := false, liveWrites := w.liveWrites - {id});
    assert |w1.liveWrites| == 0;
    assert Counted(w1) && InArrivalOrder(w1) && Accounted(w1) && GrantedOnce(w1);
    DrainKeepsInv(w1);
  }

  lemma TimerKeepsOrder(w: World, i: nat)
    requires InArrivalOrder(w) && i < |w.waitingWriters|
    ensures InArrivalOrder(GiveUp(w, i))
    ensures w.waitingWriters[i] < |w.kinds| && w.kinds[w.waitingWriters[i]] == Write
  {
    var id, before, after := w.waitingWriters[i], w.waitingWriters[..i], w.waitingWriters[i + 1..];
    var grants := WriterGrants(w.kinds, w.granted);
    assert grants + w.waitingWriters == (grants + before) + [id] + after;
    TimeoutLeavesLine(w.kinds, w.timedOut, grants + before, id, after);
    assert grants + (before + after) == (grants + before) + after;
    PatientWritersAreWriters(w.kinds, w.timedOut);
    assert PatientWriters(w.kinds, w.timedOut)[|grants| + i] == id;
  }

  lemma TimerKeepsInv(w: World, id: nat)
    requires Inv(w)
    ensures Inv(Step(w, TimerFires(id)))
  {
    var i := IndexOf(w.waitingWriters, id);
    if i >= 0 {
      TimerKeepsOrder(w, i);
      DrainKeepsInv(GiveUp(w, i));
    }
  }

  lemma ArrivalKeepsInv(w: World, e: Event)
    requires Inv(w) && (e.AcquireRead? || e.AcquireWrite?)
    ensures Inv(Step(w, e))
  {
    ArrivalCounted(w, e);
    ArrivalAccounted(w, e);
    ArrivalInOrder(w, e);
    ArrivalGrantedOnce(w, e);
  }

  lemma StepKeepsInv(w: World, e: Event)
    requires Inv(w)
    ensures Inv(Step(w, e))
  {
    match e
    case AcquireRead => ArrivalKeepsInv(w, e);
    case AcquireWrite => ArrivalKeepsInv(w, e);
    case Release(id) =>
      if id in w.liveReads {
        ReleaseReadKeepsInv(w, id);
      } else if id in w.liveWrites {
        ReleaseWriteKeepsInv(w, id);
      }
    case TimerFires(id) => TimerKeepsInv(w, id);
  }

  // ----- theorems about runs -----

  lemma {:induction false} RunKeepsInv(w: World, events: seq<Event>)
    requires Inv(w)
    ensures Inv(Run(w, events))
    decreases |events|
  {
    if events != [] {
      StepKeepsInv(w, events[0]);
      RunKeepsInv(Step(w, events[0]), events[1..]);
    }
  }

  /** Every interleaving of requests, releases and timeouts is safe. */
  lemma EveryRunIsSafe(events: seq<Event>)
    ensures Inv(Run(Initial, events))
  {
    RunKeepsInv(Initial, events);
  }

  /** Whoever waits, somebody still holds the lock and will wake them. */
  lemma WaitingImpliesHolder(w: World)
    requires Inv(w) && (w.waitingReaders != [] || w.waitingWriters != [])
    ensures w.liveReads != {} || w.liveWrites != {}
    ensures w.liveReads + w.liveWrites != {}
  {
    if w.liveReads != {} {
      var id := Member(w.liveReads);
      assert id in w.liveReads + w.liveWrites;
    } else {
      var id := Member(w.liveWrites);
      assert id in w.liveReads + w.liveWrites;
    }
  }

  lemma ReadArrival(w: World)
    requires Inv(w)
    ensures var w', id := Step(w, AcquireRead), |w.kinds|;
            if !w.writing && w.waitingWriters == [] then id in w'.liveReads
            else id !in w'.liveReads && id in w'.waitingReaders && w'.liveReads + w'.liveWrites != {}
  {
    var w' := Step(w, AcquireRead);
    StepKeepsInv(w, AcquireRead);
    if w.writing || w.waitingWriters != [] {
      assert w'.waitingReaders == w.waitingReaders + [|w.kinds|];
      WaitingImpliesHolder(w');
    }
  }

  lemma WriteArrival(w: World)
    requires Inv(w)
    ensures var w', id := Step(w, AcquireWrite), |w.kinds|;
            if !w.writing && w.readers == 0 && w.waitingWriters == [] then id in w'.liveWrites
            else id !in w'.liveWrites && id in w'.waitingWriters && w'.liveReads + w'.liveWrites != {}
  {
    var w' := Step(w, AcquireWrite);
    StepKeepsInv(w, AcquireWrite);
    if w.writing || w.readers != 0 || w.waitingWriters != [] {
      assert w'.waitingWriters == w.waitingWriters + [|w.kinds|];
      WaitingImpliesHolder(w');
    }
  }

  /** A writer excludes every other holder. */
  lemma WriterIsAlone(w: World, a: nat, b: nat)
    requires Inv(w) && a in w.liveWrites && b in w.liveReads + w.liveWrites
    ensures a == b
  {
    assert |w.liveWrites - {a}| == |w.liveWrites| - 1;
    assert w.liveWrites - {a} == {};
  }

  lemma {:induction false} GrantedWriterIsInLine(kinds: seq<Kind>, granted: seq<nat>, i: nat)
    requires i < |granted| && granted[i] < |kinds| && kinds[granted[i]] == Write
    ensures granted[i] in WriterGrants(kinds, granted)
    decreases |granted|
  {
    if i < |granted| - 1 {
      GrantedWriterIsInLine(kinds, granted[..|granted| - 1], i);
    }
  }

  lemma GrantedDidNotTimeOut(w: World, i: nat)
    requires Inv(w) && i < |w.granted|
    ensures w.granted[i] !in w.timedOut
  {
    if w.kinds[w.granted[i]] == Write {
      GrantedWriterIsInLine(w.kinds, w.granted, i);
      PatientWritersAreWriters(w.kinds, w.timedOut);
      var grants, line := WriterGrants(w.kinds, w.granted), PatientWriters(w.kinds, w.timedOut);
      var k :| 0 <= k < |grants| && grants[k] == w.granted[i];
      assert line[k] == w.granted[i];
    }
  }

  /** No request is lost and none is granted twice: in every run, each is granted, waits or gave up, and
      only one of the three. */
  lemma EveryRequestHasOneFate(events: seq<Event>, id: nat)
    requires id < |Run(Initial, events).kinds|
    ensures var w := Run(Initial, events);
            var waits := id in w.waitingReaders || id in w.waitingWriters;
            && Distinct(w.granted)
            && (id in w.granted <==> !waits && id !in w.timedOut)
            && !(waits && id in w.timedOut)
  {
    EveryRunIsSafe(events);
    var w := Run(Initial, events);
    if w.kinds[id] == Read {
      ReaderHasOneFate(w, id);
    } else {
      WriterHasOneFate(w, id);
    }
  }

  lemma ReaderHasOneFate(w: World, id: nat)
    requires Inv(w) && id < |w.kinds| && w.kinds[id] == Read
    ensures (id in w.granted <==> id !in w.waitingReaders) && id !in w.waitingWriters && id !in w.timedOut
  {
    if id in w.waitingWriters {
      var i :| 0 <= i < |w.waitingWriters| && w.waitingWriters[i] == id;
      WaitingWriterNotGranted(w, i);
    }
  }

  lemma WriterHasOneFate(w: World, id: nat)
    requires Inv(w) && id < |w.kinds| && w.kinds[id] == Write
    ensures id in w.granted <==> id !in w.waitingWriters && id !in w.timedOut
    ensures id !in w.waitingReaders && !(id in w.waitingWriters && id in w.timedOut)
  {
    if id in w.waitingWriters {
      var i :| 0 <= i < |w.waitingWriters| && w.waitingWriters[i] == id;
      WaitingWriterNotGranted(w, i);
    } else if id in w.timedOut {
      if id in w.granted {
        var k :| 0 <= k < |w.granted| && w.granted[k] == id;
        GrantedDidNotTimeOut(w, k);
      }
    } else {
      PatientWriterIsInLine(w.kinds, w.timedOut, id);
      LineComesFromGrants(w.kinds, w.granted, id);
    }
  }

  /** A writer that timed out is never granted, neither before nor after. */
  lemma TimedOutIsNeverGranted(w: World, events: seq<Event>, id: nat)
    requires Inv(w) && id in w.timedOut
    ensures id !in Run(w, events).granted
  {
    RunKeepsInv(w, events);
    TimeoutsStay(w, events, id);
    var w' := Run(w, events);
    forall i: nat | i < |w'.granted| ensures w'.granted[i] != id {
      GrantedDidNotTimeOut(w', i);
    }
  }

  lemma {:induction false} GrantReadsTimeouts(w: World, ids: seq<nat>)
    ensures GrantReads(w, ids).timedOut == w.timedOut
    ensures GrantReads(w, ids).granted == w.granted + ids
    decreases |ids|
  {
    if ids != [] {
      GrantReadsTimeouts(w, ids[..|ids| - 1]);
      assert ids == ids[..|ids| - 1] + [ids[|ids| - 1]];
    }
  }

  lemma {:induction false} TimeoutsStay(w: World, events: seq<Event>, id: nat)
    requires id in w.timedOut
    ensures id in Run(w, events).timedOut
    decreases |events|
  {
    if events != [] {
      StepKeepsTimeouts(w, events[0]);
      TimeoutsStay(Step(w, events[0]), events[1..], id);
    }
  }

  lemma DrainKeepsTimeouts(w: World)
    ensures Drain(w).timedOut == w.timedOut
  {
    GrantReadsTimeouts(w.(waitingReaders := []), w.waitingReaders);
  }

  lemma StepKeepsTimeouts(w: World, e: Event)
    ensures w.timedOut <= Step(w, e).timedOut
  {
    match e
    case Release(id) =>
      DrainKeepsTimeouts(w.(readers := w.readers - 1, liveReads := w.liveReads - {id}));
      DrainKeepsTimeouts(w.(writing := false, liveWrites := w.liveWrites - {id}));
    case TimerFires(id) =>
      var i := IndexOf(w.waitingWriters, id);
      if i >= 0 { DrainKeepsTimeouts(GiveUp(w, i)); }
    case _ =>
  }

  // ----- no reader overtakes a writer that waited before it -----

  ghost predicate Precedes(log: seq<nat>, a: nat, b: nat) {
    exists i, j :: 0 <= i < j < |log| && log[i] == a && log[j] == b
  }

  /** Where a reader may stand relative to a writer that was waiting when it arrived. */
  ghost predicate Behind(w: World, writer: nat, reader: nat) {
    || (reader in w.waitingReaders && reader !in w.granted)
    || writer in w.timedOut
    || Precedes(w.granted, writer, reader)
  }

  lemma {:induction false} PatientWriterIsInLine(kinds: seq<Kind>, timedOut: set<nat>, id: nat)
    requires id < |kinds| && kinds[id] == Write && id !in timedOut
    ensures id in PatientWriters(kinds, timedOut)
    decreases |kinds|
  {
    if id < |kinds| - 1 {
      PatientWriterIsInLine(kinds[..|kinds| - 1], timedOut, id);
    }
  }

  lemma {:induction false} LineComesFromGrants(kinds: seq<Kind>, granted: seq<nat>, id: nat)
    requires id in WriterGrants(kinds, granted)
    ensures id in granted
    decreases |granted|
  {
    var last := granted[|granted| - 1];
    if id != last {
      LineComesFromGrants(kinds, granted[..|granted| - 1], id);
    }
  }

  /** When readers are let in, every writer that did not give up has been granted already. */
  lemma DrainKeepsBehind(w: World, writer: nat, reader: nat)
    requires Accounted(w) && InArrivalOrder(w) && Behind(w, writer, reader)
    requires writer < |w.kinds| && w.kinds[writer] == Write && reader < |w.kinds| && w.kinds[reader] == Read
    ensures Behind(Drain(w), writer, reader)
  {
    var w' := Drain(w);
    GrantReadsTimeouts(w.(waitingReaders := []), w.waitingReaders);
    if writer in w.timedOut || w.writing {
    } else if Precedes(w.granted, writer, reader) {
      assert w.granted <= w'.granted;
      var i, j :| 0 <= i < j < |w.granted| && w.granted[i] == writer && w.granted[j] == reader;
      assert w'.granted[i] == writer && w'.granted[j] == reader;
    } else if w.waitingWriters != [] {
      FrontWriterIsKnown(w);
      assert w'.granted == w.granted || w'.granted == w.granted + [w.waitingWriters[0]];
    } else {
      PatientWriterIsInLine(w.kinds, w.timedOut, writer);
      LineComesFromGrants(w.kinds, w.granted, writer);
      var i :| 0 <= i < |w.granted| && w.granted[i] == writer;
      var j :| 0 <= j < |w.waitingReaders| && w.waitingReaders[j] == reader;
      assert w'.granted[i] == writer && w'.granted[|w.granted| + j] == reader;
    }
  }

  lemma ArrivalKeepsBehind(w: World, e: Event, writer: nat, reader: nat)
    requires Behind(w, writer, reader) && reader < |w.kinds| && (e.AcquireRead? || e.AcquireWrite?)
    ensures Behind(Step(w, e), writer, reader)
  {
    var w' := Step(w, e);
    assert w'.granted == w.granted || w'.granted == w.granted + [|w.kinds|];
    if Precedes(w.granted, writer, reader) {
      var i, j :| 0 <= i < j < |w.granted| && w.granted[i] == writer && w.granted[j] == reader;
      assert w'.granted[i] == writer && w'.granted[j] == reader;
    }
  }

  lemma StepKeepsBehind(w: World, e: Event, writer: nat, reader: nat)
    requires Inv(w) && Behind(w, writer, reader)
    requires writer < |w.kinds| && w.kinds[writer] == Write && reader < |w.kinds| && w.kinds[reader] == Read
    ensures Behind(Step(w, e), writer, reader)
  {
    match e
    case Release(id) =>
      if id in w.liveReads {
        DrainKeepsBehind(w.(readers := w.readers - 1, liveReads := w.liveReads - {id}), writer, reader);
      } else if id in w.liveWrites {
        DrainKeepsBehind(w.(writing := false, liveWrites := w.liveWrites - {id}), writer, reader);
      }
    case TimerFires(id) =>
      var i := IndexOf(w.waitingWriters, id);
      if i >= 0 {
        TimerKeepsOrder(w, i);
        DrainKeepsBehind(GiveUp(w, i), writer, reader);
      }
    case _ => ArrivalKeepsBehind(w, e, writer, reader);
  }

  lemma StepKeepsKinds(w: World, e: Event)
    ensures w.kinds <= Step(w, e).kinds
  {
    GrantReadsKinds(w.(waitingReaders := []), w.waitingReaders);
    match e
    case Release(id) =>
      DrainKeepsKinds(w.(readers := w.readers - 1, liveReads := w.liveReads - {id}));
      DrainKeepsKinds(w.(writing := false, liveWrites := w.liveWrites - {id}));
    case TimerFires(id) =>
      var i := IndexOf(w.waitingWriters, id);
      if i >= 0 { DrainKeepsKinds(GiveUp(w, i)); }
    case _ =>
  }

  lemma {:induction false} GrantReadsKinds(w: World, ids: seq<nat>)
    ensures GrantReads(w, ids).kinds == w.kinds
    decreases |ids|
  {
    if ids != [] { GrantReadsKinds(w, ids[..|ids| - 1]); }
  }

  lemma DrainKeepsKinds(w: World)
    ensures Drain(w).kinds == w.kinds
  {
    GrantReadsKinds(w.(waitingReaders := []), w.waitingReaders);
  }

  lemma {:induction false} RunKeepsBehind(w: World, events: seq<Event>, writer: nat, reader: nat)
    requires Inv(w) && Behind(w, writer, reader)
    requires writer < |w.kinds| && w.kinds[writer] == Write && reader < |w.kinds| && w.kinds[reader] == Read
    ensures Behind(Run(w, events), writer, reader)
    decreases |events|
  {
    if events != [] {
      StepKeepsInv(w, events[0]);
      StepKeepsKinds(w, events[0]);
      StepKeepsBehind(w, events[0], writer, reader);
      RunKeepsBehind(Step(w, events[0]), events[1..], writer, reader);
    }
  }

  /** Whatever happens after a reader arrives behind a waiting writer, the reader is granted only
      after that writer, unless the writer gave up. */
  lemma ReaderNeverOvertakesWriter(w: World, writer: nat, events: seq<Event>)
    requires Inv(w) && writer in w.waitingWriters
    ensures var w' := Run(Step(w, AcquireRead), events);
            |w.kinds| in w'.granted ==> writer in w'.timedOut || Precedes(w'.granted, writer, |w.kinds|)
  {
    var reader := |w.kinds|;
    var grants := WriterGrants(w.kinds, w.granted);
    PatientWritersAreWriters(w.kinds, w.timedOut);
    var k :| 0 <= k < |w.waitingWriters| && w.waitingWriters[k] == writer;
    assert (grants + w.waitingWriters)[|grants| + k] == writer;
    StepKeepsInv(w, AcquireRead);
    assert Behind(Step(w, AcquireRead), writer, reader);
    RunKeepsBehind(Step(w, AcquireRead), events, writer, reader);
    ReaderStillBehind(Run(Step(w, AcquireRead), events), writer, reader);
  }

  lemma ReaderStillBehind(w: World, writer: nat, reader: nat)
    requires Behind(w, writer, reader)
    ensures reader in w.granted ==> writer in w.timedOut || Precedes(w.granted, writer, reader)
  {
  }

  // ----- progress -----

  function Waiters(w: World): nat { |w.waitingReaders| + |w.waitingWriters| }

  function Holders(w: World): nat { |w.liveReads| + |w.liveWrites| }

  lemma DrainKeepsSum(w: World)
    requires Counted(w) && Accounted(w) && InArrivalOrder(w)
    ensures Waiters(Drain(w)) + Holders(Drain(w)) == Waiters(w) + Holders(w)
    ensures Waiters(Drain(w)) <= Waiters(w)
  {
    if !w.writing && w.waitingWriters != [] && w.readers <= 0 {
      assert w.liveWrites == {};
      assert |{w.waitingWriters[0]}| == 1;
    } else if !w.writing && w.waitingWriters == [] {
      GrantReadsEffect(w.(waitingReaders := []), w.waitingReaders);
    }
  }

  /** With nobody new arriving, a release that takes effect always brings the end closer: fewer
      waiters, or as many waiters and fewer holders. */
  lemma ReleaseMakesProgress(w: World, id: nat)
    requires Inv(w) && id in w.liveReads + w.liveWrites
    ensures var w' := Step(w, Release(id));
            && Waiters(w') + Holders(w') == Waiters(w) + Holders(w) - 1
            && (Waiters(w') < Waiters(w) || (Waiters(w') == Waiters(w) && Holders(w') < Holders(w)))
  {
    var w1 := if id in w.liveReads then w.(readers := w.readers - 1, liveReads := w.liveReads - {id})
              else w.(writing := false, liveWrites := w.liveWrites - {id});
    assert id in w.liveReads ==> |w.liveReads - {id}| == |w.liveReads| - 1;
    assert id in w.liveWrites ==> |w.liveWrites - {id}| == |w.liveWrites| - 1;
    assert Counted(w1) && Accounted(w1) && InArrivalOrder(w1);
    DrainKeepsSum(w1);
  }

  /** So does a timeout that takes effect: fewer waiters, whoever it lets in. */
  lemma TimeoutMakesProgress(w: World, id: nat)
    requires Inv(w) && id in w.waitingWriters
    ensures var w' := Step(w, TimerFires(id));
            Waiters(w') + Holders(w') == Waiters(w) + Holders(w) - 1 && Waiters(w') < Waiters(w)
  {
    var i := IndexOf(w.waitingWriters, id);
    TimerKeepsOrder(w, i);
    DrainKeepsSum(GiveUp(w, i));
  }

  predicate TakesEffect(w: World, e: Event) {
    || (e.Release? && e.id in w.liveReads + w.liveWrites)
    || (e.TimerFires? && e.writer in w.waitingWriters)
  }

  /** A sequence of releases and timeouts each of which takes effect. */
  ghost predicate Effective(w: World, events: seq<Event>)
    decreases |events|
  {
    events != [] ==> TakesEffect(w, events[0]) && Effective(Step(w, events[0]), events[1..])
  }

  /** However the holders take turns releasing and whoever gives up, after as many such steps as there
      were waiters and holders nobody waits or holds any more, and no longer sequence exists. */
  lemma {:induction false} EveryWaiterIsServed(w: World, events: seq<Event>)
    requires Inv(w) && Effective(w, events)
    ensures |events| + Waiters(Run(w, events)) + Holders(Run(w, events)) == Waiters(w) + Holders(w)
    ensures Holders(Run(w, events)) == 0 ==> Waiters(Run(w, events)) == 0
    decreases |events|
  {
    if events == [] {
      assert Holders(w) == 0 ==> w.liveReads == {} && w.liveWrites == {};
    } else {
      match events[0] {
        case Release(id) => ReleaseMakesProgress(w, id);
        case TimerFires(id) => TimeoutMakesProgress(w, id);
      }
      StepKeepsInv(w, events[0]);
      EveryWaiterIsServed(Step(w, events[0]), events[1..]);
    }
  }

  ghost predicate ReleasesOnly(events: seq<Event>) {
    forall i :: 0 <= i < |events| ==> events[i].Release?
  }

  lemma ReleaseFirst(w: World, id: nat, rest: seq<Event>)
    requires id in w.liveReads + w.liveWrites
    requires Effective(Step(w, Release(id)), rest) && ReleasesOnly(rest)
    ensures Effective(w, [Release(id)] + rest) && ReleasesOnly([Release(id)] + rest)
    ensures Run(w, [Release(id)] + rest) == Run(Step(w, Release(id)), rest)
  {
    assert ([Release(id)] + rest)[1..] == rest;
  }

  /** From any reachable state some sequence of releases alone gets there. */
  lemma {:induction false} LockCanBeEmptied(w: World) returns (events: seq<Event>)
    requires Inv(w)
    ensures Effective(w, events) && ReleasesOnly(events)
    ensures Holders(Run(w, events)) == 0 && Waiters(Run(w, events)) == 0
    decreases Waiters(w) + Holders(w)
  {
    var live := w.liveReads + w.liveWrites;
    if live == {} {
      events := [];
      assert w.liveReads == {} && w.liveWrites == {};
    } else {
      var id := Member(live);
      ReleaseMakesProgress(w, id);
      StepKeepsInv(w, Release(id));
      var rest := LockCanBeEmptied(Step(w, Release(id)));
      ReleaseFirst(w, id, rest);
      events := [Release(id)] + rest;
    }
  }

  // ----- the lock object -----

  /** The lock itself. A request gets a number; its promise is resolved when the number enters
      `granted`. A grant's `released` flag is the absence of its number from the live sets. */
  class Lock {
    var readers: int
    var writing: bool
    var waitingReaders: seq<nat>
    var waitingWriters: seq<nat>
    var liveReads: set<nat>
    var liveWrites: set<nat>
    var next: nat
    ghost var kinds: seq<Kind>
    ghost var granted: seq<nat>
    ghost var timedOut: set<nat>

    ghost function State(): World reads this {
      World(readers, writing, waitingReaders, waitingWriters, liveReads, liveWrites, kinds, granted, timedOut)
    }

    ghost predicate Valid() reads this { next == |kinds| && Inv(State()) }

    constructor ()
      ensures Valid() && State() == Initial
    {
      readers, writing, waitingReaders, waitingWriters := 0, false, [], [];
      liveReads, liveWrites, next := {}, {}, 0;
      kinds, granted, timedOut := [], [], {};
    }

    method GrantReadTo(id: nat)
      modifies this
      ensures State() == GrantRead(old(State()), id) && next == old(next)
    {
      readers := readers + 1;
      liveReads := liveReads + {id};
      granted := granted + [id];
    }

    method GrantWriteTo(id: nat)
      modifies this
      ensures State() == GrantWrite(old(State()), id) && next == old(next)
    {
      writing := true;
      liveWrites := liveWrites + {id};
      granted := granted + [id];
    }

    method AcquireRead() returns (id: nat, immediately: bool)
      requires Valid()
      modifies this
      ensures Valid() && State() == Step(old(State()), Event.AcquireRead) && id == old(next)
      ensures immediately <==> id in liveReads
      ensures !immediately ==> id in waitingReaders && liveReads + liveWrites != {}
    {
      ghost var before := State();
      id := next;
      next := next + 1;
      kinds := kinds + [Read];
      immediately := !writing && waitingWriters == [];
      if immediately {
        GrantReadTo(id);
      } else {
        waitingReaders := waitingReaders + [id];
      }
      assert State() == Step(before, Event.AcquireRead);
      StepKeepsInv(before, Event.AcquireRead);
      ReadArrival(before);
    }

    method AcquireWrite() returns (id: nat, immediately: bool)
      requires Valid()
      modifies this
      ensures Valid() && State() == Step(old(State()), Event.AcquireWrite) && id == old(next)
      ensures immediately <==> id in liveWrites
      ensures !immediately ==> id in waitingWriters && liveReads + liveWrites != {}
    {
      ghost var before := State();
      id := next;
      next := next + 1;
      kinds := kinds + [Write];
      immediately := !writing && readers == 0 && waitingWriters == [];
      if immediately {
        GrantWriteTo(id);
      } else {
        waitingWriters := waitingWriters + [id];
      }
      assert State() == Step(before, Event.AcquireWrite);
      StepKeepsInv(before, Event.AcquireWrite);
      WriteArrival(before);
    }

    method DrainQueues()
      modifies this
      ensures State() == Drain(old(State())) && next == old(next) && kinds == old(kinds)
    {
      DrainKeepsKinds(State());
      if writing {
        return;
      }
      if |waitingWriters| > 0 {
        if readers > 0 {
          return;
        }
        var writer := waitingWriters[0];
        waitingWriters := waitingWriters[1..];
        GrantWriteTo(writer);
        return;
      }
      var queue := waitingReaders;
      waitingReaders := [];
      ghost var start := State();
      for i := 0 to |queue|
        invariant State() == GrantReads(start, queue[..i]) && next == old(next)
      {
        GrantReadTo(queue[i]);
        assert queue[..i + 1][..i] == queue[..i];
      }
      assert queue[..|queue|] == queue;
    }

    /** The release of a read grant; only its first run has an effect. */
    method ReleaseRead(id: nat)
      requires Valid() && id !in liveWrites
      modifies this
      ensures Valid() && State() == Step(old(State()), Release(id))
      ensures id !in old(liveReads) ==> State() == old(State())
    {
      ghost var before := State();
      StepKeepsInv(before, Release(id));
      if id !in liveReads {
        return;
      }
      liveReads := liveReads - {id};
      readers := readers - 1;
      DrainQueues();
    }

    /** The release of a write grant; only its first run has an effect. */
    method ReleaseWrite(id: nat)
      requires Valid() && id !in liveReads
      modifies this
      ensures Valid() && State() == Step(old(State()), Release(id))
      ensures id !in old(liveWrites) ==> State() == old(State())
    {
      ghost var before := State();
      StepKeepsInv(before, Release(id));
      if id !in liveWrites {
        return;
      }
      liveWrites := liveWrites - {id};
      writing := false;
      DrainQueues();
    }

    /** A writer's timer; it does nothing once the writer has left the queue. */
    method TimerFires(id: nat) returns (rejected: bool)
      requires Valid()
      modifies this
      ensures Valid() && State() == Step(old(State()), Event.TimerFires(id))
      ensures rejected <==> id in old(waitingWriters)
    {
      ghost var before := State();
      StepKeepsInv(before, Event.TimerFires(id));
      var index := IndexOf(waitingWriters, id);
      if index == -1 {
        return false;
      }
      waitingWriters := waitingWriters[..index] + waitingWriters[index + 1..];
      timedOut := timedOut + {id};
      assert State() == GiveUp(before, index);
      DrainQueues();
      rejected := true;
    }
  }
}
