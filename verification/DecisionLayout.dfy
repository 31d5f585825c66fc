/** How generated decisions are shared out among generated alerts: one rule lists an alert's decisions,
    another finds a decision's alert. Layouts are integers. */
module DecisionLayout {
  import opened Numbers
  import opened Wrappers

  datatype Layout = Layout(alertCount: int, decisionCount: int, blocklistDecisionCounts: seq<int>,
      emptyAlertCount: Option<int>)

  datatype Resolved = Resolved(
    alertCount: nat, decisionCount: nat, blocks: seq<int>, blocklistTotal: int, emptyAlertCount: int,
    regularAlertStart: int, regularAlertEnd: int, regularAlertCount: int)

  /** The sum of the first `n` counts. */
  function Prefix(counts: seq<int>, n: nat): int
    requires n <= |counts|
  {
    if n == 0 then 0 else Prefix(counts, n - 1) + counts[n - 1]
  }

  function Total(counts: seq<int>): int { Prefix(counts, |counts|) }

  /** The positive counts, cut off where the decisions run out. */
  function Normalize(remaining: int, requested: seq<int>): seq<int> {
    if requested == [] || remaining <= 0 then []
    else
      var count := Min(remaining, Max(0, requested[0]));
      if count <= 0 then Normalize(remaining, requested[1..])
      else [count] + Normalize(remaining - count, requested[1..])
  }

  function NormalizeCounts(alertCount: int, decisionCount: int, requested: seq<int>): seq<int> {
    if alertCount <= 0 || decisionCount <= 0 then []
    else Normalize(decisionCount, requested[..Min(alertCount, |requested|)])
  }

  function Resolve(layout: Layout): Resolved {
    var alertCount := Max(0, layout.alertCount);
    var decisionCount := Max(0, layout.decisionCount);
    var counts := NormalizeCounts(alertCount, decisionCount, layout.blocklistDecisionCounts);
    var remaining := Max(0, decisionCount - Total(counts));
    var capacity := Max(0, alertCount - |counts|);
    var requestedEmpty := Max(0, if layout.emptyAlertCount.None? then 0 else layout.emptyAlertCount.value);
    var empty := Min(requestedEmpty, Max(0, capacity - (if remaining > 0 then 1 else 0)));
    var start := |counts| + 1;
    var end := alertCount - empty;
    var regular := Max(0, end - start + 1);
    var blocks := if remaining > 0 && regular == 0 && |counts| > 0
      then counts[|counts| - 1 := counts[|counts| - 1] + remaining] else counts;
    Resolved(alertCount, decisionCount, blocks, Total(blocks), empty, start, end, regular)
  }

  function Progression(first: int, last: int, step: int): seq<int>
    requires step > 0
    decreases last - first
  {
    if first > last then [] else [first] + Progression(first + step, last, step)
  }

  /** The ids listed for an alert. */
  function Listed(r: Resolved, alertId: int): seq<int> {
    if alertId < 1 || alertId > r.alertCount || r.decisionCount <= 0 then []
    else if alertId <= |r.blocks| then
      var start := Prefix(r.blocks, alertId - 1) + 1;
      Progression(start, start + r.blocks[alertId - 1] - 1, 1)
    else if alertId < r.regularAlertStart || alertId > r.regularAlertEnd || r.regularAlertCount <= 0 then []
    else Progression(r.blocklistTotal + 1 + alertId - r.regularAlertStart, r.decisionCount, r.regularAlertCount)
  }

  /** The first block, from `index` on, that reaches the decision. */
  function FindBlock(blocks: seq<int>, decisionId: int, index: nat): Option<int>
    requires index <= |blocks|
    decreases |blocks| - index
  {
    if index == |blocks| then None
    else if decisionId <= Prefix(blocks, index + 1) then Some(index + 1)
    else FindBlock(blocks, decisionId, index + 1)
  }

  function Owner(r: Resolved, decisionId: int): Option<int> {
    if decisionId < 1 || decisionId > r.decisionCount || r.alertCount <= 0 then None
    else if FindBlock(r.blocks, decisionId, 0).Some? then FindBlock(r.blocks, decisionId, 0)
    else if r.regularAlertCount <= 0 then (if |r.blocks| > 0 then Some(|r.blocks|) else None)
    else Some(r.regularAlertStart + (decisionId - r.blocklistTotal - 1) % r.regularAlertCount)
  }

  // ---- The loops ----

  lemma {:induction false} PrefixOfUpdate(counts: seq<int>, extra: int, n: nat)
    requires n < |counts|
    ensures Prefix(counts[|counts| - 1 := extra], n) == Prefix(counts, n)
    decreases n
  {
    if n > 0 {
      PrefixOfUpdate(counts, extra, n - 1);
    }
  }

  lemma {:induction false} PrefixStep(counts: seq<int>, more: seq<int>, n: nat)
    requires n <= |counts|
    ensures Prefix(counts + more, n) == Prefix(counts, n)
    decreases n
  {
    if n > 0 {
      PrefixStep(counts, more, n - 1);
    }
  }

  method NormalizeLoadTestBlocklistDecisionCounts(alertCount: int, decisionCount: int, requestedCounts: seq<int>)
    returns (result: seq<int>)
    ensures result == NormalizeCounts(alertCount, decisionCount, requestedCounts)
  {
    if alertCount <= 0 || decisionCount <= 0 {
      return [];
    }
    var requested := requestedCounts[..Min(alertCount, |requestedCounts|)];
    var remaining := decisionCount;
    var i := 0;
    result := [];
    while i < |requested|
      invariant 0 <= i <= |requested|
      invariant result + Normalize(remaining, requested[i..]) == Normalize(decisionCount, requested)
    {
      if remaining <= 0 {
        break;
      }
      var count := Min(remaining, Max(0, requested[i]));
      assert requested[i..][0] == requested[i] && requested[i..][1..] == requested[i + 1..];
      i := i + 1;
      if count <= 0 {
        continue;
      }
      result := result + [count];
      remaining := remaining - count;
    }
  }

  method Sum(counts: seq<int>) returns (total: int)
    ensures total == Total(counts)
  {
    total := 0;
    for i := 0 to |counts|
      invariant total == Prefix(counts, i)
    {
      total := total + counts[i];
    }
  }

  method ResolveDecisionLayout(layout: Layout) returns (r: Resolved)
    ensures r == Resolve(layout)
  {
    var alertCount := Max(0, layout.alertCount);
    var decisionCount := Max(0, layout.decisionCount);
    var blocks := NormalizeLoadTestBlocklistDecisionCounts(alertCount, decisionCount, layout.blocklistDecisionCounts);
    var total := Sum(blocks);
    var remaining := Max(0, decisionCount - total);
    var capacity := Max(0, alertCount - |blocks|);
    var requestedEmpty := Max(0, if layout.emptyAlertCount.None? then 0 else layout.emptyAlertCount.value);
    var empty := Min(requestedEmpty, Max(0, capacity - (if remaining > 0 then 1 else 0)));
    var start, end := |blocks| + 1, alertCount - empty;
    var regular := Max(0, end - start + 1);
    if remaining > 0 && regular == 0 && |blocks| > 0 {
      PrefixOfUpdate(blocks, blocks[|blocks| - 1] + remaining, |blocks| - 1);
      blocks := blocks[|blocks| - 1 := blocks[|blocks| - 1] + remaining];
      total := total + remaining;
    }
    r := Resolved(alertCount, decisionCount, blocks, total, empty, start, end, regular);
  }

  method Walk(first: int, last: int, step: int) returns (ids: seq<int>)
    requires step > 0
    ensures ids == Progression(first, last, step)
  {
    var decisionId := first;
    ids := [];
    while decisionId <= last
      invariant ids + Progression(decisionId, last, step) == Progression(first, last, step)
    {
      ids := ids + [decisionId];
      decisionId := decisionId + step;
    }
  }

  method GetLoadTestDecisionIdsForAlertLayout(alertId: int, layout: Layout) returns (ids: seq<int>)
    ensures ids == Listed(Resolve(layout), alertId)
  {
    ids := [];
    var r := ResolveDecisionLayout(layout);
    if alertId < 1 || alertId > r.alertCount || r.decisionCount <= 0 {
      return;
    }
    if alertId <= |r.blocks| {
      var before := Sum(r.blocks[..alertId - 1]);
      assert r.blocks == r.blocks[..alertId - 1] + r.blocks[alertId - 1..];
      PrefixStep(r.blocks[..alertId - 1], r.blocks[alertId - 1..], alertId - 1);
      ids := Walk(before + 1, before + 1 + r.blocks[alertId - 1] - 1, 1);
      return;
    }
    if alertId < r.regularAlertStart || alertId > r.regularAlertEnd || r.regularAlertCount <= 0 {
      return;
    }
    ids := Walk(r.blocklistTotal + 1 + alertId - r.regularAlertStart, r.decisionCount, r.regularAlertCount);
  }

  method GetLoadTestSourceAlertIdForDecisionLayout(decisionId: int, layout: Layout) returns (alertId: Option<int>)
    ensures alertId == Owner(Resolve(layout), decisionId)
  {
    var r := ResolveDecisionLayout(layout);
    if decisionId < 1 || decisionId > r.decisionCount || r.alertCount <= 0 {
      return None;
    }
    var blocklistEnd := 0;
    for index := 0 to |r.blocks|
      invariant blocklistEnd == Prefix(r.blocks, index)
      invariant FindBlock(r.blocks, decisionId, 0) == FindBlock(r.blocks, decisionId, index)
    {
      blocklistEnd := blocklistEnd + r.blocks[index];
      if decisionId <= blocklistEnd {
        return Some(index + 1);
      }
    }
    if r.regularAlertCount <= 0 {
      return if |r.blocks| > 0 then Some(|r.blocks|) else None;
    }
    return Some(r.regularAlertStart + (decisionId - r.blocklistTotal - 1) % r.regularAlertCount);
  }

  // ---- What a resolved layout looks like ----

  ghost predicate Consistent(r: Resolved) {
    && (forall i :: 0 <= i < |r.blocks| ==> r.blocks[i] > 0)
    && |r.blocks| <= r.alertCount
    && r.blocklistTotal == Total(r.blocks) <= r.decisionCount
    && 0 <= r.emptyAlertCount <= r.alertCount - |r.blocks|
    && r.regularAlertStart == |r.blocks| + 1
    && r.regularAlertEnd == r.alertCount - r.emptyAlertCount
    && r.regularAlertCount == r.regularAlertEnd - r.regularAlertStart + 1
    && (r.blocklistTotal < r.decisionCount && r.alertCount > 0 ==> r.regularAlertCount > 0)
  }

  lemma {:induction false} PrefixCons(x: int, rest: seq<int>, n: nat)
    requires n <= |rest|
    ensures Prefix([x] + rest, n + 1) == x + Prefix(rest, n)
    decreases n
  {
    if n > 0 {
      PrefixCons(x, rest, n - 1);
    }
  }

  function Positive(counts: seq<int>): int {
    if counts == [] then 0 else Max(0, counts[0]) + Positive(counts[1..])
  }

  /** Normalising hands out what was asked for, up to what there is. */
  lemma {:induction false} NormalizeGives(remaining: int, requested: seq<int>)
    requires remaining >= 0
    ensures var r := Normalize(remaining, requested);
            && |r| <= |requested|
            && (forall i :: 0 <= i < |r| ==> r[i] > 0)
            && Total(r) == Min(remaining, Positive(requested))
    decreases |requested|
  {
    PositiveIsNat(requested);
    if requested != [] && remaining > 0 {
      var count := Min(remaining, Max(0, requested[0]));
      NormalizeGives(remaining - count, requested[1..]);
      PositiveIsNat(requested[1..]);
      if count > 0 {
        PrefixCons(count, Normalize(remaining - count, requested[1..]), |Normalize(remaining - count, requested[1..])|);
      }
    }
  }

  lemma {:induction false} PositiveIsNat(counts: seq<int>)
    ensures Positive(counts) >= 0
    decreases |counts|
  {
    if counts != [] {
      PositiveIsNat(counts[1..]);
    }
  }

  lemma ResolveIsConsistent(layout: Layout)
    ensures Consistent(Resolve(layout))
  {
    var r := Resolve(layout);
    var counts := NormalizeCounts(r.alertCount, r.decisionCount, layout.blocklistDecisionCounts);
    if r.alertCount > 0 && r.decisionCount > 0 {
      NormalizeGives(r.decisionCount,
        layout.blocklistDecisionCounts[..Min(r.alertCount, |layout.blocklistDecisionCounts|)]);
    }
    if r.blocks != counts {
      PrefixOfUpdate(counts, r.blocks[|counts| - 1], |counts| - 1);
    }
  }

  function Positives(counts: seq<int>): (r: seq<int>)
    ensures |r| <= |counts|
  {
    if counts == [] then [] else (if counts[0] > 0 then [counts[0]] else []) + Positives(counts[1..])
  }

  ghost predicate HandsOut(counts: seq<int>, asked: seq<int>, remaining: int) {
    && |counts| <= |asked|
    && (forall i :: 0 <= i < |counts| - 1 ==> counts[i] == asked[i])
    && (counts != [] ==> counts[|counts| - 1] <= asked[|counts| - 1])
    && (|counts| < |asked| || (counts != [] && counts[|counts| - 1] < asked[|counts| - 1]) ==>
        Total(counts) == remaining)
  }

  /** The counts are the positive ones in the order asked for, the last cut to what is left; when fewer come
      out, nothing is left. */
  lemma {:induction false} NormalizeFollows(remaining: int, requested: seq<int>)
    requires remaining >= 0
    ensures HandsOut(Normalize(remaining, requested), Positives(requested), remaining)
    decreases |requested|
  {
    if requested == [] || remaining == 0 {
      assert Normalize(remaining, requested) == [] && Total([]) == 0;
    } else {
      var first, more := requested[0], Positives(requested[1..]);
      var count := Min(remaining, Max(0, first));
      NormalizeFollows(remaining - count, requested[1..]);
      if first > 0 {
        HandsOutFirst(first, count, Normalize(remaining - count, requested[1..]), more, remaining);
      } else {
        assert Positives(requested) == [] + more == more;
      }
    }
  }

  lemma HandsOutFirst(asked: int, count: int, rest: seq<int>, more: seq<int>, remaining: int)
    requires HandsOut(rest, more, remaining - count) && count == Min(remaining, asked) && count > 0
    requires count == remaining ==> rest == []
    ensures HandsOut([count] + rest, [asked] + more, remaining)
  {
    PrefixCons(count, rest, |rest|);
  }

  /** Empty alerts are granted as asked, as far as there are alerts besides the blocks and, when decisions
      are left over, one for them. */
  lemma EmptyAlertsGranted(layout: Layout)
    ensures var r := Resolve(layout);
            var asked := if layout.emptyAlertCount.Some? && layout.emptyAlertCount.value > 0
              then layout.emptyAlertCount.value else 0;
            var counts := NormalizeCounts(r.alertCount, r.decisionCount, layout.blocklistDecisionCounts);
            var needed := |counts| + (if Total(counts) < r.decisionCount then 1 else 0);
            && r.alertCount == (if layout.alertCount > 0 then layout.alertCount else 0)
            && r.decisionCount == (if layout.decisionCount > 0 then layout.decisionCount else 0)
            && |r.blocks| == |counts|
            && (asked + needed <= r.alertCount ==> r.emptyAlertCount == asked)
            && (asked + needed > r.alertCount ==>
                r.emptyAlertCount == (if needed < r.alertCount then r.alertCount - needed else 0))
            && (r.blocks != counts ==> r.regularAlertCount == 0)
            && (forall i :: 0 <= i < |counts| - 1 ==> r.blocks[i] == counts[i])
  {
  }

  // ---- Listing and looking up ----

  lemma {:induction false} ProgressionHolds(first: int, last: int, step: int, d: int)
    requires step > 0
    ensures d in Progression(first, last, step) <==> first <= d <= last && (d - first) % step == 0
    decreases last - first
  {
    if first <= last {
      ProgressionHolds(first + step, last, step, d);
      Residue(d - first, step);
      assert d - (first + step) == d - first - step;
      assert d in Progression(first, last, step) <==> d == first || d in Progression(first + step, last, step);
    }
  }

  /** A number has one quotient and one remainder. */
  lemma Divided(x: int, step: int, q: int, rest: int)
    requires step > 0 && 0 <= rest < step && x == q * step + rest
    ensures x % step == rest
  {
    var p := x / step;
    assert x == p * step + x % step;
    assert (q - p) * step == x % step - rest;
    Multiples(q - p, step);
  }

  lemma Multiples(k: int, step: int)
    requires step > 0
    ensures k >= 1 ==> k * step >= step
    ensures k <= -1 ==> k * step <= -step
  {
    if k >= 1 {
      assert k * step == (k - 1) * step + step;
    } else if k <= -1 {
      assert k * step == (k + 1) * step - step;
    }
  }

  lemma Residue(x: int, step: int)
    requires step > 0
    ensures (x - step) % step == x % step
    ensures 0 < x < step ==> x % step != 0
    ensures x == 0 ==> x % step == 0
  {
    var q := x / step;
    assert x - step == (q - 1) * step + x % step by {
      assert x == q * step + x % step;
      assert (q - 1) * step == q * step - step;
    }
    Divided(x - step, step, q - 1, x % step);
    if 0 <= x < step {
      Divided(x, step, 0, x);
    }
  }

  lemma {:induction false} ProgressionAscends(first: int, last: int, step: int)
    requires step > 0
    ensures forall i :: 0 <= i < |Progression(first, last, step)| ==> first <= Progression(first, last, step)[i]
    ensures forall i, j :: 0 <= i < j < |Progression(first, last, step)| ==>
              Progression(first, last, step)[i] < Progression(first, last, step)[j]
    decreases last - first
  {
    var p := Progression(first, last, step);
    if first <= last {
      var rest := Progression(first + step, last, step);
      ProgressionAscends(first + step, last, step);
      assert p == [first] + rest;
      forall i | 0 < i < |p| ensures p[i] == rest[i - 1] && p[i] > first {
      }
    } else {
      assert p == [];
    }
  }

  /** Progressions of one step that start less than a step apart differ in length by at most one. */
  lemma {:induction false} ProgressionLengths(first: int, last: int, step: int, shift: int)
    requires 0 <= shift <= step && step > 0
    ensures var whole, shifted := |Progression(first, last, step)|, |Progression(first + shift, last, step)|;
            shifted <= whole <= shifted + 1
    decreases last - first
  {
    if first <= last {
      ProgressionLengths(first + step, last, step, shift);
      assert first + step + shift == first + shift + step;
    }
  }

  lemma {:induction false} PrefixGrows(counts: seq<int>, m: nat, n: nat)
    requires m <= n <= |counts| && forall i :: 0 <= i < |counts| ==> counts[i] > 0
    ensures Prefix(counts, m) <= Prefix(counts, n)
    ensures m < n ==> Prefix(counts, m) < Prefix(counts, n)
    decreases n
  {
    if m < n {
      PrefixGrows(counts, m, n - 1);
    }
  }

  /** The block found is the one whose range holds the decision. */
  lemma {:induction false} FindBlockFinds(blocks: seq<int>, d: int, index: nat)
    requires index <= |blocks| && Prefix(blocks, index) < d
    ensures var b := FindBlock(blocks, d, index);
            if d <= Total(blocks) then
              b.Some? && index < b.value <= |blocks| && Prefix(blocks, b.value - 1) < d <= Prefix(blocks, b.value)
            else
              b.Some? ==> index < b.value <= |blocks| && d <= Prefix(blocks, b.value)
    decreases |blocks| - index
  {
    if index < |blocks| && d > Prefix(blocks, index + 1) {
      FindBlockFinds(blocks, d, index + 1);
    }
  }

  lemma OwnerOfBlock(r: Resolved, d: int, a: int)
    requires Consistent(r) && 1 <= a <= |r.blocks| && r.alertCount > 0
    ensures Prefix(r.blocks, a - 1) < d <= Prefix(r.blocks, a) <==> 1 <= d <= r.decisionCount && Owner(r, d) == Some(a)
  {
    PrefixGrows(r.blocks, 0, a - 1);
    PrefixGrows(r.blocks, a, |r.blocks|);
    if 1 <= d <= r.decisionCount {
      FindBlockFinds(r.blocks, d, 0);
      var b := FindBlock(r.blocks, d, 0);
      if b.Some? {
        if b.value < a {
          PrefixGrows(r.blocks, b.value, a - 1);
        } else if a < b.value {
          PrefixGrows(r.blocks, a, b.value - 1);
        }
      }
    }
  }

  lemma OwnerOfRest(r: Resolved, d: int)
    requires Consistent(r) && r.alertCount > 0 && r.blocklistTotal < d <= r.decisionCount
    ensures FindBlock(r.blocks, d, 0).None?
    ensures Owner(r, d) == Some(r.regularAlertStart + (d - r.blocklistTotal - 1) % r.regularAlertCount)
  {
    PrefixGrows(r.blocks, 0, |r.blocks|);
    FindBlockFinds(r.blocks, d, 0);
    var b := FindBlock(r.blocks, d, 0);
    if b.Some? {
      PrefixGrows(r.blocks, b.value, |r.blocks|);
      assert false;
    }
  }

  /** Every decision has an alert, and it is not one of the trailing empty ones. */
  lemma EveryDecisionIsOwned(layout: Layout, d: int)
    requires layout.alertCount >= 1 && 1 <= d <= layout.decisionCount
    ensures var r := Resolve(layout); Owner(r, d).Some? && 1 <= Owner(r, d).value <= r.alertCount - r.emptyAlertCount
  {
    var r := Resolve(layout);
    ResolveIsConsistent(layout);
    if d <= r.blocklistTotal {
      FindBlockFinds(r.blocks, d, 0);
    } else {
      OwnerOfRest(r, d);
    }
  }

  lemma RegularMembership(x: int, k: int, n: int)
    requires 0 <= k < n
    ensures x >= 0 ==> (x % n == k <==> x >= k && (x - k) % n == 0)
  {
    if x >= 0 {
      var q := x / n;
      assert x == q * n + x % n;
      if x % n == k {
        Divided(x - k, n, q, 0);
        QuotientIsNat(x, n);
      }
      if x >= k && (x - k) % n == 0 {
        assert x - k == (x - k) / n * n;
        Divided(x, n, (x - k) / n, k);
      }
    }
  }

  lemma QuotientIsNat(x: int, n: int)
    requires x >= 0 && n > 0
    ensures x >= x % n
  {
    Multiples(x / n, n);
    assert x == x / n * n + x % n;
  }

  lemma ListedIffOwnedRegular(r: Resolved, a: int, d: int)
    requires Consistent(r) && r.alertCount > 0 && r.decisionCount > 0 && r.regularAlertStart <= a <= r.regularAlertEnd
    ensures d in Listed(r, a) <==> Owner(r, d) == Some(a)
  {
    var first := r.blocklistTotal + 1 + a - r.regularAlertStart;
    var n := r.regularAlertCount;
    PrefixGrows(r.blocks, 0, |r.blocks|);
    ProgressionHolds(first, r.decisionCount, n, d);
    if r.blocklistTotal < d <= r.decisionCount {
      OwnerOfRest(r, d);
      RegularMembership(d - r.blocklistTotal - 1, a - r.regularAlertStart, n);
      assert d - r.blocklistTotal - 1 - (a - r.regularAlertStart) == d - first;
    } else if 1 <= d <= r.blocklistTotal {
      FindBlockFinds(r.blocks, d, 0);
    }
  }

  /** Listing and looking up are inverse: an alert lists exactly the decisions that look up to it. */
  lemma ListedIffOwned(layout: Layout, a: int, d: int)
    requires layout.alertCount >= 1
    ensures d in Listed(Resolve(layout), a) <==> Owner(Resolve(layout), d) == Some(a)
  {
    var r := Resolve(layout);
    ResolveIsConsistent(layout);
    if 1 <= d <= r.decisionCount {
      EveryDecisionIsOwned(layout, d);
    }
    if 1 <= a <= |r.blocks| && r.decisionCount > 0 {
      OwnerOfBlock(r, d, a);
      var start := Prefix(r.blocks, a - 1) + 1;
      ProgressionHolds(start, start + r.blocks[a - 1] - 1, 1, d);
    } else if r.regularAlertStart <= a <= r.regularAlertEnd && r.decisionCount > 0 {
      ListedIffOwnedRegular(r, a, d);
    }
  }

  /** The decisions are dealt block after block, and the rest one by one to the regular alerts in turn. */
  lemma ListedExactly(layout: Layout, a: int, d: int)
    ensures var r := Resolve(layout); d in Listed(r, a) <==> DealtTo(r, a, d)
  {
    var r := Resolve(layout);
    ResolveIsConsistent(layout);
    if r.alertCount > 0 && r.decisionCount > 0 {
      if 1 <= a <= |r.blocks| {
        BlockExactly(r, a, d);
      } else if r.regularAlertStart <= a <= r.regularAlertEnd {
        PrefixGrows(r.blocks, 0, |r.blocks|);
        RegularExactly(r, a, d);
      }
    }
  }

  predicate DealtTo(r: Resolved, a: int, d: int) {
    && r.alertCount > 0 && 1 <= d <= r.decisionCount
    && if 1 <= a <= |r.blocks| then Prefix(r.blocks, a - 1) < d <= Prefix(r.blocks, a)
       else
         && |r.blocks| < a <= r.alertCount - r.emptyAlertCount && d > r.blocklistTotal && r.regularAlertCount > 0
         && (d - r.blocklistTotal - 1) % r.regularAlertCount == a - |r.blocks| - 1
  }

  lemma BlockExactly(r: Resolved, a: int, d: int)
    requires Consistent(r) && r.alertCount > 0 && r.decisionCount > 0 && 1 <= a <= |r.blocks|
    ensures d in Listed(r, a) <==> 1 <= d <= r.decisionCount && Prefix(r.blocks, a - 1) < d <= Prefix(r.blocks, a)
  {
    var start := Prefix(r.blocks, a - 1) + 1;
    PrefixGrows(r.blocks, 0, a - 1);
    PrefixGrows(r.blocks, a, |r.blocks|);
    ProgressionHolds(start, start + r.blocks[a - 1] - 1, 1, d);
  }

  lemma RegularExactly(r: Resolved, a: int, d: int)
    requires Consistent(r) && r.alertCount > 0 && r.decisionCount > 0 && r.regularAlertStart <= a <= r.regularAlertEnd
    ensures d in Listed(r, a) <==>
              r.blocklistTotal < d <= r.decisionCount
              && (d - r.blocklistTotal - 1) % r.regularAlertCount == a - r.regularAlertStart
  {
    var first, n := r.blocklistTotal + 1 + a - r.regularAlertStart, r.regularAlertCount;
    ProgressionHolds(first, r.decisionCount, n, d);
    if r.blocklistTotal < d <= r.decisionCount {
      RegularMembership(d - r.blocklistTotal - 1, a - r.regularAlertStart, n);
      assert d - r.blocklistTotal - 1 - (a - r.regularAlertStart) == d - first;
    }
  }

  /** No alert lists a decision twice. */
  lemma ListedAscends(layout: Layout, a: int)
    ensures var ids := Listed(Resolve(layout), a); forall i, j :: 0 <= i < j < |ids| ==> ids[i] < ids[j]
  {
    var r := Resolve(layout);
    ResolveIsConsistent(layout);
    if 1 <= a <= |r.blocks| && r.decisionCount > 0 {
      var start := Prefix(r.blocks, a - 1) + 1;
      ProgressionAscends(start, start + r.blocks[a - 1] - 1, 1);
    } else if r.regularAlertStart <= a <= r.regularAlertEnd && r.regularAlertCount > 0 {
      ProgressionAscends(r.blocklistTotal + 1 + a - r.regularAlertStart, r.decisionCount, r.regularAlertCount);
    }
  }

  /** The lists of all alerts share out 1 to `decisionCount`: each decision is in one list, and only there. */
  lemma ListsPartition(layout: Layout, d: int)
    requires layout.alertCount >= 1
    ensures 1 <= d <= layout.decisionCount <==>
            exists a :: 1 <= a <= layout.alertCount && d in Listed(Resolve(layout), a)
    ensures forall a, b :: d in Listed(Resolve(layout), a) && d in Listed(Resolve(layout), b) ==> a == b
  {
    var r := Resolve(layout);
    if 1 <= d <= layout.decisionCount {
      EveryDecisionIsOwned(layout, d);
      var a := Owner(r, d).value;
      ResolveIsConsistent(layout);
      ListedIffOwned(layout, a, d);
      assert d in Listed(r, a) && 1 <= a <= layout.alertCount;
    }
    forall a ensures d in Listed(r, a) ==> Owner(r, d) == Some(a) {
      ListedIffOwned(layout, a, d);
    }
  }

  /** The trailing empty alerts list nothing. */
  lemma EmptyAlertsListNothing(layout: Layout, a: int)
    requires Resolve(layout).regularAlertEnd < a
    ensures Listed(Resolve(layout), a) == []
  {
    ResolveIsConsistent(layout);
  }

  lemma {:induction false} UnitProgression(first: int, count: int)
    requires count >= 0
    ensures |Progression(first, first + count - 1, 1)| == count
    decreases count
  {
    if count > 0 {
      UnitProgression(first + 1, count - 1);
    }
  }

  /** A block alert lists as many decisions as its count says. */
  lemma BlockLoad(layout: Layout, a: int)
    requires 1 <= a <= |Resolve(layout).blocks|
    ensures |Listed(Resolve(layout), a)| == Resolve(layout).blocks[a - 1]
  {
    var r := Resolve(layout);
    ResolveIsConsistent(layout);
    PrefixGrows(r.blocks, 0, |r.blocks|);
    UnitProgression(Prefix(r.blocks, a - 1) + 1, r.blocks[a - 1]);
  }

  /** Regular alerts carry equal loads, give or take one decision, the earlier ones the larger. */
  lemma RegularLoadsAreEven(layout: Layout, a: int, b: int)
    requires var r := Resolve(layout); r.regularAlertStart <= a <= b <= r.regularAlertEnd
    ensures var r := Resolve(layout); |Listed(r, b)| <= |Listed(r, a)| <= |Listed(r, b)| + 1
  {
    var r := Resolve(layout);
    ResolveIsConsistent(layout);
    if r.decisionCount > 0 {
      var first := r.blocklistTotal + 1 + a - r.regularAlertStart;
      ProgressionLengths(first, r.decisionCount, r.regularAlertCount, b - a);
      assert first + (b - a) == r.blocklistTotal + 1 + b - r.regularAlertStart;
    }
  }
}
