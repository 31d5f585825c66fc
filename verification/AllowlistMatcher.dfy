/** The matcher of the generated allowlists, and the listing without expired entries. */
module AllowlistMatcher {
  import opened AddressRanges
  import opened Wrappers

  const ZERO_TIME := "0001-01-01T00:00:00.000Z"

  datatype Item = Item(value: string, description: string, expiration: string)

  /** Absent texts of the API read as empty ones, which the code treats alike. */
  datatype Allowlist = Allowlist(name: string, items: seq<Item>)

  /** The date parser; it gives nothing for text that is no date. */
  type Clock = string -> Option<int>

  /** localeCompare of names: at most. */
  type NameOrder = (string, string) -> bool

  ghost predicate TotalPreorder(le: NameOrder) {
    && (forall a, b :: le(a, b) || le(b, a))
    && (forall a, b, c :: le(a, b) && le(b, c) ==> le(a, c))
  }

  /** When an entry ends: never, at a time, or unreadably. */
  datatype Expiry = Never | At(time: int) | Unreadable

  datatype Entry = Entry(range: Range, name: string, expiresAt: Expiry, reason: string)

  function ExpiryOf(dateOf: Clock, item: Item): Expiry {
    if item.expiration == "" || item.expiration == ZERO_TIME then Never
    else
      var time := dateOf(item.expiration);
      if time.None? then Unreadable else At(time.value)
  }

  predicate LiveAt(expiresAt: Expiry, now: int) {
    expiresAt.Never? || (expiresAt.At? && expiresAt.time > now)
  }

  function Reason(list: Allowlist, item: Item): string {
    item.value + " from " + list.name + (if item.description == "" then "" else " (" + item.description + ")")
  }

  function EntryOf(dateOf: Clock, list: Allowlist, item: Item): Option<Entry> {
    var range := if item.value == "" then None else ParseRange(item.value);
    if range.None? then None else Some(Entry(range.value, list.name, ExpiryOf(dateOf, item), Reason(list, item)))
  }

  function EntriesOfList(dateOf: Clock, list: Allowlist, items: seq<Item>): seq<Entry> {
    if items == [] then []
    else
      var entry := EntryOf(dateOf, list, items[0]);
      (if entry.None? then [] else [entry.value]) + EntriesOfList(dateOf, list, items[1..])
  }

  function Entries(dateOf: Clock, lists: seq<Allowlist>): seq<Entry> {
    if lists == [] then [] else EntriesOfList(dateOf, lists[0], lists[0].items) + Entries(dateOf, lists[1..])
  }

  /** A stable sort by name. */
  function Insert(le: NameOrder, sorted: seq<Entry>, e: Entry): seq<Entry> {
    if sorted == [] || le(sorted[|sorted| - 1].name, e.name) then sorted + [e]
    else Insert(le, sorted[..|sorted| - 1], e) + [sorted[|sorted| - 1]]
  }

  function SortByName(le: NameOrder, entries: seq<Entry>): seq<Entry> {
    if entries == [] then [] else Insert(le, SortByName(le, entries[..|entries| - 1]), entries[|entries| - 1])
  }

  function Live(entries: seq<Entry>, now: int): seq<Entry> {
    if entries == [] then []
    else
      var last := entries[|entries| - 1];
      Live(entries[..|entries| - 1], now) + (if LiveAt(last.expiresAt, now) then [last] else [])
  }

  predicate Hits(query: Range, entry: Entry) {
    entry.range.family == query.family && (Contains(entry.range, query) || Contains(query, entry.range))
  }

  /** The reasons of the entries a query hits, in order. */
  function Reasons(entries: seq<Entry>, query: Range): seq<string> {
    if entries == [] then []
    else
      var last := entries[|entries| - 1];
      Reasons(entries[..|entries| - 1], query) + (if Hits(query, last) then [last.reason] else [])
  }

  /** The matcher at time `now`: the reasons it would join, empty when the value is not allowlisted. */
  function Match(dateOf: Clock, le: NameOrder, lists: seq<Allowlist>, value: string, now: int): seq<string> {
    var query := ParseRange(value);
    if query.None? then [] else Reasons(Live(SortByName(le, Entries(dateOf, lists)), now), query.value)
  }

  /** A matcher that does not look at expiry. */
  function MatchListed(dateOf: Clock, le: NameOrder, lists: seq<Allowlist>, value: string): seq<string> {
    var query := ParseRange(value);
    if query.None? then [] else Reasons(SortByName(le, Entries(dateOf, lists)), query.value)
  }

  /** withoutExpiredLoadTestAllowlistItems */
  function LiveItems(dateOf: Clock, items: seq<Item>, now: int): seq<Item> {
    if items == [] then []
    else (if LiveAt(ExpiryOf(dateOf, items[0]), now) then [items[0]] else []) + LiveItems(dateOf, items[1..], now)
  }

  function WithoutExpired(dateOf: Clock, lists: seq<Allowlist>, now: int): seq<Allowlist> {
    if lists == [] then []
    else [lists[0].(items := LiveItems(dateOf, lists[0].items, now))] + WithoutExpired(dateOf, lists[1..], now)
  }

  /** The listing keeps every list with its name, and of its items those that have not expired, in order. */
  lemma {:induction false} ListingKeeps(dateOf: Clock, lists: seq<Allowlist>, now: int)
    ensures |WithoutExpired(dateOf, lists, now)| == |lists|
    ensures forall i :: 0 <= i < |lists| ==>
              WithoutExpired(dateOf, lists, now)[i] == Allowlist(lists[i].name, LiveItems(dateOf, lists[i].items, now))
    decreases |lists|
  {
    if lists != [] {
      ListingKeeps(dateOf, lists[1..], now);
    }
  }

  lemma {:induction false} LiveItemsJoin(dateOf: Clock, a: seq<Item>, item: Item, b: seq<Item>, now: int)
    ensures LiveItems(dateOf, a + [item] + b, now) ==
              LiveItems(dateOf, a, now) + (if Unexpired(dateOf, item, now) then [item] else [])
                + LiveItems(dateOf, b, now)
    decreases |a|
  {
    var s := a + [item] + b;
    var kept := if Unexpired(dateOf, item, now) then [item] else [];
    if a == [] {
      assert s[0] == item && s[1..] == b;
      assert [] + kept + LiveItems(dateOf, b, now) == kept + LiveItems(dateOf, b, now);
    } else {
      var first := if LiveAt(ExpiryOf(dateOf, a[0]), now) then [a[0]] else [];
      var rest, last := LiveItems(dateOf, a[1..], now), LiveItems(dateOf, b, now);
      assert s[0] == a[0] && s[1..] == a[1..] + [item] + b;
      LiveItemsJoin(dateOf, a[1..], item, b, now);
      assert first + (rest + kept + last) == first + rest + kept + last;
    }
  }

  // ---- Filtering first or last ----

  lemma {:induction false} LiveConcat(a: seq<Entry>, b: seq<Entry>, now: int)
    ensures Live(a + b, now) == Live(a, now) + Live(b, now)
    decreases |b|
  {
    if b == [] {
      assert a + b == a;
    } else {
      assert (a + b)[..|a + b| - 1] == a + b[..|b| - 1];
      LiveConcat(a, b[..|b| - 1], now);
    }
  }

  ghost predicate Sorted(le: NameOrder, entries: seq<Entry>) {
    forall i, j :: 0 <= i < j < |entries| ==> le(entries[i].name, entries[j].name)
  }

  lemma {:induction false} LiveIsPart(entries: seq<Entry>, now: int, i: nat)
    requires i < |Live(entries, now)|
    ensures exists k :: 0 <= k < |entries| && entries[k] == Live(entries, now)[i]
    decreases |entries|
  {
    var init, last := entries[..|entries| - 1], entries[|entries| - 1];
    if i < |Live(init, now)| {
      LiveIsPart(init, now, i);
      var k :| 0 <= k < |init| && init[k] == Live(init, now)[i];
      assert entries[k] == Live(entries, now)[i];
    } else {
      assert entries[|entries| - 1] == Live(entries, now)[i];
    }
  }

  lemma {:induction false} InsertSorts(le: NameOrder, sorted: seq<Entry>, e: Entry)
    requires TotalPreorder(le) && Sorted(le, sorted)
    ensures Sorted(le, Insert(le, sorted, e))
    ensures forall i :: 0 <= i < |Insert(le, sorted, e)| ==>
            Insert(le, sorted, e)[i] == e || Insert(le, sorted, e)[i] in sorted
    decreases |sorted|
  {
    if sorted != [] {
      var init, last := sorted[..|sorted| - 1], sorted[|sorted| - 1];
      InsertSorts(le, init, e);
      if !le(last.name, e.name) {
        var r := Insert(le, init, e);
        forall i | 0 <= i < |r| ensures le(r[i].name, last.name) {
          if r[i] != e {
            var k :| 0 <= k < |init| && init[k] == r[i];
            assert sorted[k] == r[i];
          }
        }
      } else {
        forall i | 0 <= i < |sorted| ensures le(sorted[i].name, e.name) {
          assert i < |init| ==> le(sorted[i].name, last.name);
        }
      }
    }
  }

  lemma LiveAppend(entries: seq<Entry>, e: Entry, now: int)
    ensures Live(entries + [e], now) ==
              if LiveAt(e.expiresAt, now) then Live(entries, now) + [e] else Live(entries, now)
  {
    assert (entries + [e])[..|entries|] == entries;
    assert Live(entries, now) + [] == Live(entries, now);
  }

  /** What is live in a sorted list stays at or below what bounds the list. */
  lemma LiveBelow(le: NameOrder, sorted: seq<Entry>, e: Entry, now: int)
    requires TotalPreorder(le) && Sorted(le, sorted) && sorted != [] && le(sorted[|sorted| - 1].name, e.name)
    ensures var live := Live(sorted, now); live != [] ==> le(live[|live| - 1].name, e.name)
  {
    var live := Live(sorted, now);
    if live != [] {
      LiveIsPart(sorted, now, |live| - 1);
      var k :| 0 <= k < |sorted| && sorted[k] == live[|live| - 1];
      assert k < |sorted| - 1 ==> le(sorted[k].name, sorted[|sorted| - 1].name);
    }
  }

  lemma InsertBehind(le: NameOrder, entries: seq<Entry>, last: Entry, e: Entry)
    requires !le(last.name, e.name)
    ensures Insert(le, entries + [last], e) == Insert(le, entries, e) + [last]
  {
    assert (entries + [last])[..|entries|] == entries;
  }

  lemma {:induction false} InsertLive(le: NameOrder, sorted: seq<Entry>, e: Entry, now: int)
    requires TotalPreorder(le) && Sorted(le, sorted)
    ensures Live(Insert(le, sorted, e), now)
         == if LiveAt(e.expiresAt, now) then Insert(le, Live(sorted, now), e) else Live(sorted, now)
    decreases |sorted|
  {
    if sorted == [] || le(sorted[|sorted| - 1].name, e.name) {
      LiveAppend(sorted, e, now);
      if sorted != [] {
        LiveBelow(le, sorted, e, now);
      }
    } else {
      var init, last := sorted[..|sorted| - 1], sorted[|sorted| - 1];
      assert sorted == init + [last];
      InsertLive(le, init, e, now);
      InsertBehind(le, init, last, e);
      LiveAppend(init, last, now);
      LiveAppend(Insert(le, init, e), last, now);
      if LiveAt(last.expiresAt, now) {
        InsertBehind(le, Live(init, now), last, e);
      }
    }
  }

  lemma {:induction false} SortSorts(le: NameOrder, entries: seq<Entry>)
    requires TotalPreorder(le)
    ensures Sorted(le, SortByName(le, entries))
    decreases |entries|
  {
    if entries != [] {
      SortSorts(le, entries[..|entries| - 1]);
      InsertSorts(le, SortByName(le, entries[..|entries| - 1]), entries[|entries| - 1]);
    }
  }

  /** Filtering commutes with the stable sort. */
  lemma {:induction false} SortLive(le: NameOrder, entries: seq<Entry>, now: int)
    requires TotalPreorder(le)
    ensures Live(SortByName(le, entries), now) == SortByName(le, Live(entries, now))
    decreases |entries|
  {
    if entries != [] {
      var init, last := entries[..|entries| - 1], entries[|entries| - 1];
      SortLive(le, init, now);
      SortSorts(le, init);
      InsertLive(le, SortByName(le, init), last, now);
      if LiveAt(last.expiresAt, now) {
        assert (Live(init, now) + [last])[..|Live(init, now)|] == Live(init, now);
      } else {
        assert Live(init, now) + [] == Live(init, now);
      }
    }
  }

  lemma {:induction false} EntriesOfLiveItems(dateOf: Clock, list: Allowlist, items: seq<Item>, now: int)
    ensures EntriesOfList(dateOf, list, LiveItems(dateOf, items, now)) == Live(EntriesOfList(dateOf, list, items), now)
    decreases |items|
  {
    if items != [] {
      var rest := items[1..];
      EntriesOfLiveItems(dateOf, list, rest, now);
      var entry := EntryOf(dateOf, list, items[0]);
      var first := if entry.None? then [] else [entry.value];
      LiveConcat(first, EntriesOfList(dateOf, list, rest), now);
      if LiveAt(ExpiryOf(dateOf, items[0]), now) {
        assert ([items[0]] + LiveItems(dateOf, rest, now))[1..] == LiveItems(dateOf, rest, now);
        assert Live(first, now) == first;
      } else {
        assert [] + LiveItems(dateOf, rest, now) == LiveItems(dateOf, rest, now);
        assert Live(first, now) == [];
        assert [] + Live(EntriesOfList(dateOf, list, rest), now) == Live(EntriesOfList(dateOf, list, rest), now);
      }
    }
  }

  lemma {:induction false} SameListEntries(dateOf: Clock, a: Allowlist, b: Allowlist, items: seq<Item>)
    requires a.name == b.name
    ensures EntriesOfList(dateOf, a, items) == EntriesOfList(dateOf, b, items)
    decreases |items|
  {
    if items != [] {
      SameListEntries(dateOf, a, b, items[1..]);
    }
  }

  lemma {:induction false} EntriesWithoutExpired(dateOf: Clock, lists: seq<Allowlist>, now: int)
    ensures Entries(dateOf, WithoutExpired(dateOf, lists, now)) == Live(Entries(dateOf, lists), now)
    decreases |lists|
  {
    if lists != [] {
      var list := lists[0];
      var trimmed := list.(items := LiveItems(dateOf, list.items, now));
      EntriesWithoutExpired(dateOf, lists[1..], now);
      EntriesOfLiveItems(dateOf, list, list.items, now);
      SameListEntries(dateOf, trimmed, list, trimmed.items);
      LiveConcat(EntriesOfList(dateOf, list, list.items), Entries(dateOf, lists[1..]), now);
      var r := WithoutExpired(dateOf, lists, now);
      assert r[0] == trimmed && r[1..] == WithoutExpired(dateOf, lists[1..], now);
    }
  }

  /** At any time the matcher answers, reason for reason, as one run over the listing of that time. */
  lemma MatcherFollowsListing(dateOf: Clock, le: NameOrder, lists: seq<Allowlist>, value: string, now: int)
    requires TotalPreorder(le)
    ensures Match(dateOf, le, lists, value, now) == MatchListed(dateOf, le, WithoutExpired(dateOf, lists, now), value)
  {
    SortLive(le, Entries(dateOf, lists), now);
    EntriesWithoutExpired(dateOf, lists, now);
  }

  // ---- What is allowlisted ----

  lemma {:induction false} ReasonsIff(entries: seq<Entry>, query: Range)
    ensures Reasons(entries, query) != [] <==> exists k :: 0 <= k < |entries| && Hits(query, entries[k])
    decreases |entries|
  {
    if entries != [] {
      var init := entries[..|entries| - 1];
      ReasonsIff(init, query);
      if k :| 0 <= k < |init| && Hits(query, init[k]) {
        assert Hits(query, entries[k]);
      }
    }
  }

  lemma {:induction false} SortKeeps(le: NameOrder, entries: seq<Entry>)
    ensures multiset(SortByName(le, entries)) == multiset(entries)
    decreases |entries|
  {
    if entries != [] {
      var init, last := entries[..|entries| - 1], entries[|entries| - 1];
      assert entries == init + [last];
      SortKeeps(le, init);
      InsertKeeps(le, SortByName(le, init), last);
    }
  }

  lemma {:induction false} InsertKeeps(le: NameOrder, sorted: seq<Entry>, e: Entry)
    ensures multiset(Insert(le, sorted, e)) == multiset(sorted) + multiset{e}
    decreases |sorted|
  {
    if sorted != [] && !le(sorted[|sorted| - 1].name, e.name) {
      assert sorted == sorted[..|sorted| - 1] + [sorted[|sorted| - 1]];
      InsertKeeps(le, sorted[..|sorted| - 1], e);
    }
  }

  /** An entry of the matcher comes from an item, and every readable item has one. */
  lemma {:induction false} EntriesOfListHold(dateOf: Clock, list: Allowlist, items: seq<Item>, e: Entry)
    ensures e in EntriesOfList(dateOf, list, items) <==>
            exists j :: 0 <= j < |items| && EntryOf(dateOf, list, items[j]) == Some(e)
    decreases |items|
  {
    if items != [] {
      EntriesOfListHold(dateOf, list, items[1..], e);
      if j :| 0 <= j < |items| && EntryOf(dateOf, list, items[j]) == Some(e) {
        assert j > 0 ==> items[1..][j - 1] == items[j];
      }
      if j :| 0 <= j < |items| - 1 && EntryOf(dateOf, list, items[1..][j]) == Some(e) {
        assert items[j + 1] == items[1..][j];
      }
    }
  }

  ghost predicate FromList(dateOf: Clock, list: Allowlist, e: Entry) {
    exists j :: 0 <= j < |list.items| && EntryOf(dateOf, list, list.items[j]) == Some(e)
  }

  lemma {:induction false} EntriesHold(dateOf: Clock, lists: seq<Allowlist>, e: Entry)
    ensures e in Entries(dateOf, lists) <==> exists i :: 0 <= i < |lists| && FromList(dateOf, lists[i], e)
    decreases |lists|
  {
    if lists != [] {
      EntriesOfListHold(dateOf, lists[0], lists[0].items, e);
      EntriesHold(dateOf, lists[1..], e);
      if i :| 0 <= i < |lists| && FromList(dateOf, lists[i], e) {
        assert i > 0 ==> lists[1..][i - 1] == lists[i];
      }
      if i :| 0 <= i < |lists| - 1 && FromList(dateOf, lists[1..][i], e) {
        assert lists[i + 1] == lists[1..][i];
      }
    }
  }

  /** The item is readable, not expired, of the query's family, and shares an address with it. */
  ghost predicate Covers(dateOf: Clock, item: Item, query: Range, now: int) {
    && item.value != "" && ParseRange(item.value).Some?
    && Unexpired(dateOf, item, now)
    && ParseRange(item.value).value.family == query.family
    && exists x :: HasAddress(query, x) && HasAddress(ParseRange(item.value).value, x)
  }

  /** Without an expiration, with the zero time, or with a date in the future. */
  ghost predicate Unexpired(dateOf: Clock, item: Item, now: int) {
    || item.expiration == "" || item.expiration == "0001-01-01T00:00:00.000Z"
    || (dateOf(item.expiration).Some? && dateOf(item.expiration).value > now)
  }

  ghost predicate Covered(dateOf: Clock, list: Allowlist, query: Range, now: int) {
    exists j :: 0 <= j < |list.items| && Covers(dateOf, list.items[j], query, now)
  }

  lemma {:induction false} LiveMembers(entries: seq<Entry>, now: int, e: Entry)
    ensures e in Live(entries, now) <==> e in entries && LiveAt(e.expiresAt, now)
    decreases |entries|
  {
    if entries != [] {
      var init, last := entries[..|entries| - 1], entries[|entries| - 1];
      assert entries == init + [last];
      LiveMembers(init, now, e);
    }
  }

  lemma SortMembers(le: NameOrder, entries: seq<Entry>, e: Entry)
    ensures e in SortByName(le, entries) <==> e in entries
  {
    SortKeeps(le, entries);
    assert e in SortByName(le, entries) <==> e in multiset(SortByName(le, entries));
  }

  lemma MatchedMembers(dateOf: Clock, le: NameOrder, lists: seq<Allowlist>, now: int, e: Entry)
    ensures e in Live(SortByName(le, Entries(dateOf, lists)), now)
        <==> LiveAt(e.expiresAt, now) && exists i :: 0 <= i < |lists| && FromList(dateOf, lists[i], e)
  {
    LiveMembers(SortByName(le, Entries(dateOf, lists)), now, e);
    SortMembers(le, Entries(dateOf, lists), e);
    EntriesHold(dateOf, lists, e);
  }

  lemma HitIsCover(dateOf: Clock, list: Allowlist, item: Item, value: string, now: int)
    requires ParseRange(value).Some?
    ensures var entry := EntryOf(dateOf, list, item);
            Covers(dateOf, item, ParseRange(value).value, now)
            <==> entry.Some? && LiveAt(entry.value.expiresAt, now) && Hits(ParseRange(value).value, entry.value)
  {
    if item.value != "" && ParseRange(item.value).Some? {
      ContainmentIsOverlap(value, item.value);
    }
  }

  lemma MatchedIsCovered(dateOf: Clock, le: NameOrder, lists: seq<Allowlist>, value: string, now: int, e: Entry)
    requires ParseRange(value).Some? && Hits(ParseRange(value).value, e)
    requires e in Live(SortByName(le, Entries(dateOf, lists)), now)
    ensures exists i :: 0 <= i < |lists| && Covered(dateOf, lists[i], ParseRange(value).value, now)
  {
    MatchedMembers(dateOf, le, lists, now, e);
    var i :| 0 <= i < |lists| && FromList(dateOf, lists[i], e);
    var j :| 0 <= j < |lists[i].items| && EntryOf(dateOf, lists[i], lists[i].items[j]) == Some(e);
    HitIsCover(dateOf, lists[i], lists[i].items[j], value, now);
    assert Covered(dateOf, lists[i], ParseRange(value).value, now);
  }

  lemma CoveredIsMatched(dateOf: Clock, le: NameOrder, lists: seq<Allowlist>, value: string, now: int, i: nat)
    requires ParseRange(value).Some? && i < |lists| && Covered(dateOf, lists[i], ParseRange(value).value, now)
    ensures exists e :: e in Live(SortByName(le, Entries(dateOf, lists)), now) && Hits(ParseRange(value).value, e)
  {
    var j :| 0 <= j < |lists[i].items| && Covers(dateOf, lists[i].items[j], ParseRange(value).value, now);
    HitIsCover(dateOf, lists[i], lists[i].items[j], value, now);
    var e := EntryOf(dateOf, lists[i], lists[i].items[j]).value;
    assert FromList(dateOf, lists[i], e);
    MatchedMembers(dateOf, le, lists, now, e);
  }

  /** A value is allowlisted exactly when some unexpired item of its family shares an address with it. */
  lemma AllowlistedIff(dateOf: Clock, le: NameOrder, lists: seq<Allowlist>, value: string, now: int)
    ensures Match(dateOf, le, lists, value, now) != []
        <==> ParseRange(value).Some?
             && exists i :: 0 <= i < |lists| && Covered(dateOf, lists[i], ParseRange(value).value, now)
  {
    if ParseRange(value).Some? {
      var query := ParseRange(value).value;
      var entries := Live(SortByName(le, Entries(dateOf, lists)), now);
      ReasonsIff(entries, query);
      if k :| 0 <= k < |entries| && Hits(query, entries[k]) {
        MatchedIsCovered(dateOf, le, lists, value, now, entries[k]);
      }
      if i :| 0 <= i < |lists| && Covered(dateOf, lists[i], query, now) {
        CoveredIsMatched(dateOf, le, lists, value, now, i);
        var e :| e in entries && Hits(query, e);
        var k :| 0 <= k < |entries| && entries[k] == e;
      }
    }
  }
}
