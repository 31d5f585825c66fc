/** Which reasons the allowlist matcher gives, and in which order. */
module AllowlistReasons {
  import opened AddressRanges
  import opened AllowlistMatcher
  import opened Wrappers

  // ---- The places of the entries ----

  /** An item of the listing by its position. */
  datatype Place = Place(list: nat, item: nat)

  predicate Before(p: Place, q: Place) {
    p.list < q.list || (p.list == q.list && p.item < q.item)
  }

  /** What was read off each item of each list. */
  type Readings = seq<seq<Option<Entry>>>

  ghost predicate ReadAt(readings: Readings, p: Place, e: Entry) {
    p.list < |readings| && p.item < |readings[p.list]| && readings[p.list][p.item] == Some(e)
  }

  ghost predicate EntriesAt(readings: Readings, places: seq<Place>, entries: seq<Entry>) {
    |entries| == |places| && forall k :: 0 <= k < |places| ==> ReadAt(readings, places[k], entries[k])
  }

  ghost predicate ReadableAt(readings: Readings, p: Place) {
    p.list < |readings| && p.item < |readings[p.list]| && readings[p.list][p.item].Some?
  }

  ghost predicate InListingOrder(places: seq<Place>) {
    forall a, b :: 0 <= a < b < |places| ==> Before(places[a], places[b])
  }

  function Present(options: seq<Option<Entry>>): seq<Entry> {
    if options == [] then [] else (if options[0].None? then [] else [options[0].value]) + Present(options[1..])
  }

  function AllPresent(readings: Readings): seq<Entry> {
    if readings == [] then [] else Present(readings[0]) + AllPresent(readings[1..])
  }

  function ReadItems(dateOf: Clock, list: Allowlist, items: seq<Item>): (r: seq<Option<Entry>>)
    ensures |r| == |items|
  {
    seq(|items|, j requires 0 <= j < |items| => EntryOf(dateOf, list, items[j]))
  }

  function ReadLists(dateOf: Clock, lists: seq<Allowlist>): (r: Readings)
    ensures |r| == |lists|
  {
    seq(|lists|, i requires 0 <= i < |lists| => ReadItems(dateOf, lists[i], lists[i].items))
  }

  lemma {:induction false} EntriesOfListArePresent(dateOf: Clock, list: Allowlist, items: seq<Item>)
    ensures EntriesOfList(dateOf, list, items) == Present(ReadItems(dateOf, list, items))
    decreases |items|
  {
    if items != [] {
      EntriesOfListArePresent(dateOf, list, items[1..]);
      assert ReadItems(dateOf, list, items)[1..] == ReadItems(dateOf, list, items[1..]);
    }
  }

  lemma {:induction false} EntriesArePresent(dateOf: Clock, lists: seq<Allowlist>)
    ensures Entries(dateOf, lists) == AllPresent(ReadLists(dateOf, lists))
    decreases |lists|
  {
    if lists != [] {
      EntriesOfListArePresent(dateOf, lists[0], lists[0].items);
      EntriesArePresent(dateOf, lists[1..]);
      assert ReadLists(dateOf, lists)[1..] == ReadLists(dateOf, lists[1..]);
    }
  }

  lemma {:induction false} ItemPlaces(readings: Readings, i: nat, j: nat) returns (places: seq<Place>)
    requires i < |readings| && j <= |readings[i]|
    ensures EntriesAt(readings, places, Present(readings[i][j..]))
    ensures InListingOrder(places) && forall k :: 0 <= k < |places| ==> places[k].list == i && places[k].item >= j
    ensures forall p: Place :: p.list == i && j <= p.item && ReadableAt(readings, p) ==> p in places
    decreases |readings[i]| - j
  {
    places := [];
    if j < |readings[i]| {
      assert readings[i][j..][1..] == readings[i][j + 1..];
      var rest := ItemPlaces(readings, i, j + 1);
      if readings[i][j].Some? {
        places := [Place(i, j)] + rest;
        FirstPlace(readings, rest, Present(readings[i][j + 1..]), Place(i, j), readings[i][j].value);
      } else {
        places := rest;
        assert [] + Present(readings[i][j + 1..]) == Present(readings[i][j + 1..]);
      }
    }
  }

  lemma FirstPlace(readings: Readings, places: seq<Place>, entries: seq<Entry>, p: Place, e: Entry)
    requires EntriesAt(readings, places, entries) && InListingOrder(places) && ReadAt(readings, p, e)
    requires forall k :: 0 <= k < |places| ==> Before(p, places[k])
    ensures EntriesAt(readings, [p] + places, [e] + entries) && InListingOrder([p] + places)
    ensures forall q :: q in [p] + places <==> q == p || q in places
  {
  }

  /** The entries in listing order: every readable item once. */
  lemma {:induction false} ListingPlaces(readings: Readings, i: nat) returns (places: seq<Place>)
    requires i <= |readings|
    ensures EntriesAt(readings, places, AllPresent(readings[i..]))
    ensures InListingOrder(places) && forall k :: 0 <= k < |places| ==> places[k].list >= i
    ensures forall p: Place :: i <= p.list && ReadableAt(readings, p) ==> p in places
    decreases |readings| - i
  {
    places := [];
    if i < |readings| {
      var first := ItemPlaces(readings, i, 0);
      var rest := ListingPlaces(readings, i + 1);
      assert readings[i..][1..] == readings[i + 1..] && readings[i][0..] == readings[i];
      places := first + rest;
      PlacesJoin(readings, first, Present(readings[i]), rest, AllPresent(readings[i + 1..]));
    }
  }

  lemma PlacesJoin(readings: Readings, a: seq<Place>, x: seq<Entry>, b: seq<Place>, y: seq<Entry>)
    requires EntriesAt(readings, a, x) && EntriesAt(readings, b, y) && InListingOrder(a) && InListingOrder(b)
    requires forall m, n :: 0 <= m < |a| && 0 <= n < |b| ==> Before(a[m], b[n])
    ensures EntriesAt(readings, a + b, x + y) && InListingOrder(a + b)
  {
  }

  ghost predicate Ranked(le: NameOrder, names: seq<string>, p: Place, q: Place) {
    && p.list < |names| && q.list < |names|
    && le(names[p.list], names[q.list]) && (le(names[q.list], names[p.list]) ==> Before(p, q))
  }

  /** In the order of the names, and in listing order among equal names. */
  ghost predicate InNameOrder(le: NameOrder, names: seq<string>, places: seq<Place>) {
    forall a, b :: 0 <= a < b < |places| ==> Ranked(le, names, places[a], places[b])
  }

  ghost predicate Named(readings: Readings, names: seq<string>) {
    |names| == |readings| && forall p, e :: ReadAt(readings, p, e) ==> e.name == names[p.list]
  }

  lemma {:induction false} InsertPlace(le: NameOrder, readings: Readings, names: seq<string>, places: seq<Place>,
      sorted: seq<Entry>, p: Place, e: Entry) returns (more: seq<Place>)
    requires TotalPreorder(le) && Named(readings, names)
    requires EntriesAt(readings, places, sorted) && InNameOrder(le, names, places)
    requires ReadAt(readings, p, e) && forall k :: 0 <= k < |places| ==> Before(places[k], p)
    ensures EntriesAt(readings, more, Insert(le, sorted, e)) && InNameOrder(le, names, more)
    ensures forall q :: q in more <==> q in places || q == p
    decreases |sorted|
  {
    if sorted == [] || le(sorted[|sorted| - 1].name, e.name) {
      more := places + [p];
      InsertedLast(le, readings, names, places, sorted, p, e);
    } else {
      var n := |sorted| - 1;
      assert places == places[..n] + [places[n]] && ReadAt(readings, places[n], sorted[n]);
      var fewer := InsertPlace(le, readings, names, places[..n], sorted[..n], p, e);
      more := fewer + [places[n]];
      forall q | q in fewer ensures Ranked(le, names, q, places[n]) {
        if q != p {
          var k :| 0 <= k < n && places[k] == q;
        }
      }
      PlacesThenLast(le, names, fewer, places[n]);
    }
  }

  lemma PlacesThenLast(le: NameOrder, names: seq<string>, places: seq<Place>, last: Place)
    requires InNameOrder(le, names, places) && forall q :: q in places ==> Ranked(le, names, q, last)
    ensures InNameOrder(le, names, places + [last])
  {
  }

  lemma InsertedLast(le: NameOrder, readings: Readings, names: seq<string>, places: seq<Place>, sorted: seq<Entry>,
      p: Place, e: Entry)
    requires TotalPreorder(le) && Named(readings, names)
    requires EntriesAt(readings, places, sorted) && InNameOrder(le, names, places)
    requires ReadAt(readings, p, e) && forall k :: 0 <= k < |places| ==> Before(places[k], p)
    requires sorted == [] || le(sorted[|sorted| - 1].name, e.name)
    ensures InNameOrder(le, names, places + [p])
  {
    forall k | 0 <= k < |places| ensures Ranked(le, names, places[k], p) {
      var last := |places| - 1;
      assert ReadAt(readings, places[last], sorted[last]) && ReadAt(readings, places[k], sorted[k]);
      if k < last {
        assert Ranked(le, names, places[k], places[last]);
      }
    }
    PlacesThenLast(le, names, places, p);
  }

  lemma {:induction false} SortPlaces(le: NameOrder, readings: Readings, names: seq<string>, places: seq<Place>,
      entries: seq<Entry>) returns (sorted: seq<Place>)
    requires TotalPreorder(le) && Named(readings, names)
    requires EntriesAt(readings, places, entries) && InListingOrder(places)
    ensures EntriesAt(readings, sorted, SortByName(le, entries)) && InNameOrder(le, names, sorted)
    ensures forall q :: q in sorted <==> q in places
    decreases |entries|
  {
    sorted := [];
    if entries != [] {
      var n := |entries| - 1;
      assert places == places[..n] + [places[n]];
      FirstPlaces(readings, places, entries, n);
      var fewer := SortPlaces(le, readings, names, places[..n], entries[..n]);
      forall k | 0 <= k < |fewer| ensures Before(fewer[k], places[n]) {
        assert fewer[k] in places[..n];
        var m :| 0 <= m < n && places[m] == fewer[k];
      }
      sorted := InsertPlace(le, readings, names, fewer, SortByName(le, entries[..n]), places[n], entries[n]);
    }
  }

  lemma FirstPlaces(readings: Readings, places: seq<Place>, entries: seq<Entry>, n: nat)
    requires EntriesAt(readings, places, entries) && InListingOrder(places) && n < |entries|
    ensures EntriesAt(readings, places[..n], entries[..n]) && InListingOrder(places[..n])
    ensures ReadAt(readings, places[n], entries[n])
    ensures forall k :: 0 <= k < n ==> Before(places[k], places[n])
  {
  }

  // ---- Filtering keeps the order ----

  ghost predicate Counts(e: Entry, query: Range, now: int) {
    LiveAt(e.expiresAt, now) && Hits(query, e)
  }

  /** Which entries count, position by position. */
  ghost function Kept(entries: seq<Entry>, query: Range, now: int): (kept: seq<bool>)
    ensures |kept| == |entries| && forall k :: 0 <= k < |entries| ==> kept[k] == Counts(entries[k], query, now)
  {
    seq(|entries|, k requires 0 <= k < |entries| => Counts(entries[k], query, now))
  }

  function Pick(entries: seq<Entry>, kept: seq<bool>): seq<string>
    requires |entries| == |kept|
  {
    if entries == [] then []
    else
      var n := |entries| - 1;
      Pick(entries[..n], kept[..n]) + (if kept[n] then [entries[n].reason] else [])
  }

  lemma {:induction false} ReasonsPicked(entries: seq<Entry>, query: Range, now: int)
    ensures Reasons(Live(entries, now), query) == Pick(entries, Kept(entries, query, now))
    decreases |entries|
  {
    if entries != [] {
      var n := |entries| - 1;
      ReasonsPicked(entries[..n], query, now);
      ReasonsAppend(Live(entries[..n], now), query, entries[n]);
      assert Kept(entries, query, now)[..n] == Kept(entries[..n], query, now);
      if !LiveAt(entries[n].expiresAt, now) {
        assert Live(entries[..n], now) + [] == Live(entries[..n], now);
      }
    }
  }

  lemma ReasonsAppend(entries: seq<Entry>, query: Range, e: Entry)
    ensures Reasons(entries + [e], query) == Reasons(entries, query) + (if Hits(query, e) then [e.reason] else [])
  {
    assert (entries + [e])[..|entries|] == entries;
  }

  function Positions(kept: seq<bool>): seq<nat> {
    if kept == [] then []
    else
      var n := |kept| - 1;
      Positions(kept[..n]) + (if kept[n] then [n] else [])
  }

  lemma {:induction false} PositionsAscend(kept: seq<bool>)
    ensures forall k :: 0 <= k < |Positions(kept)| ==> Positions(kept)[k] < |kept| && kept[Positions(kept)[k]]
    ensures forall a, b :: 0 <= a < b < |Positions(kept)| ==> Positions(kept)[a] < Positions(kept)[b]
    decreases |kept|
  {
    if kept != [] {
      PositionsAscend(kept[..|kept| - 1]);
    }
  }

  lemma {:induction false} PositionsAll(kept: seq<bool>, n: nat)
    requires n < |kept| && kept[n]
    ensures n in Positions(kept)
    decreases |kept|
  {
    if n < |kept| - 1 {
      PositionsAll(kept[..|kept| - 1], n);
    }
  }

  lemma {:induction false} PickedReasons(entries: seq<Entry>, kept: seq<bool>)
    requires |entries| == |kept|
    ensures |Pick(entries, kept)| == |Positions(kept)|
    ensures forall k :: 0 <= k < |Positions(kept)| ==>
              Positions(kept)[k] < |entries| && Pick(entries, kept)[k] == entries[Positions(kept)[k]].reason
    decreases |entries|
  {
    if entries != [] {
      PickedReasons(entries[..|entries| - 1], kept[..|kept| - 1]);
    }
  }

  lemma PickedPlaces(le: NameOrder, readings: Readings, names: seq<string>, sorted: seq<Place>, entries: seq<Entry>,
      picked: seq<nat>, places: seq<Place>)
    requires EntriesAt(readings, sorted, entries) && InNameOrder(le, names, sorted) && |places| == |picked|
    requires forall a, b :: 0 <= a < b < |picked| ==> picked[a] < picked[b]
    requires forall k :: 0 <= k < |picked| ==> picked[k] < |sorted| && places[k] == sorted[picked[k]]
    ensures InNameOrder(le, names, places)
    ensures forall a, b :: 0 <= a < b < |places| ==> places[a] != places[b]
    ensures forall k :: 0 <= k < |places| ==> ReadAt(readings, places[k], entries[picked[k]])
  {
    forall a, b | 0 <= a < b < |places| ensures Ranked(le, names, places[a], places[b]) && places[a] != places[b] {
      assert Ranked(le, names, sorted[picked[a]], sorted[picked[b]]);
    }
  }

  // ---- What the matcher says about each item ----

  function NamesOf(lists: seq<Allowlist>): (names: seq<string>)
    ensures |names| == |lists| && forall i :: 0 <= i < |lists| ==> names[i] == lists[i].name
  {
    seq(|lists|, i requires 0 <= i < |lists| => lists[i].name)
  }

  predicate PlaceIn(lists: seq<Allowlist>, p: Place) {
    p.list < |lists| && p.item < |lists[p.list].items|
  }

  /** Value, list name and the description, if there is one. */
  function SpelledReason(lists: seq<Allowlist>, p: Place): string
    requires PlaceIn(lists, p)
  {
    var list, item := lists[p.list], lists[p.list].items[p.item];
    if item.description == "" then item.value + " from " + list.name
    else item.value + " from " + list.name + " (" + item.description + ")"
  }

  ghost predicate CoversAt(dateOf: Clock, lists: seq<Allowlist>, p: Place, query: Range, now: int) {
    PlaceIn(lists, p) && Covers(dateOf, lists[p.list].items[p.item], query, now)
  }

  /** The reasons are those of the items at these places, each place once, in the order of the list names
      and, among equal names, of the listing. */
  ghost predicate ReasonsAt(le: NameOrder, lists: seq<Allowlist>, places: seq<Place>, reasons: seq<string>) {
    && |reasons| == |places| && InNameOrder(le, NamesOf(lists), places)
    && (forall a, b :: 0 <= a < b < |places| ==> places[a] != places[b])
    && (forall k :: 0 <= k < |places| ==> PlaceIn(lists, places[k]) && reasons[k] == SpelledReason(lists, places[k]))
  }

  /** The entry at a place has its list's name and says what there is to say about its item. */
  lemma EntryAt(dateOf: Clock, lists: seq<Allowlist>, p: Place, e: Entry)
    requires ReadAt(ReadLists(dateOf, lists), p, e)
    ensures PlaceIn(lists, p) && e.name == lists[p.list].name && e.reason == SpelledReason(lists, p)
    ensures EntryOf(dateOf, lists[p.list], lists[p.list].items[p.item]) == Some(e)
  {
    var item, list := lists[p.list].items[p.item], lists[p.list];
    assert item.description != "" ==>
             Reason(list, item) == item.value + " from " + list.name + (" (" + item.description + ")");
  }

  lemma ListsAreNamed(dateOf: Clock, lists: seq<Allowlist>)
    ensures Named(ReadLists(dateOf, lists), NamesOf(lists))
  {
    forall p, e | ReadAt(ReadLists(dateOf, lists), p, e) ensures e.name == NamesOf(lists)[p.list] {
      EntryAt(dateOf, lists, p, e);
    }
  }

  lemma CoverIsHit(dateOf: Clock, lists: seq<Allowlist>, value: string, now: int, p: Place)
    requires ParseRange(value).Some?
    ensures CoversAt(dateOf, lists, p, ParseRange(value).value, now) <==>
              exists e :: ReadAt(ReadLists(dateOf, lists), p, e) && Counts(e, ParseRange(value).value, now)
  {
    if PlaceIn(lists, p) {
      var item := lists[p.list].items[p.item];
      HitIsCover(dateOf, lists[p.list], item, value, now);
      var read := EntryOf(dateOf, lists[p.list], item);
      assert ReadLists(dateOf, lists)[p.list][p.item] == read;
      assert read.Some? ==> ReadAt(ReadLists(dateOf, lists), p, read.value);
    }
  }

  /** The matcher gives exactly one reason for each item that covers the value. */
  lemma MatchListsReasons(dateOf: Clock, le: NameOrder, lists: seq<Allowlist>, value: string, now: int)
    returns (places: seq<Place>)
    requires TotalPreorder(le)
    ensures ReasonsAt(le, lists, places, Match(dateOf, le, lists, value, now))
    ensures ParseRange(value).None? ==> places == []
    ensures ParseRange(value).Some? ==>
              forall p :: p in places <==> CoversAt(dateOf, lists, p, ParseRange(value).value, now)
  {
    places := [];
    if ParseRange(value).Some? {
      var readings, entries := ReadLists(dateOf, lists), SortByName(le, Entries(dateOf, lists));
      var listing := ListingPlaces(readings, 0);
      assert readings[0..] == readings;
      EntriesArePresent(dateOf, lists);
      ListsAreNamed(dateOf, lists);
      var sorted := SortPlaces(le, readings, NamesOf(lists), listing, Entries(dateOf, lists));
      var query := ParseRange(value).value;
      ReasonsPicked(entries, query, now);
      var kept := Kept(entries, query, now);
      var picked := Positions(kept);
      PositionsAscend(kept);
      PickedReasons(entries, kept);
      places := seq(|picked|, k requires 0 <= k < |picked| => sorted[picked[k]]);
      PickedPlaces(le, readings, NamesOf(lists), sorted, entries, picked, places);
      forall k | 0 <= k < |places|
        ensures PlaceIn(lists, places[k]) && entries[picked[k]].reason == SpelledReason(lists, places[k])
      {
        EntryAt(dateOf, lists, places[k], entries[picked[k]]);
      }
      forall p ensures p in places <==> CoversAt(dateOf, lists, p, query, now) {
        CoverIsHit(dateOf, lists, value, now, p);
        PickedHits(readings, sorted, entries, picked, places, query, now, p);
      }
    }
  }

  lemma PickedHits(readings: Readings, sorted: seq<Place>, entries: seq<Entry>, picked: seq<nat>, places: seq<Place>,
      query: Range, now: int, p: Place)
    requires EntriesAt(readings, sorted, entries) && |picked| == |places|
    requires picked == Positions(Kept(entries, query, now))
    requires forall q :: ReadableAt(readings, q) ==> q in sorted
    requires forall k :: 0 <= k < |picked| ==> picked[k] < |sorted| && places[k] == sorted[picked[k]]
    ensures p in places <==> exists e :: ReadAt(readings, p, e) && Counts(e, query, now)
  {
    var kept := Kept(entries, query, now);
    PositionsAscend(kept);
    if p in places {
      var k :| 0 <= k < |picked| && places[k] == p;
      assert ReadAt(readings, sorted[picked[k]], entries[picked[k]]);
    }
    if e :| ReadAt(readings, p, e) && Counts(e, query, now) {
      assert ReadableAt(readings, p);
      var n :| 0 <= n < |sorted| && sorted[n] == p;
      assert ReadAt(readings, sorted[n], entries[n]);
      PositionsAll(kept, n);
      var k :| 0 <= k < |picked| && picked[k] == n;
      assert places[k] == p;
    }
  }
}
