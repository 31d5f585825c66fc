/** The cached allowlists updated in place. */
module AllowlistStore {
  import opened Collections
  import opened Wrappers
  import opened AllowlistSync
  import opened AllowlistDiff

  lemma WantedListsStep(instance: string, snapshot: seq<Allowlist>, i: nat)
    requires i < |snapshot|
    ensures WantedLists(instance, snapshot[..i + 1])
         == WantedLists(instance, snapshot[..i])[ListKey(instance, snapshot[i].name) := RowOf(snapshot[i])]
  {
    assert snapshot[..i + 1][..i] == snapshot[..i];
  }

  lemma OneMoreName(instance: string, snapshot: seq<Allowlist>, i: nat)
    requires i < |snapshot|
    ensures DistinctNames(snapshot[..i + 1]) <==>
              DistinctNames(snapshot[..i]) &&
                ListKey(instance, snapshot[i].name) !in WantedLists(instance, snapshot[..i])
  {
    var done, more, key := snapshot[..i], snapshot[..i + 1], ListKey(instance, snapshot[i].name);
    if key in WantedLists(instance, done) {
      WantedListIsListed(instance, done, key);
      var j :| 0 <= j < i && done[j].name == key.name;
      assert more[j].name == more[i].name;
    } else {
      forall j | 0 <= j < i ensures done[j].name != snapshot[i].name {
        ListedNameIsWanted(instance, done, j);
      }
      if DistinctNames(done) {
        forall j, k | 0 <= j < k < |more| ensures more[j].name != more[k].name {
          assert more[j] == done[j] && (k < i ==> more[k] == done[k]);
        }
      }
    }
    if DistinctNames(more) {
      forall j, k | 0 <= j < k < i ensures done[j].name != done[k].name {
        assert more[j].name != more[k].name;
      }
    }
  }

  /** The first lists of the snapshot have different names and are in the table already. */
  ghost predicate ListedAlready(table: map<ListKey, ListRow>, instance: string, snapshot: seq<Allowlist>, i: nat)
    requires i <= |snapshot|
  {
    DistinctNames(snapshot[..i]) && Within(WantedLists(instance, snapshot[..i]), table)
  }

  ghost predicate SameList(table: map<ListKey, ListRow>, done: map<ListKey, ListRow>, instance: string,
      list: Allowlist) {
    var key := ListKey(instance, list.name);
    key in table && key !in done && table[key] == RowOf(list)
  }

  lemma ListedAlreadyStep(table: map<ListKey, ListRow>, instance: string, snapshot: seq<Allowlist>, i: nat)
    requires i < |snapshot|
    ensures ListedAlready(table, instance, snapshot, i + 1) <==>
              ListedAlready(table, instance, snapshot, i) &&
                SameList(table, WantedLists(instance, snapshot[..i]), instance, snapshot[i])
  {
    OneMoreName(instance, snapshot, i);
    WantedListsStep(instance, snapshot, i);
    var key := ListKey(instance, snapshot[i].name);
    if key !in WantedLists(instance, snapshot[..i]) {
      WithinAdd(WantedLists(instance, snapshot[..i]), table, key, RowOf(snapshot[i]));
    }
  }

  lemma {:induction false} ListedNameIsWanted(instance: string, snapshot: seq<Allowlist>, j: nat)
    requires j < |snapshot|
    ensures ListKey(instance, snapshot[j].name) in WantedLists(instance, snapshot)
    decreases |snapshot|
  {
    if j < |snapshot| - 1 {
      ListedNameIsWanted(instance, snapshot[..|snapshot| - 1], j);
    }
  }

  /** The cached lists the snapshot no longer has. */
  function StaleNames(lists: map<ListKey, ListRow>, instance: string, snapshot: seq<Allowlist>): set<string> {
    set k | k in lists && k.instance == instance && k !in WantedLists(instance, snapshot) :: k.name
  }

  /** The lists that are left without some of the instance's. */
  function KeptLists(lists: map<ListKey, ListRow>, instance: string, stale: set<string>): map<ListKey, ListRow> {
    map k | k in lists && !(k.instance == instance && k.name in stale) :: lists[k]
  }

  /** The items that are left once stale lists are deleted with theirs. */
  function KeptItems(items: map<ItemKey, ItemRow>, instance: string, stale: set<string>): map<ItemKey, ItemRow> {
    map k | k in items && !(k.instance == instance && k.list in stale) :: items[k]
  }

  /** What the items are compared with: the lists the snapshot lacks are gone by then. */
  function CachedItemsOf(lists: map<ListKey, ListRow>, items: map<ItemKey, ItemRow>, instance: string,
      snapshot: seq<Allowlist>): map<ItemKey, ItemRow> {
    KeptItems(items, instance, StaleNames(lists, instance, snapshot))
  }

  lemma DropOneMore(lists: map<ListKey, ListRow>, items: map<ItemKey, ItemRow>, instance: string, names: seq<string>,
      i: nat)
    requires i < |names|
    ensures var done, more := Elements(names[..i]), Elements(names[..i + 1]);
            && KeptLists(lists, instance, more) == KeptLists(lists, instance, done) - {ListKey(instance, names[i])}
            && KeptItems(items, instance, more) == KeptItems(KeptItems(items, instance, done), instance, {names[i]})
  {
    var done, more := Elements(names[..i]), Elements(names[..i + 1]);
    ElementsOfPrefix(names, i, i + 1);
    assert more == done + {names[i]};
    forall k: ListKey | k.instance == instance ensures k == ListKey(instance, k.name) {
    }
  }

  lemma ClaimOneMore(d: Diff, before: seq<Wanted>, w: Wanted)
    ensures ClaimAll(d, before + [w]) == Claim(ClaimAll(d, before), w)
  {
    assert (before + [w])[..|before|] == before;
  }

  /** The items of the lists before `i` and the first `j` of list `i`. */
  function ListingSoFar(instance: string, snapshot: seq<Allowlist>, i: nat, j: nat): seq<Wanted>
    requires i < |snapshot| && j <= |snapshot[i].items|
  {
    Listing(instance, snapshot[..i]) + ItemsOfList(instance, snapshot[i].name, snapshot[i].items[..j])
  }

  lemma ListingSteps(instance: string, snapshot: seq<Allowlist>, i: nat)
    requires i < |snapshot|
    ensures ListingSoFar(instance, snapshot, i, 0) == Listing(instance, snapshot[..i])
    ensures ListingSoFar(instance, snapshot, i, |snapshot[i].items|) == Listing(instance, snapshot[..i + 1])
    ensures forall j :: 0 <= j < |snapshot[i].items| ==>
              ListingSoFar(instance, snapshot, i, j + 1) == ListingSoFar(instance, snapshot, i, j)
                + [Wanted(ItemKey(instance, snapshot[i].name, snapshot[i].items[j].value), snapshot[i].items[j].row)]
  {
    var items := snapshot[i].items;
    assert items[..|items|] == items && snapshot[..i + 1][..i] == snapshot[..i];
    forall j | 0 <= j < |items|
      ensures ListingSoFar(instance, snapshot, i, j + 1) == ListingSoFar(instance, snapshot, i, j)
                + [Wanted(ItemKey(instance, snapshot[i].name, items[j].value), items[j].row)]
    {
      assert items[..j + 1][..j] == items[..j];
    }
  }

  /** The cached lists of the instance that are not among `done`, under their names. */
  ghost predicate StaleLists(stale: map<string, ListRow>, table: map<ListKey, ListRow>, instance: string,
      done: map<ListKey, ListRow>) {
    && (forall name :: name in stale <==> ListKey(instance, name) in table && ListKey(instance, name) !in done)
    && (forall name :: name in stale ==> stale[name] == table[ListKey(instance, name)])
  }

  class AllowlistTables {
    var lists: map<ListKey, ListRow>
    var items: map<ItemKey, ItemRow>
    var states: map<string, string>

    constructor (lists: map<ListKey, ListRow>, items: map<ItemKey, ItemRow>)
      ensures this.lists == lists && this.items == items
    {
      this.lists, this.items, states := lists, items, map[];
    }

    /** Upserts the lists that are new or changed; `stale` are the cached names the snapshot lacks. */
    method UpsertLists(instance: string, snapshot: seq<Allowlist>) returns (writes: nat, stale: map<string, ListRow>)
      modifies this`lists
      ensures lists == old(lists) + WantedLists(instance, snapshot)
      ensures writes == 0 <==> DistinctNames(snapshot) && Within(WantedLists(instance, snapshot), old(lists))
      ensures StaleLists(stale, old(lists), instance, WantedLists(instance, snapshot))
    {
      stale := map k | k in lists && k.instance == instance :: k.name := lists[k];
      writes := 0;
      for i := 0 to |snapshot|
        invariant lists == old(lists) + WantedLists(instance, snapshot[..i])
        invariant writes == 0 <==> ListedAlready(old(lists), instance, snapshot, i)
        invariant StaleLists(stale, old(lists), instance, WantedLists(instance, snapshot[..i]))
      {
        WantedListsStep(instance, snapshot, i);
        ListedAlreadyStep(old(lists), instance, snapshot, i);
        var wrote;
        wrote, stale := UpsertList(instance, snapshot[i], stale, old(lists), WantedLists(instance, snapshot[..i]));
        writes := writes + wrote;
      }
      assert snapshot[..|snapshot|] == snapshot;
    }

    method UpsertList(instance: string, list: Allowlist, cached: map<string, ListRow>,
        ghost before: map<ListKey, ListRow>, ghost done: map<ListKey, ListRow>)
      returns (wrote: nat, rest: map<string, ListRow>)
      requires lists == before + done && StaleLists(cached, before, instance, done)
      modifies this`lists
      ensures var after := done[ListKey(instance, list.name) := RowOf(list)];
              lists == before + after && StaleLists(rest, before, instance, after)
      ensures wrote == 0 <==> SameList(before, done, instance, list)
    {
      var key := ListKey(instance, list.name);
      UnionStep(before, done, key, RowOf(list));
      var same := list.name in cached && cached[list.name] == RowOf(list);
      rest := cached - {list.name};
      wrote := 0;
      if !same {
        lists := lists[key := RowOf(list)];
        wrote := 1;
      }
    }

    method DeleteStaleLists(instance: string, stale: set<string>) returns (writes: nat)
      modifies this`lists, this`items
      ensures lists == KeptLists(old(lists), instance, stale) && items == KeptItems(old(items), instance, stale)
      ensures writes == 0 <==> stale == {}
    {
      writes := 0;
      var names := ToSeq(stale);
      for i := 0 to |names|
        invariant lists == KeptLists(old(lists), instance, Elements(names[..i]))
        invariant items == KeptItems(old(items), instance, Elements(names[..i]))
        invariant writes == i
      {
        DropOneMore(old(lists), old(items), instance, names, i);
        lists := lists - {ListKey(instance, names[i])};
        items := KeptItems(items, instance, {names[i]});
        writes := writes + 1;
      }
      assert |names| > 0 ==> names[0] in names;
      assert names[..|names|] == names && Elements(names) == stale;
    }

    method CachedItems(instance: string) returns (cached: map<string, Cached>)
      ensures LookupOf(cached, items, instance)
    {
      cached := map[];
      var keys := ToSeq(set k | k in items && k.instance == instance);
      for i := 0 to |keys|
        invariant forall t :: t in cached ==>
          && cached[t].key in items && cached[t].key.instance == instance
          && t == TextOf(cached[t].key) && cached[t].row == items[cached[t].key]
        invariant forall j :: 0 <= j < i ==> TextOf(keys[j]) in cached
      {
        assert keys[i] in keys;
        cached := cached[TextOf(keys[i]) := Cached(keys[i], items[keys[i]])];
      }
      forall k | k in items && k.instance == instance ensures TextOf(k) in cached {
        assert k in keys;
      }
    }

    /** Upserts the items that are new or changed; what stays in the lookup is stale. */
    method UpsertItems(instance: string, snapshot: seq<Allowlist>, lookup: map<string, Cached>)
      returns (writes: nat, stale: map<string, Cached>)
      modifies this`items
      ensures Diff(items, stale, writes) == ClaimAll(Diff(old(items), lookup, 0), Listing(instance, snapshot))
    {
      stale, writes := lookup, 0;
      ghost var start := Diff(items, lookup, 0);
      for i := 0 to |snapshot|
        invariant Diff(items, stale, writes) == ClaimAll(start, Listing(instance, snapshot[..i]))
      {
        var list := snapshot[i];
        ListingSteps(instance, snapshot, i);
        for j := 0 to |list.items|
          invariant Diff(items, stale, writes) == ClaimAll(start, ListingSoFar(instance, snapshot, i, j))
        {
          var item := list.items[j];
          var key := ItemKey(instance, list.name, item.value);
          ClaimOneMore(start, ListingSoFar(instance, snapshot, i, j), Wanted(key, item.row));
          var text := CacheKey(list.name, item.value);
          var same := text in stale && stale[text].row == item.row;
          stale := stale - {text};
          if !same {
            items := items[key := item.row];
            writes := writes + 1;
          }
        }
      }
      assert snapshot[..|snapshot|] == snapshot;
    }

    method DeleteStaleItems(stale: map<string, Cached>) returns (writes: nat)
      modifies this`items
      ensures items == old(items) - WaitingKeys(stale) && writes == |stale|
    {
      writes := 0;
      var texts := ToSeq(stale.Keys);
      for i := 0 to |texts|
        invariant items == old(items) - (set t | t in stale && t in texts[..i] :: stale[t].key)
        invariant writes == i
      {
        assert texts[i] in texts;
        items := items - {stale[texts[i]].key};
        writes := writes + 1;
      }
      assert texts[..|texts|] == texts;
      assert (set t | t in stale && t in texts[..|texts|] :: stale[t].key) == WaitingKeys(stale);
      SizeOfDistinct(texts);
      assert Elements(texts) == stale.Keys;
    }

    method SyncLists(instance: string, snapshot: seq<Allowlist>) returns (writes: nat)
      modifies this`lists, this`items
      ensures lists == ReplaceLists(old(lists), instance, WantedLists(instance, snapshot))
      ensures items == CachedItemsOf(old(lists), old(items), instance, snapshot)
      ensures writes == 0 <==> DistinctNames(snapshot) && lists == old(lists)
      ensures writes == 0 ==> items == old(items)
    {
      var stale;
      writes, stale := UpsertLists(instance, snapshot);
      var deletes := DeleteStaleLists(instance, stale.Keys);
      forall k | k in WantedLists(instance, snapshot) ensures k.instance == instance {
        WantedListIsListed(instance, snapshot, k);
      }
      StaleAreNames(stale, old(lists), instance, snapshot);
      ListsReplaced(old(lists), instance, WantedLists(instance, snapshot), stale.Keys);
      ListsUnchangedIff(old(lists), instance, WantedLists(instance, snapshot), stale.Keys);
      writes := writes + deletes;
    }

    method SyncItems(instance: string, snapshot: seq<Allowlist>)
      returns (writes: nat, ghost lookup: map<string, Cached>)
      modifies this`items
      ensures LookupOf(lookup, old(items), instance)
      ensures Diff(items, map[], writes) == AllowlistDiff.SyncItems(old(items), lookup, Listing(instance, snapshot))
    {
      var cached := CachedItems(instance);
      lookup := cached;
      var stale;
      writes, stale := UpsertItems(instance, snapshot, cached);
      var deletes := DeleteStaleItems(stale);
      writes := writes + deletes;
    }

    /** The transaction over a snapshot: lists first, then items. */
    method ReplaceAll(instance: string, snapshot: seq<Allowlist>)
      returns (writes: nat, ghost lookup: map<string, Cached>)
      modifies this`lists, this`items
      ensures lists == ReplaceLists(old(lists), instance, WantedLists(instance, snapshot))
      ensures Compared(old(lists), old(items), instance, snapshot, lookup, items)
      ensures ClaimableHere(old(lists), old(items), instance, snapshot) ==>
                && items == ReplaceItems(old(items), instance, WantedItems(instance, snapshot))
                && (writes == 0 <==> NothingRepeats(instance, snapshot) && lists == old(lists) && items == old(items))
    {
      writes := SyncLists(instance, snapshot);
      ghost var cached := items;
      NothingStaleKeepsItems(old(lists), old(items), instance, snapshot);
      var itemWrites;
      itemWrites, lookup := SyncItems(instance, snapshot);
      writes := writes + itemWrites;
      if ClaimableHere(old(lists), old(items), instance, snapshot) {
        ClaimableHereReplaces(old(lists), old(items), instance, snapshot, lookup);
        assert itemWrites == 0 <==> DistinctKeys(Listing(instance, snapshot)) && items == cached;
      }
    }

    /** replaceAllowlists. The lists become the snapshot's, and so do the items when every cached key can only
        be claimed by its own item; other instances keep theirs, and `changed` says whether anything was
        written, which is also so when the snapshot names a list or an item twice. A missing snapshot only
        stores the state. */
    method ReplaceAllowlists(instance: string, allowlists: Option<seq<Allowlist>>, syncState: string)
      returns (changed: bool, writes: nat, ghost lookup: map<string, Cached>)
      modifies this
      ensures states == old(states)[instance := syncState]
      ensures changed <==> writes != 0
      ensures allowlists.None? ==> lists == old(lists) && items == old(items) && !changed
      ensures allowlists.Some? ==>
                && lists == ReplaceLists(old(lists), instance, WantedLists(instance, allowlists.value))
                && Compared(old(lists), old(items), instance, allowlists.value, lookup, items)
      ensures allowlists.Some? && ClaimableHere(old(lists), old(items), instance, allowlists.value) ==>
                && items == ReplaceItems(old(items), instance, WantedItems(instance, allowlists.value))
                && (changed <==>
                    !NothingRepeats(instance, allowlists.value) || lists != old(lists) || items != old(items))
    {
      changed, writes, lookup := false, 0, map[];
      states := states[instance := syncState];
      if allowlists.Some? {
        writes, lookup := ReplaceAll(instance, allowlists.value);
        changed := writes != 0;
      }
    }
  }

  /** The items are the outcome of the diff under some lookup of the cached ones. */
  ghost predicate Compared(lists: map<ListKey, ListRow>, items: map<ItemKey, ItemRow>, instance: string,
      snapshot: seq<Allowlist>, lookup: map<string, Cached>, after: map<ItemKey, ItemRow>) {
    var cached := CachedItemsOf(lists, items, instance, snapshot);
    LookupOf(lookup, cached, instance) &&
      after == AllowlistDiff.SyncItems(cached, lookup, Listing(instance, snapshot)).items
  }

  ghost predicate ClaimableHere(lists: map<ListKey, ListRow>, items: map<ItemKey, ItemRow>, instance: string,
      snapshot: seq<Allowlist>) {
    Claimable(KeysOf(CachedItemsOf(lists, items, instance, snapshot), instance),
      WantedKeys(Listing(instance, snapshot)))
  }

  lemma ClaimableHereReplaces(lists: map<ListKey, ListRow>, items: map<ItemKey, ItemRow>, instance: string,
      snapshot: seq<Allowlist>, lookup: map<string, Cached>)
    requires ClaimableHere(lists, items, instance, snapshot)
    requires LookupOf(lookup, CachedItemsOf(lists, items, instance, snapshot), instance)
    ensures var cached := CachedItemsOf(lists, items, instance, snapshot);
            var r := AllowlistDiff.SyncItems(cached, lookup, Listing(instance, snapshot));
            && r.items == ReplaceItems(items, instance, WantedItems(instance, snapshot))
            && (r.writes == 0 <==> DistinctKeys(Listing(instance, snapshot)) && r.items == cached)
  {
    var cached, wanted := CachedItemsOf(lists, items, instance, snapshot), Listing(instance, snapshot);
    forall p | 0 <= p < |wanted| ensures wanted[p].key.instance == instance {
      ListingIsListed(instance, snapshot, p);
    }
    ClaimableReplaces(cached, lookup, instance, wanted);
    KeptItemsReplaced(items, instance, StaleNames(lists, instance, snapshot), RowsOf(wanted));
  }

  lemma KeptItemsReplaced(items: map<ItemKey, ItemRow>, instance: string, stale: set<string>,
      rows: map<ItemKey, ItemRow>)
    ensures ReplaceItems(KeptItems(items, instance, stale), instance, rows) == ReplaceItems(items, instance, rows)
  {
  }

  /** Where replacing the lists changes none, none was stale. */
  lemma NothingStaleKeepsItems(lists: map<ListKey, ListRow>, items: map<ItemKey, ItemRow>, instance: string,
      snapshot: seq<Allowlist>)
    ensures ReplaceLists(lists, instance, WantedLists(instance, snapshot)) == lists ==>
              CachedItemsOf(lists, items, instance, snapshot) == items
  {
    var r := ReplaceLists(lists, instance, WantedLists(instance, snapshot));
    if r == lists {
      assert forall k :: k in lists && k.instance == instance ==> k in r;
      assert StaleNames(lists, instance, snapshot) == {};
    }
  }

  lemma StaleAreNames(stale: map<string, ListRow>, lists: map<ListKey, ListRow>, instance: string,
      snapshot: seq<Allowlist>)
    requires StaleLists(stale, lists, instance, WantedLists(instance, snapshot))
    ensures stale.Keys == StaleNames(lists, instance, snapshot)
  {
    forall name | name in stale ensures name in StaleNames(lists, instance, snapshot) {
      assert ListKey(instance, name).name == name;
    }
    forall k: ListKey | k.instance == instance ensures k == ListKey(instance, k.name) {
    }
  }

  lemma ListsReplaced(table: map<ListKey, ListRow>, instance: string, wanted: map<ListKey, ListRow>, stale: set<string>)
    requires forall k :: k in wanted ==> k.instance == instance
    requires forall name :: name in stale <==> ListKey(instance, name) in table && ListKey(instance, name) !in wanted
    ensures KeptLists(table + wanted, instance, stale) == ReplaceLists(table, instance, wanted)
  {
    forall k: ListKey | k.instance == instance ensures k == ListKey(instance, k.name) {
    }
  }

  lemma ListsUnchangedIff(table: map<ListKey, ListRow>, instance: string, wanted: map<ListKey, ListRow>,
      stale: set<string>)
    requires forall name :: name in stale <==> ListKey(instance, name) in table && ListKey(instance, name) !in wanted
    ensures (Within(wanted, table) && stale == {}) <==> ReplaceLists(table, instance, wanted) == table
  {
    var r := ReplaceLists(table, instance, wanted);
    if Within(wanted, table) && stale == {} {
      forall k: ListKey | k.instance == instance ensures k == ListKey(instance, k.name) {
      }
      assert forall k :: k in table && k.instance == instance ==> k.name !in stale;
    }
    assert forall k :: k in wanted ==> k in r && r[k] == wanted[k];
    forall name | name in stale ensures ListKey(instance, name) in table && ListKey(instance, name) !in r {
    }
  }

  /** A second run with the same snapshot finds what the first left, when neither the cached keys nor the
      wanted ones among themselves share a text: it changes no row, and writes nothing exactly when the
      snapshot names no list and no item twice. */
  method ReplaceTwice(tables: AllowlistTables, instance: string, snapshot: seq<Allowlist>, syncState: string)
    returns (again: nat)
    requires ClaimableHere(tables.lists, tables.items, instance, snapshot)
    requires Claimable(WantedItems(instance, snapshot).Keys, WantedKeys(Listing(instance, snapshot)))
    modifies tables
    ensures again == 0 <==> NothingRepeats(instance, snapshot)
    ensures tables.lists == ReplaceLists(old(tables.lists), instance, WantedLists(instance, snapshot))
    ensures tables.items == ReplaceItems(old(tables.items), instance, WantedItems(instance, snapshot))
  {
    var _, _, _ := tables.ReplaceAllowlists(instance, Some(snapshot), syncState);
    SecondRunSeesItself(old(tables.lists), old(tables.items), instance, snapshot);
    var changed, writes, _ := tables.ReplaceAllowlists(instance, Some(snapshot), syncState);
    again := writes;
  }

  lemma SecondRunSeesItself(lists: map<ListKey, ListRow>, items: map<ItemKey, ItemRow>, instance: string,
      snapshot: seq<Allowlist>)
    requires Claimable(WantedItems(instance, snapshot).Keys, WantedKeys(Listing(instance, snapshot)))
    ensures var l := ReplaceLists(lists, instance, WantedLists(instance, snapshot));
            var r := ReplaceItems(items, instance, WantedItems(instance, snapshot));
            && ReplaceLists(l, instance, WantedLists(instance, snapshot)) == l
            && ReplaceItems(r, instance, WantedItems(instance, snapshot)) == r
            && ClaimableHere(l, r, instance, snapshot)
  {
    var l := ReplaceLists(lists, instance, WantedLists(instance, snapshot));
    var r := ReplaceItems(items, instance, WantedItems(instance, snapshot));
    ReplacedAgain(lists, items, instance, WantedLists(instance, snapshot), WantedItems(instance, snapshot));
    NothingStaleKeepsItems(l, r, instance, snapshot);
    forall k | k in WantedItems(instance, snapshot) ensures k.instance == instance {
      WantedItemIsListed(instance, snapshot, k);
    }
    ReplacedKeys(items, instance, WantedItems(instance, snapshot));
  }

  lemma ReplacedAgain(lists: map<ListKey, ListRow>, items: map<ItemKey, ItemRow>, instance: string,
      wantedLists: map<ListKey, ListRow>, wantedItems: map<ItemKey, ItemRow>)
    ensures var l := ReplaceLists(lists, instance, wantedLists); ReplaceLists(l, instance, wantedLists) == l
    ensures var r := ReplaceItems(items, instance, wantedItems); ReplaceItems(r, instance, wantedItems) == r
  {
  }

  lemma ReplacedKeys(items: map<ItemKey, ItemRow>, instance: string, wanted: map<ItemKey, ItemRow>)
    requires forall k :: k in wanted ==> k.instance == instance
    ensures KeysOf(ReplaceItems(items, instance, wanted), instance) == wanted.Keys
  {
  }

  const PLAIN := ItemRow(None, None, None)

  /** List `a` keeps its name and loses its item; a list `a NUL b` comes with the item `c`. */
  function FailingSnapshot(): seq<Allowlist> {
    [Allowlist("a", None, None, None, None, false, []),
     Allowlist("a\0b", None, None, None, None, false, [Item("c", PLAIN)])]
  }

  /** A snapshot that fails: cached under list `a` is the item `b NUL c`. It stays although the snapshot lacks
      it, and the snapshot's own item is never written. */
  method FailingReplacement(instance: string) returns (tables: AllowlistTables)
    ensures Snapshot(FailingSnapshot())
    ensures tables.items.Keys == {ItemKey(instance, "a", "b\0c")}
    ensures WantedItems(instance, FailingSnapshot()).Keys == {ItemKey(instance, "a\0b", "c")}
  {
    var row := ListRow(None, None, None, None, 0);
    var lists, items := map[ListKey(instance, "a") := row], map[ItemKey(instance, "a", "b\0c") := PLAIN];
    ghost var lookup;
    tables, lookup := ReplaceIn(lists, items, instance, FailingSnapshot());
    FailingOutcome(instance, lists, items, lookup, tables.items);
    FailingListing(instance);
  }

  method ReplaceIn(lists: map<ListKey, ListRow>, items: map<ItemKey, ItemRow>, instance: string,
      snapshot: seq<Allowlist>)
    returns (tables: AllowlistTables, ghost lookup: map<string, Cached>)
    ensures Compared(lists, items, instance, snapshot, lookup, tables.items)
  {
    tables := new AllowlistTables(lists, items);
    var changed, writes;
    changed, writes, lookup := tables.ReplaceAllowlists(instance, Some(snapshot), "");
  }

  lemma FailingOutcome(instance: string, lists: map<ListKey, ListRow>, items: map<ItemKey, ItemRow>,
      lookup: map<string, Cached>, after: map<ItemKey, ItemRow>)
    requires lists.Keys == {ListKey(instance, "a")} && items == map[ItemKey(instance, "a", "b\0c") := PLAIN]
    requires Compared(lists, items, instance, FailingSnapshot(), lookup, after)
    ensures after == items
  {
    FailingListing(instance);
    NothingStale(lists, items, instance, FailingSnapshot());
    FailingDiff(items, lookup, instance, ItemKey(instance, "a", "b\0c"), ItemKey(instance, "a\0b", "c"), PLAIN);
  }

  lemma NothingStale(lists: map<ListKey, ListRow>, items: map<ItemKey, ItemRow>, instance: string,
      snapshot: seq<Allowlist>)
    requires DistinctNames(snapshot) && |snapshot| > 0 && lists.Keys == {ListKey(instance, snapshot[0].name)}
    ensures CachedItemsOf(lists, items, instance, snapshot) == items
  {
    ListedListIsWanted(instance, snapshot, 0);
    assert StaleNames(lists, instance, snapshot) == {};
  }

  lemma FailingListing(instance: string)
    ensures Snapshot(FailingSnapshot())
    ensures Listing(instance, FailingSnapshot()) == [Wanted(ItemKey(instance, "a\0b", "c"), PLAIN)]
    ensures WantedItems(instance, FailingSnapshot()).Keys == {ItemKey(instance, "a\0b", "c")}
  {
    var snapshot, w := FailingSnapshot(), Wanted(ItemKey(instance, "a\0b", "c"), PLAIN);
    var kept, added := snapshot[0], snapshot[1];
    assert |kept.name| != |added.name|;
    assert snapshot[..1] == [kept] && [kept][..0] == [];
    assert Listing(instance, [kept]) == [];
    assert added.items[..0] == [];
    assert ItemsOfList(instance, added.name, added.items) == [w];
    assert Listing(instance, snapshot) == [w];
    RowsOfHolds([w]);
  }

  lemma FailingDiff(items: map<ItemKey, ItemRow>, lookup: map<string, Cached>, instance: string, old1: ItemKey,
      new1: ItemKey, row: ItemRow)
    requires old1 == ItemKey(instance, "a", "b\0c") && new1 == ItemKey(instance, "a\0b", "c")
    requires items == map[old1 := row] && LookupOf(lookup, items, instance)
    ensures AllowlistDiff.SyncItems(items, lookup, [Wanted(new1, row)]).items == items
  {
    KeysCollide("a", "b", "c");
    var w := [Wanted(new1, row)];
    assert TextOf(new1) == TextOf(old1);
    assert old1 in items;
    assert lookup[TextOf(old1)] == Cached(old1, row);
    assert lookup.Keys == {TextOf(old1)};
    assert lookup - {TextOf(old1)} == map[];
    ClaimOneMore(Diff(items, lookup, 0), [], w[0]);
    assert [] + [w[0]] == w;
    assert ClaimAll(Diff(items, lookup, 0), w) == Diff(items, map[], 0);
    assert WaitingKeys(map[]) == {};
  }

  /** Such items exist as soon as a list name may hold NUL. */
  lemma KeysCollide(name: string, inner: string, value: string)
    ensures CacheKey(name + "\0" + inner, value) == CacheKey(name, inner + "\0" + value)
  {
    assert name + "\0" + inner + "\0" + value == name + "\0" + (inner + "\0" + value);
  }
}
