/** Making one instance's cached allowlists match a snapshot by writing only the rows that differ. */
module AllowlistSync {
  import opened Wrappers

  datatype ListKey = ListKey(instance: string, name: string)

  datatype ItemKey = ItemKey(instance: string, list: string, value: string)

  datatype ListRow = ListRow(
    allowlistId: Option<string>, description: Option<string>, createdAt: Option<string>, updatedAt: Option<string>,
    consoleManaged: int)

  datatype ItemRow = ItemRow(description: Option<string>, createdAt: Option<string>, expiration: Option<string>)

  /** A list and an item of the snapshot; fields the API leaves out are `None`. */
  datatype Allowlist = Allowlist(
    name: string, allowlistId: Option<string>, description: Option<string>, createdAt: Option<string>,
    updatedAt: Option<string>, consoleManaged: bool, items: seq<Item>)

  datatype Item = Item(value: string, row: ItemRow)

  function RowOf(list: Allowlist): ListRow {
    ListRow(list.allowlistId, list.description, list.createdAt, list.updatedAt, if list.consoleManaged then 1 else 0)
  }

  // ---- Wholesale replacement ----

  function WantedLists(instance: string, snapshot: seq<Allowlist>): map<ListKey, ListRow> {
    if snapshot == [] then map[]
    else
      var last := snapshot[|snapshot| - 1];
      WantedLists(instance, snapshot[..|snapshot| - 1])[ListKey(instance, last.name) := RowOf(last)]
  }

  /** An item of the snapshot as a row. */
  datatype Wanted = Wanted(key: ItemKey, row: ItemRow)

  function ItemsOfList(instance: string, list: string, items: seq<Item>): seq<Wanted> {
    if items == [] then []
    else
      var last := items[|items| - 1];
      ItemsOfList(instance, list, items[..|items| - 1]) + [Wanted(ItemKey(instance, list, last.value), last.row)]
  }

  /** The items of the snapshot in order. */
  function Listing(instance: string, snapshot: seq<Allowlist>): seq<Wanted> {
    if snapshot == [] then []
    else
      var last := snapshot[|snapshot| - 1];
      Listing(instance, snapshot[..|snapshot| - 1]) + ItemsOfList(instance, last.name, last.items)
  }

  function RowsOf(wanted: seq<Wanted>): map<ItemKey, ItemRow> {
    if wanted == [] then map[]
    else RowsOf(wanted[..|wanted| - 1])[wanted[|wanted| - 1].key := wanted[|wanted| - 1].row]
  }

  function WantedItems(instance: string, snapshot: seq<Allowlist>): map<ItemKey, ItemRow> {
    RowsOf(Listing(instance, snapshot))
  }

  function ReplaceLists(table: map<ListKey, ListRow>, instance: string, wanted: map<ListKey, ListRow>)
    : map<ListKey, ListRow> {
    (map k | k in table && k.instance != instance :: table[k]) + wanted
  }

  function ReplaceItems(table: map<ItemKey, ItemRow>, instance: string, wanted: map<ItemKey, ItemRow>)
    : map<ItemKey, ItemRow> {
    (map k | k in table && k.instance != instance :: table[k]) + wanted
  }

  ghost predicate DistinctNames(snapshot: seq<Allowlist>) {
    forall i, j :: 0 <= i < j < |snapshot| ==> snapshot[i].name != snapshot[j].name
  }

  ghost predicate DistinctValues(items: seq<Item>) {
    forall i, j :: 0 <= i < j < |items| ==> items[i].value != items[j].value
  }

  ghost predicate Snapshot(snapshot: seq<Allowlist>) {
    DistinctNames(snapshot) && forall i :: 0 <= i < |snapshot| ==> DistinctValues(snapshot[i].items)
  }

  /** No list name and no item of a list comes twice. */
  ghost predicate NothingRepeats(instance: string, snapshot: seq<Allowlist>) {
    DistinctNames(snapshot) && DistinctKeys(Listing(instance, snapshot))
  }

  lemma {:induction false} WantedListIsListed(instance: string, snapshot: seq<Allowlist>, k: ListKey)
    requires k in WantedLists(instance, snapshot)
    ensures k.instance == instance && exists i :: 0 <= i < |snapshot| && snapshot[i].name == k.name
    decreases |snapshot|
  {
    var init, last := snapshot[..|snapshot| - 1], snapshot[|snapshot| - 1];
    if k == ListKey(instance, last.name) {
      assert snapshot[|snapshot| - 1].name == k.name;
    } else {
      WantedListIsListed(instance, init, k);
      var i :| 0 <= i < |init| && init[i].name == k.name;
      assert snapshot[i].name == k.name;
    }
  }

  /** Every list of the snapshot is wanted, with its own fields. */
  lemma {:induction false} ListedListIsWanted(instance: string, snapshot: seq<Allowlist>, i: nat)
    requires DistinctNames(snapshot) && i < |snapshot|
    ensures var k := ListKey(instance, snapshot[i].name);
            k in WantedLists(instance, snapshot) && WantedLists(instance, snapshot)[k] == RowOf(snapshot[i])
    decreases |snapshot|
  {
    if i < |snapshot| - 1 {
      ListedListIsWanted(instance, snapshot[..|snapshot| - 1], i);
    }
  }

  /** After a replacement every list of the snapshot reads back its own fields, and every other instance's
      list is as it was. */
  lemma ListReadsBack(table: map<ListKey, ListRow>, instance: string, snapshot: seq<Allowlist>, i: nat, k: ListKey)
    requires DistinctNames(snapshot) && i < |snapshot|
    ensures var r := ReplaceLists(table, instance, WantedLists(instance, snapshot));
            var key := ListKey(instance, snapshot[i].name);
            && key in r
            && r[key].allowlistId == snapshot[i].allowlistId && r[key].description == snapshot[i].description
            && r[key].createdAt == snapshot[i].createdAt && r[key].updatedAt == snapshot[i].updatedAt
            && r[key].consoleManaged == (if snapshot[i].consoleManaged then 1 else 0)
            && (k.instance != instance ==> (k in r <==> k in table) && (k in table ==> r[k] == table[k]))
            && (k.instance == instance && k in r ==> exists j :: 0 <= j < |snapshot| && snapshot[j].name == k.name)
  {
    ListedListIsWanted(instance, snapshot, i);
    if k in WantedLists(instance, snapshot) {
      WantedListIsListed(instance, snapshot, k);
    }
  }

  /** And every item of it its own fields, under its list; every other instance's item is as it was. */
  lemma ItemReadsBack(table: map<ItemKey, ItemRow>, instance: string, snapshot: seq<Allowlist>, i: nat, j: nat,
      k: ItemKey)
    requires Snapshot(snapshot) && i < |snapshot| && j < |snapshot[i].items|
    ensures var r := ReplaceItems(table, instance, WantedItems(instance, snapshot));
            var key := ItemKey(instance, snapshot[i].name, snapshot[i].items[j].value);
            && key in r && r[key] == snapshot[i].items[j].row
            && (k.instance != instance ==> (k in r <==> k in table) && (k in table ==> r[k] == table[k]))
            && (k.instance == instance && k in r ==>
                  exists n :: 0 <= n < |snapshot| && ListedIn(Wanted(k, r[k]), instance, snapshot[n]))
  {
    ListedItemIsWanted(instance, snapshot, i, j);
    if k in WantedItems(instance, snapshot) {
      WantedItemIsListed(instance, snapshot, k);
    }
  }

  lemma {:induction false} ItemsOfListHolds(instance: string, list: string, items: seq<Item>)
    ensures |ItemsOfList(instance, list, items)| == |items|
    ensures forall i :: 0 <= i < |items| ==>
              ItemsOfList(instance, list, items)[i] == Wanted(ItemKey(instance, list, items[i].value), items[i].row)
    decreases |items|
  {
    if items != [] {
      ItemsOfListHolds(instance, list, items[..|items| - 1]);
    }
  }

  /** The row of some item of this list. */
  ghost predicate ListedIn(w: Wanted, instance: string, list: Allowlist) {
    exists j :: 0 <= j < |list.items| &&
      w == Wanted(ItemKey(instance, list.name, list.items[j].value), list.items[j].row)
  }

  ghost predicate DistinctKeys(wanted: seq<Wanted>) {
    forall i, j :: 0 <= i < j < |wanted| ==> wanted[i].key != wanted[j].key
  }

  lemma {:induction false} ListingIsListed(instance: string, snapshot: seq<Allowlist>, p: nat)
    requires p < |Listing(instance, snapshot)|
    ensures exists i :: 0 <= i < |snapshot| && ListedIn(Listing(instance, snapshot)[p], instance, snapshot[i])
    decreases |snapshot|
  {
    var init, last := snapshot[..|snapshot| - 1], snapshot[|snapshot| - 1];
    ItemsOfListHolds(instance, last.name, last.items);
    if p < |Listing(instance, init)| {
      ListingIsListed(instance, init, p);
      var i :| 0 <= i < |init| && ListedIn(Listing(instance, init)[p], instance, init[i]);
      assert ListedIn(Listing(instance, snapshot)[p], instance, snapshot[i]);
    } else {
      assert ListedIn(Listing(instance, snapshot)[p], instance, snapshot[|snapshot| - 1]);
    }
  }

  lemma {:induction false} ListingIsDistinct(instance: string, snapshot: seq<Allowlist>)
    requires Snapshot(snapshot)
    ensures DistinctKeys(Listing(instance, snapshot))
    decreases |snapshot|
  {
    if snapshot != [] {
      var init, last := snapshot[..|snapshot| - 1], snapshot[|snapshot| - 1];
      ListingIsDistinct(instance, init);
      ItemsOfListHolds(instance, last.name, last.items);
      forall p | 0 <= p < |Listing(instance, init)| ensures Listing(instance, init)[p].key.list != last.name {
        ListingIsListed(instance, init, p);
        var i :| 0 <= i < |init| && ListedIn(Listing(instance, init)[p], instance, init[i]);
      }
    }
  }

  lemma {:induction false} RowsOfHolds(wanted: seq<Wanted>)
    ensures RowsOf(wanted).Keys == set i | 0 <= i < |wanted| :: wanted[i].key
    ensures DistinctKeys(wanted) ==> forall i :: 0 <= i < |wanted| ==>
            wanted[i].key in RowsOf(wanted) && RowsOf(wanted)[wanted[i].key] == wanted[i].row
    ensures forall k :: k in RowsOf(wanted) ==> Wanted(k, RowsOf(wanted)[k]) in wanted
    decreases |wanted|
  {
    if wanted != [] {
      var init := wanted[..|wanted| - 1];
      RowsOfHolds(init);
      assert wanted == init + [wanted[|wanted| - 1]];
      forall i | 0 <= i < |wanted| ensures wanted[i].key in RowsOf(wanted) {
        assert i < |init| ==> wanted[i] == init[i];
      }
    }
  }

  /** The wanted rows are of the snapshot's items, each under its list. */
  lemma WantedItemIsListed(instance: string, snapshot: seq<Allowlist>, k: ItemKey)
    requires k in WantedItems(instance, snapshot)
    ensures k.instance == instance
    ensures exists i ::
            0 <= i < |snapshot| && ListedIn(Wanted(k, WantedItems(instance, snapshot)[k]), instance, snapshot[i])
  {
    var wanted := Listing(instance, snapshot);
    RowsOfHolds(wanted);
    var p :| 0 <= p < |wanted| && wanted[p] == Wanted(k, WantedItems(instance, snapshot)[k]);
    ListingIsListed(instance, snapshot, p);
  }

  lemma {:induction false} ListedIsInListing(instance: string, snapshot: seq<Allowlist>, i: nat, j: nat)
    requires i < |snapshot| && j < |snapshot[i].items|
    ensures Wanted(ItemKey(instance, snapshot[i].name, snapshot[i].items[j].value), snapshot[i].items[j].row)
            in Listing(instance, snapshot)
    decreases |snapshot|
  {
    var init, last := snapshot[..|snapshot| - 1], snapshot[|snapshot| - 1];
    if i < |init| {
      ListedIsInListing(instance, init, i, j);
    } else {
      ItemsOfListHolds(instance, last.name, last.items);
      assert ItemsOfList(instance, last.name, last.items)[j] in ItemsOfList(instance, last.name, last.items);
    }
  }

  /** Every item of the snapshot is wanted, with its own fields. */
  lemma ListedItemIsWanted(instance: string, snapshot: seq<Allowlist>, i: nat, j: nat)
    requires Snapshot(snapshot) && i < |snapshot| && j < |snapshot[i].items|
    ensures var k := ItemKey(instance, snapshot[i].name, snapshot[i].items[j].value);
            k in WantedItems(instance, snapshot) && WantedItems(instance, snapshot)[k] == snapshot[i].items[j].row
  {
    ListedIsInListing(instance, snapshot, i, j);
    ListingIsDistinct(instance, snapshot);
    RowsOfHolds(Listing(instance, snapshot));
  }

  // ---- The item key ----

  /** The text under which a cached item waits to be claimed. */
  function CacheKey(list: string, value: string): string {
    list + "\0" + value
  }

  predicate NoNul(s: string) {
    forall i :: 0 <= i < |s| ==> s[i] != '\0'
  }

  /** Keys are apart as long as list names hold no NUL. */
  lemma {:induction false} CacheKeyInjective(a: string, x: string, b: string, y: string)
    requires NoNul(a) && NoNul(b) && CacheKey(a, x) == CacheKey(b, y)
    ensures a == b && x == y
    decreases |a|
  {
    var k, l := CacheKey(a, x), CacheKey(b, y);
    assert k[0] == l[0];
    if a == "" {
      assert b == "";
      assert k[1..] == x && l[1..] == y;
    } else {
      assert b != "";
      assert k[1..] == CacheKey(a[1..], x) && l[1..] == CacheKey(b[1..], y);
      CacheKeyInjective(a[1..], x, b[1..], y);
      assert a == [a[0]] + a[1..] && b == [b[0]] + b[1..];
    }
  }

  function TextOf(k: ItemKey): string { CacheKey(k.list, k.value) }
}
