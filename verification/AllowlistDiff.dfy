/** The diff of an instance's items against a snapshot: cached rows wait in a lookup under a text until
    the snapshot's items claim them one after the other. */
module AllowlistDiff {
  import opened Wrappers
  import opened AllowlistSync

  datatype Cached = Cached(key: ItemKey, row: ItemRow)

  /** The table, the cached rows not yet claimed, and the number of rows written. */
  datatype Diff = Diff(items: map<ItemKey, ItemRow>, lookup: map<string, Cached>, writes: nat)

  /** One item of the snapshot: a row waiting under its text with its fields spares the write. */
  function Claim(d: Diff, w: Wanted): Diff {
    var text := TextOf(w.key);
    if text in d.lookup && d.lookup[text].row == w.row then d.(lookup := d.lookup - {text})
    else Diff(d.items[w.key := w.row], d.lookup - {text}, d.writes + 1)
  }

  function ClaimAll(d: Diff, wanted: seq<Wanted>): Diff {
    if wanted == [] then d else Claim(ClaimAll(d, wanted[..|wanted| - 1]), wanted[|wanted| - 1])
  }

  function WaitingKeys(lookup: map<string, Cached>): set<ItemKey> {
    set text | text in lookup :: lookup[text].key
  }

  /** Rows nobody claimed are deleted. */
  function Finish(d: Diff): Diff {
    Diff(d.items - WaitingKeys(d.lookup), map[], d.writes + |d.lookup|)
  }

  function SyncItems(table: map<ItemKey, ItemRow>, lookup: map<string, Cached>, wanted: seq<Wanted>): Diff {
    Finish(ClaimAll(Diff(table, lookup, 0), wanted))
  }

  /** A lookup of the instance's rows: for each text one of the rows that have it, depending on the
      order in which the query returns them. */
  ghost predicate LookupOf(lookup: map<string, Cached>, table: map<ItemKey, ItemRow>, instance: string) {
    && (forall t :: t in lookup ==>
          && lookup[t].key in table && lookup[t].key.instance == instance
          && t == TextOf(lookup[t].key) && lookup[t].row == table[lookup[t].key])
    && (forall k :: k in table && k.instance == instance ==> TextOf(k) in lookup)
  }

  function KeysOf(table: map<ItemKey, ItemRow>, instance: string): set<ItemKey> {
    set k | k in table && k.instance == instance
  }

  function WantedKeys(wanted: seq<Wanted>): (keys: seq<ItemKey>)
    ensures |keys| == |wanted| && forall p :: 0 <= p < |wanted| ==> keys[p] == wanted[p].key
  {
    seq(|wanted|, p requires 0 <= p < |wanted| => wanted[p].key)
  }

  /** No two cached keys share a text, and a cached key is the first of the wanted ones with its text, if
      there are any. */
  ghost predicate Claimable(cached: set<ItemKey>, keys: seq<ItemKey>) {
    && (forall a, b :: a in cached && b in cached && TextOf(a) == TextOf(b) ==> a == b)
    && (forall a, p :: a in cached && 0 <= p < |keys| && TextOf(keys[p]) == TextOf(a) ==> ClaimedBy(a, keys, p))
  }

  ghost predicate ClaimedBy(a: ItemKey, keys: seq<ItemKey>, p: nat) {
    exists q :: 0 <= q <= p && q < |keys| && keys[q] == a
  }

  // ---- When every key is claimed by its own item ----

  /** The lookup holds the instance's rows that are not among `done`. */
  ghost predicate Mirrors(lookup: map<string, Cached>, table: map<ItemKey, ItemRow>, instance: string,
      done: set<ItemKey>) {
    && (forall t :: t in lookup ==>
          && lookup[t].key in table && lookup[t].key.instance == instance && lookup[t].key !in done
          && t == TextOf(lookup[t].key) && lookup[t].row == table[lookup[t].key])
    && (forall k :: k in table && k.instance == instance && k !in done ==> TextOf(k) in lookup)
  }

  /** The rows of `a` are in the table already. */
  ghost predicate Within<K, V>(a: map<K, V>, table: map<K, V>) {
    forall k :: k in a ==> k in table && table[k] == a[k]
  }

  ghost predicate Done(d: Diff, table: map<ItemKey, ItemRow>, instance: string, wanted: seq<Wanted>) {
    && d.items == table + RowsOf(wanted)
    && (d.writes == 0 <==> DistinctKeys(wanted) && Within(RowsOf(wanted), table))
    && Mirrors(d.lookup, table, instance, RowsOf(wanted).Keys)
  }

  lemma ClaimIsOwn(lookup: map<string, Cached>, table: map<ItemKey, ItemRow>, instance: string, wanted: seq<Wanted>,
      p: nat)
    requires p < |wanted| && Claimable(KeysOf(table, instance), WantedKeys(wanted))
    requires wanted[p].key.instance == instance && Mirrors(lookup, table, instance, RowsOf(wanted[..p]).Keys)
    ensures var k, t := wanted[p].key, TextOf(wanted[p].key);
            && (t in lookup <==> k in table && k !in RowsOf(wanted[..p]))
            && (t in lookup ==> lookup[t] == Cached(k, table[k]))
            && Mirrors(lookup - {t}, table, instance, RowsOf(wanted[..p]).Keys + {k})
  {
    var k, t := wanted[p].key, TextOf(wanted[p].key);
    RowsOfHolds(wanted[..p]);
    var done := RowsOf(wanted[..p]).Keys;
    forall a | a in KeysOf(table, instance) && TextOf(a) == t ensures a in done || a == k {
      assert ClaimedBy(a, WantedKeys(wanted), p);
      var q :| 0 <= q <= p && WantedKeys(wanted)[q] == a;
      assert q < p ==> wanted[..p][q].key in done;
    }
    if t in lookup {
      assert lookup[t].key in KeysOf(table, instance);
    }
    forall o | o in table && o.instance == instance && o !in done + {k} ensures TextOf(o) in lookup - {t} {
      assert o in KeysOf(table, instance);
    }
  }

  lemma WithinAdd<K, V>(a: map<K, V>, table: map<K, V>, k: K, v: V)
    requires k !in a
    ensures Within(a[k := v], table) <==> Within(a, table) && k in table && table[k] == v
  {
    if Within(a[k := v], table) {
      forall j | j in a ensures j in table && table[j] == a[j] {
        assert a[k := v][j] == a[j];
      }
      assert a[k := v][k] == v;
    }
  }

  /** Writing a row, or finding it there already, over a table that has some rows replaced. */
  lemma UnionStep<K, V>(table: map<K, V>, done: map<K, V>, k: K, v: V)
    ensures table + done[k := v] == (table + done)[k := v]
    ensures k !in done && k in table && table[k] == v ==> table + done[k := v] == table + done
  {
  }

  lemma OneMoreKey(wanted: seq<Wanted>, p: nat)
    requires p < |wanted|
    ensures DistinctKeys(wanted[..p + 1]) <==> DistinctKeys(wanted[..p]) && wanted[p].key !in RowsOf(wanted[..p])
    ensures RowsOf(wanted[..p + 1]) == RowsOf(wanted[..p])[wanted[p].key := wanted[p].row]
  {
    var rows, more := wanted[..p], wanted[..p + 1];
    RowsOfHolds(rows);
    assert more[..p] == rows;
    if DistinctKeys(more) {
      forall i | 0 <= i < p ensures rows[i].key != wanted[p].key {
        assert more[i].key != more[p].key;
      }
    }
  }

  lemma ClaimKeepsDone(d: Diff, table: map<ItemKey, ItemRow>, instance: string, wanted: seq<Wanted>, p: nat)
    requires p < |wanted| && Claimable(KeysOf(table, instance), WantedKeys(wanted))
    requires wanted[p].key.instance == instance && Done(d, table, instance, wanted[..p])
    ensures Done(Claim(d, wanted[p]), table, instance, wanted[..p + 1])
  {
    var w, rows := wanted[p], RowsOf(wanted[..p]);
    ClaimIsOwn(d.lookup, table, instance, wanted, p);
    OneMoreKey(wanted, p);
    UnionStep(table, rows, w.key, w.row);
    if w.key !in rows {
      WithinAdd(rows, table, w.key, w.row);
    }
    assert RowsOf(wanted[..p + 1]).Keys == rows.Keys + {w.key};
  }

  lemma {:induction false} ClaimAllDone(table: map<ItemKey, ItemRow>, lookup: map<string, Cached>, instance: string,
      wanted: seq<Wanted>, n: nat)
    requires n <= |wanted| && Claimable(KeysOf(table, instance), WantedKeys(wanted))
    requires LookupOf(lookup, table, instance) && forall p :: 0 <= p < |wanted| ==> wanted[p].key.instance == instance
    ensures Done(ClaimAll(Diff(table, lookup, 0), wanted[..n]), table, instance, wanted[..n])
    decreases n
  {
    if n > 0 {
      ClaimAllDone(table, lookup, instance, wanted, n - 1);
      assert wanted[..n][..n - 1] == wanted[..n - 1];
      ClaimKeepsDone(ClaimAll(Diff(table, lookup, 0), wanted[..n - 1]), table, instance, wanted, n - 1);
    }
  }

  lemma WaitingAreUnwanted(d: Diff, table: map<ItemKey, ItemRow>, instance: string, wanted: seq<Wanted>)
    requires Done(d, table, instance, wanted)
    requires forall a, b :: a in KeysOf(table, instance) && b in KeysOf(table, instance) && TextOf(a) == TextOf(b) ==>
             a == b
    ensures WaitingKeys(d.lookup) == KeysOf(table, instance) - RowsOf(wanted).Keys
  {
    forall k | k in KeysOf(table, instance) - RowsOf(wanted).Keys ensures k in WaitingKeys(d.lookup) {
      assert d.lookup[TextOf(k)].key in KeysOf(table, instance);
    }
  }

  lemma DroppingTheRest(table: map<ItemKey, ItemRow>, instance: string, rows: map<ItemKey, ItemRow>)
    requires forall k :: k in rows ==> k.instance == instance
    ensures (table + rows) - (KeysOf(table, instance) - rows.Keys) == ReplaceItems(table, instance, rows)
    ensures ReplaceItems(table, instance, rows) == table <==>
            Within(rows, table) && KeysOf(table, instance) - rows.Keys == {}
  {
    var r := ReplaceItems(table, instance, rows);
    assert forall k :: k in rows ==> k in r && r[k] == rows[k];
    forall k | k in KeysOf(table, instance) - rows.Keys ensures k in table && k !in r {
    }
  }

  lemma NobodyWaits(lookup: map<string, Cached>)
    ensures |lookup| == 0 <==> WaitingKeys(lookup) == {}
  {
    if t :| t in lookup {
      assert lookup[t].key in WaitingKeys(lookup);
    } else {
      assert lookup == map[];
    }
  }

  lemma FinishReplaces(d: Diff, table: map<ItemKey, ItemRow>, instance: string, wanted: seq<Wanted>)
    requires Done(d, table, instance, wanted) && forall p :: 0 <= p < |wanted| ==> wanted[p].key.instance == instance
    requires forall a, b :: a in KeysOf(table, instance) && b in KeysOf(table, instance) && TextOf(a) == TextOf(b) ==>
             a == b
    ensures Finish(d).items == ReplaceItems(table, instance, RowsOf(wanted))
    ensures Finish(d).writes == 0 <==> DistinctKeys(wanted) && Finish(d).items == table
  {
    RowsOfHolds(wanted);
    WaitingAreUnwanted(d, table, instance, wanted);
    DroppingTheRest(table, instance, RowsOf(wanted));
    NobodyWaits(d.lookup);
  }

  /** Where the condition holds, the diff replaces the instance's rows by the wanted ones, whatever the
      rows hold and in whatever order the query returned them. It writes nothing exactly when the rows are
      the wanted ones already and no item comes twice. */
  lemma ClaimableReplaces(table: map<ItemKey, ItemRow>, lookup: map<string, Cached>, instance: string,
      wanted: seq<Wanted>)
    requires Claimable(KeysOf(table, instance), WantedKeys(wanted)) && LookupOf(lookup, table, instance)
    requires forall p :: 0 <= p < |wanted| ==> wanted[p].key.instance == instance
    ensures SyncItems(table, lookup, wanted).items == ReplaceItems(table, instance, RowsOf(wanted))
    ensures SyncItems(table, lookup, wanted).writes == 0
       <==> DistinctKeys(wanted) && SyncItems(table, lookup, wanted).items == table
  {
    ClaimAllDone(table, lookup, instance, wanted, |wanted|);
    assert wanted[..|wanted|] == wanted;
    FinishReplaces(ClaimAll(Diff(table, lookup, 0), wanted), table, instance, wanted);
  }

  // ---- When one is not ----

  lemma {:induction false} ClaimAllConcat(d: Diff, a: seq<Wanted>, b: seq<Wanted>)
    ensures ClaimAll(d, a + b) == ClaimAll(ClaimAll(d, a), b)
    decreases |b|
  {
    if b == [] {
      assert a + b == a;
    } else {
      ClaimAllConcat(d, a, b[..|b| - 1]);
      assert (a + b)[..|a + b| - 1] == a + b[..|b| - 1];
    }
  }

  ghost predicate Untouched(wanted: seq<Wanted>, k: ItemKey) {
    forall p :: 0 <= p < |wanted| ==> wanted[p].key != k
  }

  ghost predicate TextUnused(wanted: seq<Wanted>, text: string) {
    forall p :: 0 <= p < |wanted| ==> TextOf(wanted[p].key) != text
  }

  /** Items of other keys leave a row alone; items of other texts leave a lookup entry alone. */
  lemma {:induction false} ClaimAllFrame(d: Diff, wanted: seq<Wanted>, k: ItemKey, text: string)
    ensures Untouched(wanted, k) ==>
              var r := ClaimAll(d, wanted);
              (k in r.items <==> k in d.items) && (k in d.items ==> r.items[k] == d.items[k])
    ensures TextUnused(wanted, text) ==>
              var r := ClaimAll(d, wanted);
              (text in r.lookup <==> text in d.lookup) && (text in d.lookup ==> r.lookup[text] == d.lookup[text])
    ensures var r := ClaimAll(d, wanted); forall t :: t in r.lookup ==> t in d.lookup && r.lookup[t] == d.lookup[t]
    decreases |wanted|
  {
    if wanted != [] {
      ClaimAllFrame(d, wanted[..|wanted| - 1], k, text);
    }
  }

  /** An item that finds another key's equal row under its text is never written. */
  lemma FirstClaimSkips(table: map<ItemKey, ItemRow>, lookup: map<string, Cached>, wanted: seq<Wanted>, p: nat)
    requires p < |wanted| && DistinctKeys(wanted) && TextUnused(wanted[..p], TextOf(wanted[p].key))
    requires TextOf(wanted[p].key) in lookup && lookup[TextOf(wanted[p].key)].row == wanted[p].row
    ensures var k := wanted[p].key; var r := SyncItems(table, lookup, wanted);
            k in r.items ==> k in table && r.items[k] == table[k]
  {
    var w, d := wanted[p], Diff(table, lookup, 0);
    var before, after := wanted[..p], wanted[p + 1..];
    assert wanted == before + [w] + after;
    ClaimAllConcat(d, before + [w], after);
    ClaimAllConcat(d, before, [w]);
    ClaimAllFrame(d, before, w.key, TextOf(w.key));
    var d1 := ClaimAll(d, before);
    assert ClaimAll(d1, [w]) == Claim(d1, w) by {
      assert [w][..0] == [];
    }
    assert Untouched(before, w.key) && Untouched(after, w.key);
    ClaimAllFrame(Claim(d1, w), after, w.key, TextOf(w.key));
  }

  /** Every row of one content, apart from one row of another. */
  function Uniform(keys: set<ItemKey>, odd: Option<ItemKey>): map<ItemKey, ItemRow> {
    map k | k in keys :: if odd == Some(k) then ItemRow(Some(""), None, None) else ItemRow(None, None, None)
  }

  function UniformWanted(keys: seq<ItemKey>): (wanted: seq<Wanted>)
    ensures WantedKeys(wanted) == keys
    ensures forall i :: 0 <= i < |wanted| ==> wanted[i].row == ItemRow(None, None, None)
  {
    seq(|keys|, i requires 0 <= i < |keys| => Wanted(keys[i], ItemRow(None, None, None)))
  }

  function TextsOf(table: map<ItemKey, ItemRow>): set<string> {
    set k | k in table :: TextOf(k)
  }

  ghost function KeyWith(table: map<ItemKey, ItemRow>, text: string, first: ItemKey): (k: ItemKey)
    requires text in TextsOf(table) && first in table
    ensures k in table && TextOf(k) == text && (TextOf(first) == text ==> k == first)
  {
    if text == TextOf(first) then first else var k :| k in table && TextOf(k) == text; k
  }

  /** A lookup of the table that prefers one key. */
  ghost function LookupWith(table: map<ItemKey, ItemRow>, first: ItemKey): map<string, Cached>
    requires first in table
  {
    map t | t in TextsOf(table) :: Cached(KeyWith(table, t, first), table[KeyWith(table, t, first)])
  }

  lemma LookupWithIsLookup(table: map<ItemKey, ItemRow>, first: ItemKey, instance: string)
    requires first in table && forall k :: k in table ==> k.instance == instance
    ensures LookupOf(LookupWith(table, first), table, instance)
    ensures TextOf(first) in LookupWith(table, first) &&
            LookupWith(table, first)[TextOf(first)] == Cached(first, table[first])
  {
    assert TextOf(first) in TextsOf(table);
  }

  ghost predicate FirstWithText(keys: seq<ItemKey>, p: nat) {
    p < |keys| && forall q :: 0 <= q < p ==> TextOf(keys[q]) != TextOf(keys[p])
  }

  /** These keys with these rows come out wrong. */
  ghost predicate Fails(cached: set<ItemKey>, keys: seq<ItemKey>, instance: string,
      table: map<ItemKey, ItemRow>, lookup: map<string, Cached>, wanted: seq<Wanted>) {
    && KeysOf(table, instance) == cached && WantedKeys(wanted) == keys && LookupOf(lookup, table, instance)
    && SyncItems(table, lookup, wanted).items != ReplaceItems(table, instance, RowsOf(wanted))
  }

  ghost predicate OneInstance(cached: set<ItemKey>, keys: seq<ItemKey>, instance: string) {
    && (forall k :: k in cached ==> k.instance == instance)
    && (forall p :: 0 <= p < |keys| ==> keys[p].instance == instance)
    && (forall p, q :: 0 <= p < q < |keys| ==> keys[p] != keys[q])
  }

  /** The first wanted item with a cached key's text is another: it takes over the cached row, and is not
      written although it is new, or although its own row differs. */
  lemma TakenOverFails(cached: set<ItemKey>, keys: seq<ItemKey>, instance: string, p: nat, a: ItemKey)
    requires OneInstance(cached, keys, instance) && FirstWithText(keys, p)
    requires a in cached && TextOf(a) == TextOf(keys[p]) && a != keys[p]
    ensures var table, wanted := Uniform(cached, Some(keys[p])), UniformWanted(keys);
            Fails(cached, keys, instance, table, LookupWith(table, a), wanted)
  {
    var table, wanted, k := Uniform(cached, Some(keys[p])), UniformWanted(keys), keys[p];
    assert KeysOf(table, instance) == cached;
    LookupWithIsLookup(table, a, instance);
    forall q | 0 <= q < |wanted[..p]| ensures TextOf(wanted[..p][q].key) != TextOf(k) {
      assert wanted[..p][q].key == keys[q];
    }
    DistinctWanted(keys);
    FirstClaimSkips(table, LookupWith(table, a), wanted, p);
    RowsOfHolds(wanted);
    assert k in RowsOf(wanted) && RowsOf(wanted)[k] == ItemRow(None, None, None) by {
      assert wanted[p].key == k;
    }
    var r := SyncItems(table, LookupWith(table, a), wanted).items;
    assert k in r ==> r[k] == ItemRow(Some(""), None, None);
  }

  lemma DistinctWanted(keys: seq<ItemKey>)
    requires forall p, q :: 0 <= p < q < |keys| ==> keys[p] != keys[q]
    ensures DistinctKeys(UniformWanted(keys))
  {
    var wanted := UniformWanted(keys);
    forall p, q | 0 <= p < q < |wanted| ensures wanted[p].key != wanted[q].key {
      assert wanted[p].key == keys[p] && wanted[q].key == keys[q];
    }
  }

  /** Two cached keys with a text no wanted item has: one of them is not deleted. */
  lemma LeftBehindFails(cached: set<ItemKey>, keys: seq<ItemKey>, instance: string, a: ItemKey, b: ItemKey)
    requires OneInstance(cached, keys, instance) && a in cached && b in cached && a != b && TextOf(a) == TextOf(b)
    requires forall p :: 0 <= p < |keys| ==> TextOf(keys[p]) != TextOf(a)
    ensures var table, wanted := Uniform(cached, None), UniformWanted(keys);
            Fails(cached, keys, instance, table, LookupWith(table, a), wanted)
  {
    var table, wanted := Uniform(cached, None), UniformWanted(keys);
    var lookup := LookupWith(table, a);
    assert KeysOf(table, instance) == cached;
    LookupWithIsLookup(table, a, instance);
    forall p | 0 <= p < |wanted| ensures TextOf(wanted[p].key) != TextOf(a) && wanted[p].key != b {
      assert wanted[p].key == keys[p];
    }
    var d := ClaimAll(Diff(table, lookup, 0), wanted);
    ClaimAllFrame(Diff(table, lookup, 0), wanted, b, TextOf(a));
    assert b !in WaitingKeys(d.lookup) by {
      forall t | t in d.lookup ensures d.lookup[t].key != b {
        assert d.lookup[t] == lookup[t] && t == TextOf(lookup[t].key);
      }
    }
    assert b in Finish(d).items;
    RowsOfHolds(wanted);
    assert b !in RowsOf(wanted);
  }

  lemma FirstIndex(keys: seq<ItemKey>, p: nat) returns (q: nat)
    requires p < |keys|
    ensures q <= p && FirstWithText(keys, q) && TextOf(keys[q]) == TextOf(keys[p])
  {
    q := 0;
    while TextOf(keys[q]) != TextOf(keys[p])
      invariant q <= p && forall r :: 0 <= r < q ==> TextOf(keys[r]) != TextOf(keys[p])
      decreases p - q
    {
      q := q + 1;
    }
  }

  lemma SharedTextFails(cached: set<ItemKey>, keys: seq<ItemKey>, instance: string, a: ItemKey, b: ItemKey)
    requires OneInstance(cached, keys, instance) && a in cached && b in cached && a != b && TextOf(a) == TextOf(b)
    ensures exists table, lookup, wanted :: Fails(cached, keys, instance, table, lookup, wanted)
  {
    if p :| 0 <= p < |keys| && TextOf(keys[p]) == TextOf(a) {
      var q := FirstIndex(keys, p);
      TakenOverFails(cached, keys, instance, q, if a != keys[q] then a else b);
    } else {
      LeftBehindFails(cached, keys, instance, a, b);
    }
  }

  /** The diff is right for all rows these keys can have, in whatever order the query returns them, exactly
      when each cached key can only be claimed by its own item. */
  lemma DiffRightIff(cached: set<ItemKey>, keys: seq<ItemKey>, instance: string)
    requires OneInstance(cached, keys, instance)
    ensures Claimable(cached, keys)
       <==> forall table, lookup, wanted :: !Fails(cached, keys, instance, table, lookup, wanted)
  {
    if Claimable(cached, keys) {
      forall table: map<ItemKey, ItemRow>, lookup: map<string, Cached>, wanted: seq<Wanted>
        | KeysOf(table, instance) == cached && WantedKeys(wanted) == keys && LookupOf(lookup, table, instance)
        ensures !Fails(cached, keys, instance, table, lookup, wanted)
      {
        assert forall p :: 0 <= p < |wanted| ==> wanted[p].key == keys[p];
        ClaimableReplaces(table, lookup, instance, wanted);
      }
    } else if a, b :| a in cached && b in cached && TextOf(a) == TextOf(b) && a != b {
      SharedTextFails(cached, keys, instance, a, b);
    } else {
      var a, p :| a in cached && 0 <= p < |keys| && TextOf(keys[p]) == TextOf(a) && !ClaimedBy(a, keys, p);
      var q := FirstIndex(keys, p);
      TakenOverFails(cached, keys, instance, q, a);
    }
  }

  /** List names without NUL are enough. */
  lemma CleanNamesAreClaimable(cached: set<ItemKey>, keys: seq<ItemKey>, instance: string)
    requires OneInstance(cached, keys, instance)
    requires forall k :: k in cached ==> NoNul(k.list)
    requires forall p :: 0 <= p < |keys| ==> NoNul(keys[p].list)
    ensures Claimable(cached, keys)
  {
    forall a, b | a in cached && b in cached && TextOf(a) == TextOf(b) ensures a == b {
      CacheKeyInjective(a.list, a.value, b.list, b.value);
    }
    forall a, p | a in cached && 0 <= p < |keys| && TextOf(keys[p]) == TextOf(a) ensures ClaimedBy(a, keys, p) {
      CacheKeyInjective(a.list, a.value, keys[p].list, keys[p].value);
    }
  }
}
