/** What the variables of an environment come to in the document, one by one. */
module ConfigEnvironment {
  import opened Wrappers
  import opened ConfigTree
  import opened ConfigOverrides
  import opened ConfigTables

  // ---- Where a variable points ----

  /** The numbers in a variable's name pick the instance, the endpoint and the element; secrets end where
      passwords and tokens do. */
  lemma TargetAddresses(target: Target)
    requires TargetPath(target).Some?
    ensures var p := TargetPath(target).value;
            match target
            case Element(_, index) => |p| > 0 && p[|p| - 1] == Index(index) && AllNames(p[..|p| - 1])
            case InstanceValue(n, _) => |p| > 2 && p[..2] == [Name("instances"), Index(n)] && AllNames(p[2..])
            case InstancePassword(n) => p == [Name("instances"), Index(n), Name("lapi"), Name("auth"), Name("password")]
            case EndpointValue(n, m, _) =>
              |p| > 4 && p[..4] == [Name("instances"), Index(n), Name("metrics"), Index(m)] && AllNames(p[4..])
            case EndpointPassword(n, m) =>
              p == [Name("instances"), Index(n), Name("metrics"), Index(m), Name("auth"), Name("password")]
            case EndpointToken(n, m) =>
              p == [Name("instances"), Index(n), Name("metrics"), Index(m), Name("auth"), Name("token")]
  {
  }

  // ---- From variables to writes and back ----

  predicate IsSet(p: Plain) {
    match p
    case Value(_, _, text) => text.Some?
    case SecretValue(_, _, direct, file) => direct || file.Some?
  }

  ghost predicate SetInTable(table: seq<Plain>, path: Path) {
    exists k :: 0 <= k < |table| && table[k].path == path && IsSet(table[k])
  }

  ghost predicate SetByVariable(vars: seq<Variable>, path: Path) {
    exists i :: 0 <= i < |vars| && TargetPath(vars[i].target) == Some(path)
  }

  lemma {:induction false} PlainWriteIsSet(parse: Parser, table: seq<Plain>, w: Write)
    requires AllPlainWrites(parse, table).Ok? && w in AllPlainWrites(parse, table).value
    ensures SetInTable(table, w.path)
    decreases |table|
  {
    var init, last := table[..|table| - 1], table[|table| - 1];
    if w in AllPlainWrites(parse, init).value {
      PlainWriteIsSet(parse, init, w);
      var k :| 0 <= k < |init| && init[k].path == w.path && IsSet(init[k]);
      assert table[k] == init[k];
    } else {
      assert w in PlainWrites(parse, last).value;
      assert table[|table| - 1].path == w.path;
    }
  }

  lemma {:induction false} PlainWriteIsMade(parse: Parser, table: seq<Plain>, k: nat)
    requires k < |table| && AllPlainWrites(parse, table).Ok?
    ensures PlainWrites(parse, table[k]).Ok?
    ensures forall w :: w in PlainWrites(parse, table[k]).value ==> w in AllPlainWrites(parse, table).value
    decreases |table|
  {
    if k < |table| - 1 {
      PlainWriteIsMade(parse, table[..|table| - 1], k);
    }
  }

  lemma {:induction false} PlainWritesOkIff(parse: Parser, table: seq<Plain>)
    ensures AllPlainWrites(parse, table).Ok? <==> forall k :: 0 <= k < |table| ==> PlainWrites(parse, table[k]).Ok?
    decreases |table|
  {
    if table != [] {
      var init := table[..|table| - 1];
      PlainWritesOkIff(parse, init);
      assert table == init + [table[|table| - 1]];
    }
  }

  /** What one indexed variable writes, at the place its target names. */
  ghost predicate WritesVariable(parse: Parser, v: Variable, w: Write) {
    && TargetPath(v.target) == Some(w.path)
    && (if v.target.InstancePassword? || v.target.EndpointPassword? || v.target.EndpointToken?
        then w.value == Obj(if v.fromFile then map["file" := Scalar(v.text)] else map["env" := Scalar(v.name)])
        else parse(v.name, v.text) == Ok(w.value))
  }

  lemma OverrideWriteFits(parse: Parser, v: Variable, o: Override, w: Write)
    requires ToOverride(v) == Ok(o) && OverrideWrite(parse, o) == Ok(w)
    ensures WritesVariable(parse, v, w)
  {
  }

  lemma {:induction false} OverrideWriteAt(parse: Parser, list: seq<Override>, n: nat)
    requires n < |list| && AllOverrideWrites(parse, list).Ok?
    ensures |AllOverrideWrites(parse, list).value| == |list|
    ensures OverrideWrite(parse, list[n]) == Ok(AllOverrideWrites(parse, list).value[n])
    decreases |list|
  {
    var init := list[..|list| - 1];
    OverrideWritesFollow(parse, list);
    OverrideWritesFollow(parse, init);
    if n < |init| {
      OverrideWriteAt(parse, init, n);
    }
  }

  lemma {:induction false} OverrideWritesOkIff(parse: Parser, list: seq<Override>)
    ensures AllOverrideWrites(parse, list).Ok? <==> forall n :: 0 <= n < |list| ==> OverrideWrite(parse, list[n]).Ok?
    decreases |list|
  {
    if list != [] {
      var init := list[..|list| - 1];
      OverrideWritesOkIff(parse, init);
      assert list == init + [list[|list| - 1]];
    }
  }

  lemma {:induction false} UnknownVariable(vars: seq<Variable>) returns (i: nat)
    requires Collect(vars).Err?
    ensures i < |vars| && ToOverride(vars[i]).Err?
    decreases |vars|
  {
    i := |vars| - 1;
    if Collect(vars[..i]).Err? {
      i := UnknownVariable(vars[..i]);
    }
  }

  lemma CollectOkIff(vars: seq<Variable>)
    ensures Collect(vars).Ok? <==> forall i :: 0 <= i < |vars| ==> TargetPath(vars[i].target).Some?
  {
    if Collect(vars).Ok? {
      forall i | 0 <= i < |vars| ensures TargetPath(vars[i].target).Some? {
        CollectKeepsPlace(vars, i);
      }
    } else {
      var i := UnknownVariable(vars);
    }
  }

  /** The sorted overrides are those of the variables, in another order. */
  lemma SortedHas(vars: seq<Variable>, o: Override)
    requires Collect(vars).Ok?
    ensures o in SortOverrides(Collect(vars).value) <==> exists i :: 0 <= i < |vars| && ToOverride(vars[i]) == Ok(o)
  {
    var collected := Collect(vars).value;
    CollectShape(vars);
    SortMembers(collected, o);
    if o in collected {
      var n :| 0 <= n < |collected| && collected[n] == o;
      CollectKeepsPlace(vars, n);
    }
    if i :| 0 <= i < |vars| && ToOverride(vars[i]) == Ok(o) {
      CollectKeepsPlace(vars, i);
    }
  }

  lemma SortMembers(list: seq<Override>, o: Override)
    ensures o in SortOverrides(list) <==> o in list
  {
    SortOrders(list);
    assert o in SortOverrides(list) <==> o in multiset(SortOverrides(list));
  }

  lemma IndexedWriteIsSet(parse: Parser, vars: seq<Variable>, w: Write)
    requires IndexedOverrides(vars).Ok? && AllOverrideWrites(parse, IndexedOverrides(vars).value).Ok?
    requires w in AllOverrideWrites(parse, IndexedOverrides(vars).value).value
    ensures SetByVariable(vars, w.path)
  {
    var list := IndexedOverrides(vars).value;
    OverrideWritesFollow(parse, list);
    var n :| 0 <= n < |list| && AllOverrideWrites(parse, list).value[n] == w;
    SortedHas(vars, list[n]);
    var i :| 0 <= i < |vars| && ToOverride(vars[i]) == Ok(list[n]);
  }

  lemma IndexedWriteIsMade(parse: Parser, vars: seq<Variable>, i: nat) returns (w: Write)
    requires i < |vars| && IndexedOverrides(vars).Ok? && AllOverrideWrites(parse, IndexedOverrides(vars).value).Ok?
    ensures w in AllOverrideWrites(parse, IndexedOverrides(vars).value).value && WritesVariable(parse, vars[i], w)
    ensures w.authType <==> IsAuthType(vars[i].target)
  {
    var list := IndexedOverrides(vars).value;
    CollectKeepsPlace(vars, i);
    var o := ToOverride(vars[i]).value;
    SortedHas(vars, o);
    var n :| 0 <= n < |list| && list[n] == o;
    OverrideWriteAt(parse, list, n);
    w := AllOverrideWrites(parse, list).value[n];
    OverrideWriteFits(parse, vars[i], o, w);
  }

  lemma EveryWriteIsSet(parse: Parser, table: seq<Plain>, vars: seq<Variable>, w: Write)
    requires Writes(parse, table, vars).Ok? && w in Writes(parse, table, vars).value
    ensures SetInTable(table, w.path) || SetByVariable(vars, w.path)
  {
    if w in AllPlainWrites(parse, table).value {
      PlainWriteIsSet(parse, table, w);
    } else {
      IndexedWriteIsSet(parse, vars, w);
    }
  }

  // ---- What is read back ----

  /** No variable that is set addresses a place inside this one. */
  ghost predicate NothingInside(table: seq<Plain>, vars: seq<Variable>, path: Path) {
    && (forall k :: 0 <= k < |table| && IsSet(table[k]) ==> !(path < table[k].path))
    && (forall i :: 0 <= i < |vars| && TargetPath(vars[i].target).Some? ==> !(path < TargetPath(vars[i].target).value))
  }

  lemma WriteReadsBack(document: Json, parse: Parser, table: seq<Plain>, vars: seq<Variable>, w: Write)
    requires document.Obj? && FixedTable(table) && ApplyEnvironment(document, parse, table, vars).Ok?
    requires w in Writes(parse, table, vars).value && NothingInside(table, vars, w.path)
    ensures Get(ApplyEnvironment(document, parse, table, vars).value, w.path) == w.value
  {
    var ws := Writes(parse, table, vars).value;
    var i :| 0 <= i < |ws| && ws[i] == w;
    forall j | 0 <= j < |ws| ensures !(ws[i].path < ws[j].path) {
      EveryWriteIsSet(parse, table, vars, ws[j]);
    }
    OverrideSurvives(document, parse, table, vars, i);
  }

  lemma PlainReadsBack(document: Json, parse: Parser, table: seq<Plain>, vars: seq<Variable>, k: nat)
    requires document.Obj? && FixedTable(table) && ApplyEnvironment(document, parse, table, vars).Ok?
    requires k < |table| && IsSet(table[k]) && NothingInside(table, vars, table[k].path)
    ensures PlainWrites(parse, table[k]).Ok? && |PlainWrites(parse, table[k]).value| == 1
    ensures Get(ApplyEnvironment(document, parse, table, vars).value, table[k].path) ==
            PlainWrites(parse, table[k]).value[0].value
  {
    PlainWriteIsMade(parse, table, k);
    var made := PlainWrites(parse, table[k]).value;
    assert |made| == 1 && made[0].path == table[k].path;
    assert made[0] in Writes(parse, table, vars).value;
    WriteReadsBack(document, parse, table, vars, made[0]);
  }

  // ---- The shipped tables ----

  predicate RowIsSet(env: map<string, string>, row: Row) {
    row.variable in env || (row.secret && row.variable + "_FILE" in env)
  }

  /** No variable that is set addresses a place inside this one. */
  ghost predicate NothingDeeper(env: map<string, string>, vars: seq<Variable>, path: Path) {
    && (forall row :: row in RowsOf(BLOCKS) && RowIsSet(env, row) ==> !(path < Names(row.path)))
    && (forall i :: 0 <= i < |vars| && TargetPath(vars[i].target).Some? ==> !(path < TargetPath(vars[i].target).value))
  }

  lemma ShippedRow(env: map<string, string>, k: nat)
    requires k < |ShippedTable(env)|
    ensures k < |RowsOf(BLOCKS)|
    ensures var row, p := RowsOf(BLOCKS)[k], ShippedTable(env)[k];
            row in RowsOf(BLOCKS) && p == ToPlain(row, env) && p.path == Names(row.path) &&
              (IsSet(p) <==> RowIsSet(env, row))
  {
  }

  lemma NothingDeeperIn(env: map<string, string>, vars: seq<Variable>, path: Path)
    requires NothingDeeper(env, vars, path)
    ensures NothingInside(ShippedTable(env), vars, path)
  {
    forall k | 0 <= k < |ShippedTable(env)| && IsSet(ShippedTable(env)[k]) ensures !(path < ShippedTable(env)[k].path) {
      ShippedRow(env, k);
    }
  }

  lemma RowReadsBack(document: Json, parse: Parser, env: map<string, string>, vars: seq<Variable>, row: Row)
    returns (w: Write)
    requires document.Obj? && ApplyShipped(document, parse, env, vars).Ok?
    requires row in RowsOf(BLOCKS) && RowIsSet(env, row) && NothingDeeper(env, vars, Names(row.path))
    ensures PlainWrites(parse, ToPlain(row, env)) == Ok([w])
    ensures Get(ApplyShipped(document, parse, env, vars).value, Names(row.path)) == w.value
  {
    var k :| 0 <= k < |RowsOf(BLOCKS)| && RowsOf(BLOCKS)[k] == row;
    ShippedTableIsFixed(env);
    ShippedRow(env, k);
    NothingDeeperIn(env, vars, Names(row.path));
    PlainReadsBack(document, parse, ShippedTable(env), vars, k);
    w := PlainWrites(parse, ToPlain(row, env)).value[0];
    assert PlainWrites(parse, ToPlain(row, env)).value == [w];
  }

  /** A section or value that is set reads back as its parsed text. */
  lemma ValueReadsBack(document: Json, parse: Parser, env: map<string, string>, vars: seq<Variable>, row: Row)
    requires document.Obj? && ApplyShipped(document, parse, env, vars).Ok?
    requires row in RowsOf(BLOCKS) && !row.secret && row.variable in env && NothingDeeper(env, vars, Names(row.path))
    ensures parse(row.variable, env[row.variable])
         == Ok(Get(ApplyShipped(document, parse, env, vars).value, Names(row.path)))
  {
    var w := RowReadsBack(document, parse, env, vars, row);
  }

  /** A secret reads back as a reference: to its variable, or to the file that its other variable names. */
  lemma SecretReadsBack(document: Json, parse: Parser, env: map<string, string>, vars: seq<Variable>, row: Row)
    requires document.Obj? && ApplyShipped(document, parse, env, vars).Ok?
    requires row in RowsOf(BLOCKS) && row.secret && RowIsSet(env, row) && NothingDeeper(env, vars, Names(row.path))
    ensures var read := Get(ApplyShipped(document, parse, env, vars).value, Names(row.path));
            if row.variable in env then read == Obj(map["env" := Scalar(row.variable)])
            else row.variable + "_FILE" in env && read == Obj(map["file" := Scalar(env[row.variable + "_FILE"])])
  {
    var w := RowReadsBack(document, parse, env, vars, row);
  }

  /** An indexed variable reads back as its parsed text, or as a reference when it is a secret. */
  lemma VariableReadsBack(document: Json, parse: Parser, env: map<string, string>, vars: seq<Variable>, i: nat)
    requires document.Obj? && ApplyShipped(document, parse, env, vars).Ok?
    requires i < |vars| && TargetPath(vars[i].target).Some? &&
             NothingDeeper(env, vars, TargetPath(vars[i].target).value)
    ensures var v := vars[i];
            var read := Get(ApplyShipped(document, parse, env, vars).value, TargetPath(v.target).value);
            if v.target.InstancePassword? || v.target.EndpointPassword? || v.target.EndpointToken?
            then read == Obj(if v.fromFile then map["file" := Scalar(v.text)] else map["env" := Scalar(v.name)])
            else parse(v.name, v.text) == Ok(read)
  {
    var w := IndexedWriteIsMade(parse, vars, i);
    ShippedTableIsFixed(env);
    NothingDeeperIn(env, vars, w.path);
    WriteReadsBack(document, parse, ShippedTable(env), vars, w);
  }

  // ---- What the environment empties and what it leaves ----

  predicate IsTypeVariable(v: Variable) {
    || (v.target.InstanceValue? && v.target.suffix == "LAPI_AUTH_TYPE")
    || (v.target.EndpointValue? && v.target.suffix == "AUTH_TYPE")
  }

  /** A write and the variable it came from: an authentication type replaces its block. */
  ghost predicate CameFrom(w: Write, vars: seq<Variable>, i: nat) {
    i < |vars| && TargetPath(vars[i].target) == Some(w.path) && w.authType == IsTypeVariable(vars[i])
  }

  lemma WriteCameFrom(parse: Parser, table: seq<Plain>, vars: seq<Variable>, w: Write)
    requires Writes(parse, table, vars).Ok? && w in Writes(parse, table, vars).value
    ensures (!w.authType && SetInTable(table, w.path)) || exists i :: CameFrom(w, vars, i)
  {
    if w in AllPlainWrites(parse, table).value {
      PlainWriteIsSet(parse, table, w);
      PlainWriteIsPlain(parse, table, w);
    } else {
      var list := IndexedOverrides(vars).value;
      OverrideWritesFollow(parse, list);
      var n :| 0 <= n < |list| && AllOverrideWrites(parse, list).value[n] == w;
      OverrideWriteAt(parse, list, n);
      SortedHas(vars, list[n]);
      var i :| 0 <= i < |vars| && ToOverride(vars[i]) == Ok(list[n]);
      assert CameFrom(w, vars, i);
    }
  }

  lemma {:induction false} PlainWriteIsPlain(parse: Parser, table: seq<Plain>, w: Write)
    requires AllPlainWrites(parse, table).Ok? && w in AllPlainWrites(parse, table).value
    ensures !w.authType
    decreases |table|
  {
    if w in AllPlainWrites(parse, table[..|table| - 1]).value {
      PlainWriteIsPlain(parse, table[..|table| - 1], w);
    }
  }

  /** The place a variable empties before it writes. */
  function Emptied(v: Variable): Option<Path> {
    var path := TargetPath(v.target);
    if path.Some? && path.value != [] && IsTypeVariable(v) then Some(path.value[..|path.value| - 1]) else path
  }

  /** A setting stays as the document has it when no variable that is set addresses it, a place inside it,
      or a place around it, and it is in no block that an authentication type empties. */
  lemma SettingUntouched(document: Json, parse: Parser, env: map<string, string>, vars: seq<Variable>, q: Path)
    requires document.Obj? && ApplyShipped(document, parse, env, vars).Ok? && InSchema(q) && Kinded(document, q)
    requires forall row :: row in RowsOf(BLOCKS) && RowIsSet(env, row) ==>
             !(Names(row.path) <= q) && !(q <= Names(row.path))
    requires forall i :: 0 <= i < |vars| && TargetPath(vars[i].target).Some? ==>
               !(Emptied(vars[i]).value <= q) && !(q <= TargetPath(vars[i].target).value)
    ensures Get(ApplyShipped(document, parse, env, vars).value, q) == Get(document, q)
  {
    var table := ShippedTable(env);
    var ws := Writes(parse, table, vars).value;
    ShippedTableIsFixed(env);
    WritesAreClear(parse, table, vars);
    forall j | 0 <= j < |ws| ensures !(Site(ws[j]) <= q) && !(q <= Site(ws[j])) {
      WriteCameFrom(parse, table, vars, ws[j]);
      if i :| CameFrom(ws[j], vars, i) {
        VariableSite(ws[j], vars, i, q);
      } else {
        RowSite(env, ws[j].path, q);
      }
    }
    OthersUntouched(document, parse, table, vars, q);
  }

  lemma VariableSite(w: Write, vars: seq<Variable>, i: nat, q: Path)
    requires CameFrom(w, vars, i) && w.path != [] && !(Emptied(vars[i]).value <= q) && !(q <= w.path)
    ensures !(Site(w) <= q) && !(q <= Site(w))
  {
    if q <= Site(w) {
      SiteBelow(w, q);
      assert false;
    }
  }

  lemma RowSite(env: map<string, string>, path: Path, q: Path)
    requires SetInTable(ShippedTable(env), path)
    requires forall row :: row in RowsOf(BLOCKS) && RowIsSet(env, row) ==>
             !(Names(row.path) <= q) && !(q <= Names(row.path))
    ensures !(path <= q) && !(q <= path)
  {
    var k :| 0 <= k < |ShippedTable(env)| && ShippedTable(env)[k].path == path && IsSet(ShippedTable(env)[k]);
    ShippedRow(env, k);
  }

  lemma SiteBelow(w: Write, q: Path)
    requires q <= Site(w)
    ensures q <= w.path
  {
  }

  /** An authentication type empties the rest of its block: what no variable sets there is gone. */
  lemma TypeEmptiesBlock(document: Json, parse: Parser, env: map<string, string>, vars: seq<Variable>, i: nat,
      sibling: string)
    requires document.Obj? && ApplyShipped(document, parse, env, vars).Ok?
    requires i < |vars| && IsTypeVariable(vars[i]) && sibling != "type" && Emptied(vars[i]).Some?
    requires forall k :: 0 <= k < |vars| && TargetPath(vars[k].target).Some? ==>
               !(Emptied(vars[i]).value + [Name(sibling)] <= TargetPath(vars[k].target).value)
    ensures Get(ApplyShipped(document, parse, env, vars).value, Emptied(vars[i]).value + [Name(sibling)]) == Undefined
  {
    ShippedTableIsFixed(env);
    var w := TypeWrite(parse, vars, i);
    BlockEmptied(document, parse, ShippedTable(env), vars, w, sibling);
  }

  lemma BlockEmptied(document: Json, parse: Parser, table: seq<Plain>, vars: seq<Variable>, w: Write, sibling: string)
    requires document.Obj? && FixedTable(table) && ApplyEnvironment(document, parse, table, vars).Ok?
    requires w in Writes(parse, table, vars).value && w.authType && IndexedShape(w.path, true) && sibling != "type"
    requires forall k :: 0 <= k < |vars| && TargetPath(vars[k].target).Some? ==>
               !(Site(w) + [Name(sibling)] <= TargetPath(vars[k].target).value)
    ensures Get(ApplyEnvironment(document, parse, table, vars).value, Site(w) + [Name(sibling)]) == Undefined
  {
    var ws, q := Writes(parse, table, vars).value, Site(w) + [Name(sibling)];
    var n :| 0 <= n < |ws| && ws[n] == w;
    WritesAreClear(parse, table, vars);
    BlockInSchema(w, sibling);
    forall j | 0 <= j < |ws| ensures !(q <= ws[j].path) {
      NotWrittenInside(parse, table, vars, ws[j], q);
    }
    EmptiedStays(document, ws, n, sibling);
  }

  lemma TypeWrite(parse: Parser, vars: seq<Variable>, i: nat) returns (w: Write)
    requires IndexedOverrides(vars).Ok? && AllOverrideWrites(parse, IndexedOverrides(vars).value).Ok?
    requires i < |vars| && IsTypeVariable(vars[i])
    ensures w in AllOverrideWrites(parse, IndexedOverrides(vars).value).value
    ensures w.authType && IndexedShape(w.path, true) && Emptied(vars[i]) == Some(Site(w))
  {
    w := IndexedWriteIsMade(parse, vars, i);
    TargetShape(vars[i].target);
  }

  lemma NotWrittenInside(parse: Parser, table: seq<Plain>, vars: seq<Variable>, w: Write, q: Path)
    requires FixedTable(table) && Writes(parse, table, vars).Ok? && w in Writes(parse, table, vars).value && HasIndex(q)
    requires forall k :: 0 <= k < |vars| && TargetPath(vars[k].target).Some? ==>
             !(q <= TargetPath(vars[k].target).value)
    ensures !(q <= w.path)
  {
    EveryWriteIsSet(parse, table, vars, w);
    if SetInTable(table, w.path) {
      NoIndexInTable(table, w.path, q);
    }
  }

  /** Inside an instance the block of an authentication type holds no list. */
  lemma BlockInSchema(w: Write, sibling: string)
    requires IndexedShape(w.path, w.authType) && w.authType
    ensures InSchema(Site(w) + [Name(sibling)]) && HasIndex(Site(w) + [Name(sibling)])
  {
    var q := Site(w) + [Name(sibling)];
    forall k | 0 <= k < |q| ensures q[k].Index? <==> ListNode(q[..k]) {
      assert q[..k] == w.path[..k];
    }
    var k :| 0 <= k < |Site(w)| && Site(w)[k].Index?;
    assert q[k].Index?;
  }

  lemma NoIndexInTable(table: seq<Plain>, path: Path, q: Path)
    requires FixedTable(table) && SetInTable(table, path) && HasIndex(q)
    ensures !(q <= path)
  {
    var m :| 0 <= m < |table| && table[m].path == path && IsSet(table[m]);
    var k :| 0 <= k < |q| && q[k].Index?;
    assert k < |path| ==> path[k].Name?;
  }

  lemma {:induction false} EmptiedStays(document: Json, writes: seq<Write>, n: nat, sibling: string)
    requires document.Obj? && n < |writes| && writes[n].authType && sibling != "type"
    requires forall j :: 0 <= j < |writes| ==> WriteShape(writes[j]) && Writable(writes[j])
    requires Clear(writes) && InSchema(Site(writes[n]) + [Name(sibling)])
    requires forall j :: 0 <= j < |writes| ==> !(Site(writes[n]) + [Name(sibling)] <= writes[j].path)
    ensures var q := Site(writes[n]) + [Name(sibling)];
            Get(ApplyAll(document, writes), q) == Undefined && Kinded(ApplyAll(document, writes), q)
    decreases |writes|
  {
    var init, last := writes[..|writes| - 1], writes[|writes| - 1];
    var q := Site(writes[n]) + [Name(sibling)];
    if n == |init| {
      BlockIsEmpty(ApplyAll(document, init), last, sibling);
    } else {
      EmptiedStays(document, init, n, sibling);
      SiteInSchema(last);
      LaterDiverges(writes[n], last, sibling);
      GetSetOther(ApplyAll(document, init), Site(last), Stored(last), q);
    }
  }

  lemma BlockIsEmpty(document: Json, w: Write, sibling: string)
    requires document.Obj? && WriteShape(w) && Writable(w) && w.authType && sibling != "type"
    ensures Get(ApplyWrite(document, w), Site(w) + [Name(sibling)]) == Undefined
    ensures Kinded(ApplyWrite(document, w), Site(w) + [Name(sibling)])
  {
    ResetErasesSiblings(document, w, sibling);
    GetSet(document, Site(w), Stored(w));
    KindedAppend(ApplyWrite(document, w), Site(w), Name(sibling));
  }

  lemma LaterDiverges(w: Write, last: Write, sibling: string)
    requires w.authType && WriteShape(w) && WriteShape(last) && InSchema(Site(last)) &&
             InSchema(Site(w) + [Name(sibling)])
    requires !(Site(w) + [Name(sibling)] <= last.path) && (Site(last) <= w.path ==> w.path < last.path)
    ensures Diverge(Site(last), Site(w) + [Name(sibling)])
  {
    var q := Site(w) + [Name(sibling)];
    if Site(last) <= q {
      LaterIsElsewhere(w, last, sibling);
      assert false;
    }
    if q <= Site(last) {
      SiteBelow(last, q);
      assert false;
    }
    ApartDiverge(Site(last), q);
  }

  lemma LaterIsElsewhere(w: Write, last: Write, sibling: string)
    requires w.authType && WriteShape(w) && Site(last) <= Site(w) + [Name(sibling)]
    requires Site(last) <= w.path ==> w.path < last.path
    ensures Site(w) + [Name(sibling)] <= last.path
  {
    if |Site(last)| <= |Site(w)| {
      AroundBlock(Site(last), w, Name(sibling));
      assert false;
    }
  }

  lemma AroundBlock(a: Path, w: Write, key: Key)
    requires a <= Site(w) + [key] && |a| <= |Site(w)|
    ensures a <= w.path
  {
    assert (Site(w) + [key])[..|a|] == w.path[..|a|];
  }

  // ---- When the environment is accepted ----

  predicate RowIsGood(parse: Parser, env: map<string, string>, row: Row) {
    if row.secret then !(row.variable in env && row.variable + "_FILE" in env)
    else row.variable in env ==> parse(row.variable, env[row.variable]).Ok?
  }

  predicate VariableIsGood(parse: Parser, v: Variable) {
    && TargetPath(v.target).Some?
    && (v.target.InstancePassword? || v.target.EndpointPassword? || v.target.EndpointToken? ||
        parse(v.name, v.text).Ok?)
  }

  /** Every text parses, no secret is given twice, every indexed variable is known, and no two of them
      address one setting. */
  ghost predicate GoodEnvironment(parse: Parser, env: map<string, string>, vars: seq<Variable>) {
    && (forall row :: row in RowsOf(BLOCKS) ==> RowIsGood(parse, env, row))
    && (forall i :: 0 <= i < |vars| ==> VariableIsGood(parse, vars[i]))
    && DistinctTargets(vars)
  }

  lemma PlainPartAccepted(parse: Parser, env: map<string, string>)
    ensures AllPlainWrites(parse, ShippedTable(env)).Ok? <==>
              forall row :: row in RowsOf(BLOCKS) ==> RowIsGood(parse, env, row)
  {
    var table := ShippedTable(env);
    PlainWritesOkIff(parse, table);
    forall k | 0 <= k < |table| ensures PlainWrites(parse, table[k]).Ok? <==> RowIsGood(parse, env, RowsOf(BLOCKS)[k]) {
      ShippedRow(env, k);
    }
    if forall k :: 0 <= k < |table| ==> PlainWrites(parse, table[k]).Ok? {
      forall row | row in RowsOf(BLOCKS) ensures RowIsGood(parse, env, row) {
        var k :| 0 <= k < |RowsOf(BLOCKS)| && RowsOf(BLOCKS)[k] == row;
        assert PlainWrites(parse, table[k]).Ok?;
      }
    }
  }

  ghost predicate DistinctTargets(vars: seq<Variable>) {
    forall i, j :: 0 <= i < j < |vars| ==> TargetPath(vars[i].target) != TargetPath(vars[j].target)
  }

  lemma DistinctIff(vars: seq<Variable>)
    requires Collect(vars).Ok?
    ensures DistinctPaths(Collect(vars).value) <==> DistinctTargets(vars)
  {
    CollectShape(vars);
    forall i | 0 <= i < |vars| ensures Some(Collect(vars).value[i].path) == TargetPath(vars[i].target) {
      CollectKeepsPlace(vars, i);
    }
  }

  lemma TextIsGood(parse: Parser, v: Variable)
    requires ToOverride(v).Ok?
    ensures OverrideWrite(parse, ToOverride(v).value).Ok? <==> VariableIsGood(parse, v)
  {
  }

  lemma TextsAccepted(parse: Parser, vars: seq<Variable>)
    requires IndexedOverrides(vars).Ok?
    ensures AllOverrideWrites(parse, IndexedOverrides(vars).value).Ok? <==>
              forall i :: 0 <= i < |vars| ==> VariableIsGood(parse, vars[i])
  {
    var list := IndexedOverrides(vars).value;
    OverrideWritesOkIff(parse, list);
    CollectOkIff(vars);
    if forall n :: 0 <= n < |list| ==> OverrideWrite(parse, list[n]).Ok? {
      forall i | 0 <= i < |vars| ensures VariableIsGood(parse, vars[i]) {
        SortedHas(vars, ToOverride(vars[i]).value);
        TextIsGood(parse, vars[i]);
      }
    }
    if forall i :: 0 <= i < |vars| ==> VariableIsGood(parse, vars[i]) {
      forall n | 0 <= n < |list| ensures OverrideWrite(parse, list[n]).Ok? {
        SortedHas(vars, list[n]);
        var i :| 0 <= i < |vars| && ToOverride(vars[i]) == Ok(list[n]);
        TextIsGood(parse, vars[i]);
      }
    }
  }

  /** The environment is applied exactly when it is good; otherwise there is an error. */
  lemma AppliedIff(document: Json, parse: Parser, env: map<string, string>, vars: seq<Variable>)
    requires document.Obj?
    ensures ApplyShipped(document, parse, env, vars).Ok? <==> GoodEnvironment(parse, env, vars)
  {
    PlainPartAccepted(parse, env);
    CollectOkIff(vars);
    if Collect(vars).Ok? {
      DistinctIff(vars);
      if IndexedOverrides(vars).Ok? {
        TextsAccepted(parse, vars);
      }
    }
  }
}
