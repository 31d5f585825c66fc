/** The configuration document as a tree, and reading and writing a path in it. Written on values:
    a write returns the new document. */
module ConfigTree {
  import opened Text

  /** A parsed document; `Undefined` is what a missing field or an array hole reads as. */
  datatype Json = Undefined | Scalar(text: string) | Arr(items: seq<Json>) | Obj(fields: map<string, Json>)

  datatype Key = Name(name: string) | Index(index: nat)

  type Path = seq<Key>

  function FieldName(key: Key): string {
    if key.Name? then key.name else Decimal(key.index)
  }

  /** One step of a read. A name is never a numeral, so it finds nothing in an array. */
  function Child(node: Json, key: Key): Json {
    match node
    case Arr(items) => if key.Index? && key.index < |items| then items[key.index] else Undefined
    case Obj(fields) => if FieldName(key) in fields then fields[FieldName(key)] else Undefined
    case _ => Undefined
  }

  /** getConfigPath as a value. */
  function Get(node: Json, path: Path): Json
    decreases |path|
  {
    if path == [] then node else Get(Child(node, path[0]), path[1..])
  }

  /** The walk itself: it stops at the first node that is not an object. */
  method GetConfigPath(document: Json, path: Path) returns (value: Json)
    ensures value == Get(document, path)
  {
    var current := document;
    for i := 0 to |path|
      invariant Get(document, path) == Get(current, path[i..])
    {
      if !current.Arr? && !current.Obj? {
        GetFromLeaf(current, path[i..]);
        return Undefined;
      }
      current := Child(current, path[i]);
      assert path[i..][1..] == path[i + 1..];
    }
    value := current;
  }

  lemma {:induction false} GetFromLeaf(node: Json, path: Path)
    requires !node.Arr? && !node.Obj? && path != []
    ensures Get(node, path) == Undefined
    decreases |path|
  {
    if |path| > 1 {
      GetFromLeaf(Undefined, path[1..]);
    }
  }

  /** Whether a node is the kind of container the key belongs in. */
  predicate Holds(node: Json, key: Key) {
    if key.Index? then node.Arr? else node.Obj?
  }

  function Empty(key: Key): Json {
    if key.Index? then Arr([]) else Obj(map[])
  }

  /** Assigning an element or field; an array grows with holes. */
  function SetChild(node: Json, key: Key, value: Json): (r: Json)
    requires Holds(node, key)
    ensures Holds(r, key) && Child(r, key) == value
    ensures forall other: Key :: other != key && other.Name? == key.Name? ==> Child(r, other) == Child(node, other)
  {
    if key.Name? then Obj(node.fields[key.name := value])
    else if key.index < |node.items| then Arr(node.items[key.index := value])
    else Arr(node.items + seq(key.index - |node.items|, _ => Undefined) + [value])
  }

  /** setConfigPath: containers of the wrong kind on the way are replaced by empty ones. */
  function Set(node: Json, path: Path, value: Json): (r: Json)
    requires path != [] && Holds(node, path[0])
    ensures Holds(r, path[0])
    decreases |path|
  {
    if |path| == 1 then SetChild(node, path[0], value)
    else
      var existing := Child(node, path[0]);
      var container := if Holds(existing, path[1]) then existing else Empty(path[1]);
      SetChild(node, path[0], Set(container, path[1..], value))
  }

  /** Every container along the path has the kind its key asks for. */
  predicate Kinded(node: Json, path: Path)
    decreases |path|
  {
    path != [] ==> Holds(node, path[0]) && (|path| > 1 ==> Kinded(Child(node, path[0]), path[1..]))
  }

  /** The paths part ways at keys of one kind, so neither contains the other. */
  predicate Diverge(p: Path, q: Path)
    decreases |p|
  {
    && p != [] && q != []
    && if p[0] == q[0] then Diverge(p[1..], q[1..]) else p[0].Name? == q[0].Name?
  }

  /** A write is read back, and leaves its path well kinded. */
  lemma {:induction false} GetSet(node: Json, path: Path, value: Json)
    requires path != [] && Holds(node, path[0])
    ensures Get(Set(node, path, value), path) == value
    ensures Kinded(Set(node, path, value), path)
    decreases |path|
  {
    if |path| > 1 {
      var existing := Child(node, path[0]);
      var container := if Holds(existing, path[1]) then existing else Empty(path[1]);
      GetSet(container, path[1..], value);
    }
  }

  /** A write elsewhere changes nothing that was well kinded. */
  lemma {:induction false} GetSetOther(node: Json, p: Path, value: Json, q: Path)
    requires Diverge(p, q) && Kinded(node, q) && Holds(node, p[0])
    ensures Get(Set(node, p, value), q) == Get(node, q)
    ensures Kinded(Set(node, p, value), q)
    decreases |p|
  {
    if p[0] == q[0] {
      GetSetOther(Child(node, p[0]), p[1..], value, q[1..]);
    }
  }

  /** Reading past a written value reads inside it. */
  lemma {:induction false} GetAppend(node: Json, p: Path, q: Path)
    ensures Get(node, p + q) == Get(Get(node, p), q)
    decreases |p|
  {
    if p == [] {
      assert p + q == q;
    } else {
      assert (p + q)[1..] == p[1..] + q;
      GetAppend(Child(node, p[0]), p[1..], q);
    }
  }

  lemma {:induction false} KindedAppend(node: Json, p: Path, key: Key)
    requires p != [] && Kinded(node, p) && Holds(Get(node, p), key)
    ensures Kinded(node, p + [key])
    decreases |p|
  {
    assert (p + [key])[1..] == p[1..] + [key];
    if |p| > 1 {
      KindedAppend(Child(node, p[0]), p[1..], key);
    } else {
      assert Get(node, p) == Child(node, p[0]);
    }
  }

  lemma {:induction false} DivergeAt(p: Path, q: Path, k: nat)
    requires k < |p| && k < |q| && p[..k] == q[..k] && p[k] != q[k] && p[k].Name? == q[k].Name?
    ensures Diverge(p, q)
    decreases k
  {
    if k > 0 {
      assert p[0] == p[..k][0] == q[..k][0];
      assert p[1..][..k - 1] == p[..k][1..] && q[1..][..k - 1] == q[..k][1..];
      DivergeAt(p[1..], q[1..], k - 1);
    }
  }
}
