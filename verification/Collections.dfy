/** Sets and the lists that queries return them in. */
module Collections {

  /** The elements of a set in some order. */
  method ToSeq<T>(s: set<T>) returns (q: seq<T>)
    ensures forall x :: x in q <==> x in s
    ensures forall i, j :: 0 <= i < j < |q| ==> q[i] != q[j]
  {
    q := [];
    var rest := s;
    while rest != {}
      invariant rest <= s
      invariant forall i :: 0 <= i < |q| ==> q[i] in s && q[i] !in rest
      invariant forall x :: x in s ==> x in rest || x in q
      invariant forall i, j :: 0 <= i < j < |q| ==> q[i] != q[j]
    {
      var x :| x in rest;
      q, rest := q + [x], rest - {x};
    }
  }

  lemma Member<T>(s: set<T>) returns (x: T)
    requires s != {}
    ensures x in s
  {
    x :| x in s;
  }

  function Elements<T>(q: seq<T>): set<T> {
    set x | x in q
  }

  lemma ElementsOfPrefix<T>(q: seq<T>, a: nat, b: nat)
    requires a <= b <= |q|
    ensures Elements(q[..b]) == Elements(q[..a]) + Elements(q[a..b])
  {
    assert q[..b] == q[..a] + q[a..b];
  }

  lemma {:induction false} SizeOfDistinct<T>(q: seq<T>)
    requires forall i, j :: 0 <= i < j < |q| ==> q[i] != q[j]
    ensures |Elements(q)| == |q|
    decreases |q|
  {
    if q != [] {
      var init, last := q[..|q| - 1], q[|q| - 1];
      SizeOfDistinct(init);
      assert q == init + [last];
      assert Elements(q) == Elements(init) + {last};
    }
  }
}
