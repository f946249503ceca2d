/** Pointers as integers into a store, and sequences of them. */
module Pointers {
  type Ptr = int
  const NULL: Ptr := 0

  datatype Option<+T> = None | Some(value: T)

  ghost function Elems(ps: seq<Ptr>): set<Ptr> {
    set p | p in ps
  }

  ghost predicate Distinct(ps: seq<Ptr>) {
    forall i, j :: 0 <= i < j < |ps| ==> ps[i] != ps[j]
  }

  // ps without the item p.
  function Without(ps: seq<Ptr>, p: Ptr): seq<Ptr> {
    if ps == [] then []
    else Without(ps[..|ps| - 1], p) + if ps[|ps| - 1] == p then [] else [ps[|ps| - 1]]
  }

  lemma {:induction false} WithoutOne(ps: seq<Ptr>, k: nat)
    requires Distinct(ps) && k < |ps|
    ensures Without(ps, ps[k]) == ps[..k] + ps[k + 1..]
  {
    var ms := ps[..|ps| - 1];
    if k < |ms| {
      WithoutOne(ms, k);
      assert ps[..k] + ps[k + 1..] == ms[..k] + ms[k + 1..] + [ps[|ps| - 1]];
    } else {
      WithoutNone(ms, ps[k]);
      assert ps[..k] + ps[k + 1..] == ms;
    }
  }

  lemma {:induction false} WithoutNone(ps: seq<Ptr>, p: Ptr)
    requires p !in ps
    ensures Without(ps, p) == ps
  {
    if ps != [] {
      assert forall q :: q in ps[..|ps| - 1] ==> q in ps;
      WithoutNone(ps[..|ps| - 1], p);
      assert ps == ps[..|ps| - 1] + [ps[|ps| - 1]];
    }
  }

  lemma {:induction false} WithoutSplit(q: seq<Ptr>, r: seq<Ptr>, p: Ptr)
    ensures Without(q + r, p) == Without(q, p) + Without(r, p)
  {
    if r == [] {
      assert q + r == q;
    } else {
      assert (q + r)[..|q + r| - 1] == q + r[..|r| - 1];
      WithoutSplit(q, r[..|r| - 1], p);
    }
  }

  lemma {:induction false} WithoutElems(ps: seq<Ptr>, p: Ptr)
    ensures forall q :: q in Without(ps, p) <==> q in ps && q != p
  {
    if ps != [] {
      var m, x := ps[..|ps| - 1], ps[|ps| - 1];
      WithoutElems(m, p);
      assert ps == m + [x];
    }
  }

  lemma SomeElem<T>(a: set<T>) returns (x: T)
    requires a != {}
    ensures x in a
  {
    x :| x in a;
  }
}
