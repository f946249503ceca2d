/** The intrusive doubly linked lists of libco/co_routine.cpp: RemoveFromLink, AddTail, PopHead and
    Join.  Items and list heads live in an explicit store, so that an item left on two lists, or a
    stale link, would be visible. */
module CoLinks {
  import opened Pointers

  datatype Item = Item(prev: Ptr, next: Ptr, link: Ptr)
  datatype Head = Head(head: Ptr, tail: Ptr)

  const UNLINKED := Item(NULL, NULL, NULL)

  type Items = map<Ptr, Item>
  type Heads = map<Ptr, Head>
  type Content = map<Ptr, seq<Ptr>>

  // What the item at position i of the list ps with head object l holds.
  ghost function Placed(ps: seq<Ptr>, l: Ptr, i: nat): (r: Item)
    requires i < |ps|
    ensures r.link == l
  {
    Item(if i > 0 then ps[i - 1] else NULL, if i + 1 < |ps| then ps[i + 1] else NULL, l)
  }

  ghost function HeadOf(ps: seq<Ptr>): Head {
    if ps == [] then Head(NULL, NULL) else Head(ps[0], ps[|ps| - 1])
  }

  // The list with head object l holds exactly the items ps, in this order.
  ghost predicate IsList(items: Items, l: Ptr, ps: seq<Ptr>) {
    && Distinct(ps)
    && (forall i :: 0 <= i < |ps| ==> ps[i] != NULL && ps[i] in items && items[ps[i]] == Placed(ps, l, i))
    && (forall p :: p in items && items[p].link == l ==> p in ps)
  }

  // Every list holds its content, and an item that is on no list is unlinked.
  ghost predicate Inv(items: Items, heads: Heads, content: Content) {
    && content.Keys == heads.Keys && NULL !in heads
    && (forall l :: l in heads ==> heads[l] == HeadOf(content[l]) && IsList(items, l, content[l]))
    && (forall p :: p in items ==> items[p] == UNLINKED || items[p].link in heads)
  }

  // The items of a list name it.
  lemma Names(items: Items, heads: Heads, content: Content, l: Ptr, p: Ptr)
    requires Inv(items, heads, content) && l in content && p in content[l]
    ensures p in items && p != NULL && items[p].link == l
  {
    var i :| 0 <= i < |content[l]| && content[l][i] == p;
    assert IsList(items, l, content[l]);
  }

  // No item is on two lists.
  lemma OnOneList(items: Items, heads: Heads, content: Content, l: Ptr, k: Ptr, p: Ptr)
    requires Inv(items, heads, content) && l in content && k in content && p in content[l] && p in content[k]
    ensures l == k
  {
    Names(items, heads, content, l, p);
    Names(items, heads, content, k, p);
  }

  // Only items of the lists ls, or unlinked ones, changed, and they went to no other list.
  ghost predicate OnlyLists(items: Items, items': Items, ls: set<Ptr>) {
    && items'.Keys == items.Keys
    && forall p :: p in items && items'[p] != items[p] ==> items[p].link in ls && items'[p].link in ls
  }

  lemma ListFrame(items: Items, items': Items, ls: set<Ptr>, k: Ptr, ps: seq<Ptr>)
    requires IsList(items, k, ps) && OnlyLists(items, items', ls) && k !in ls
    ensures IsList(items', k, ps)
  {
  }

  // Rewriting list l, and list o, keeps the invariant.
  lemma Rewrite(items: Items, heads: Heads, content: Content, l: Ptr, o: Ptr, items': Items, ps: seq<Ptr>, qs: seq<Ptr>)
    requires Inv(items, heads, content) && l in heads && o in heads && OnlyLists(items, items', {NULL, l, o})
    requires IsList(items', l, ps) && IsList(items', o, qs) && (l == o ==> ps == qs)
    requires forall p :: p in items' && items'[p].link == NULL ==> items'[p] == UNLINKED
    ensures Inv(items', heads[l := HeadOf(ps)][o := HeadOf(qs)], content[l := ps][o := qs])
  {
    hide IsList;
    var content' := content[l := ps][o := qs];
    forall k | k in heads && k != l && k != o ensures IsList(items', k, content'[k]) {
      ListFrame(items, items', {NULL, l, o}, k, content[k]);
    }
  }

  lemma PlacedAppend(ps: seq<Ptr>, p: Ptr, l: Ptr, i: nat)
    requires i <= |ps|
    ensures Placed(ps + [p], l, i) == if i == |ps| then Item(if ps == [] then NULL else ps[i - 1], NULL, l)
                                      else if i + 1 == |ps| then Placed(ps, l, i).(next := p)
                                      else Placed(ps, l, i)
  {
  }

  // What AddTail writes.
  ghost function Appended(items: Items, l: Ptr, ps: seq<Ptr>, p: Ptr): Items
    requires IsList(items, l, ps)
  {
    if ps == [] then items[p := Item(NULL, NULL, l)]
    else var t := ps[|ps| - 1]; items[t := items[t].(next := p)][p := Item(t, NULL, l)]
  }

  lemma AppendedList(items: Items, l: Ptr, ps: seq<Ptr>, p: Ptr)
    requires IsList(items, l, ps) && p in items && items[p].link == NULL && l != NULL && p != NULL
    ensures var items' := Appended(items, l, ps, p);
            IsList(items', l, ps + [p]) && OnlyLists(items, items', {NULL, l}) && items'[p].link == l
            && forall q :: q in items && q != p ==> items'[q].link == items[q].link && (items[q] == UNLINKED ==> items'[q] == UNLINKED)
  {
    hide Placed;
    var qs, items' := ps + [p], Appended(items, l, ps, p);
    assert forall i :: 0 <= i < |ps| ==> ps[i] != p && qs[i] == ps[i];
    forall i | 0 <= i < |qs| ensures qs[i] in items' && items'[qs[i]] == Placed(qs, l, i) {
      PlacedAppend(ps, p, l, i);
    }
    assert qs[|ps|] == p;
  }

  lemma PlacedWithout(ps: seq<Ptr>, k: nat, l: Ptr, i: nat)
    requires k < |ps| && i < |ps| - 1
    ensures var j := if i < k then i else i + 1;
            var q := Placed(ps, l, j);
            Placed(ps[..k] + ps[k + 1..], l, i) ==
            if j + 1 == k then q.(next := if k + 1 < |ps| then ps[k + 1] else NULL)
            else if j == k + 1 then q.(prev := if k > 0 then ps[k - 1] else NULL) else q
  {
  }

  // What RemoveFromLink writes when it unlinks the item at position k.
  ghost function Removed(items: Items, l: Ptr, ps: seq<Ptr>, k: nat): Items
    requires IsList(items, l, ps) && k < |ps|
  {
    var a := if k > 0 then items[ps[k - 1] := items[ps[k - 1]].(next := items[ps[k]].next)] else items;
    var b := if k + 1 < |ps| then a[ps[k + 1] := a[ps[k + 1]].(prev := items[ps[k]].prev)] else a;
    b[ps[k] := UNLINKED]
  }

  lemma RemovedList(items: Items, l: Ptr, ps: seq<Ptr>, k: nat)
    requires IsList(items, l, ps) && k < |ps| && l != NULL
    ensures var items' := Removed(items, l, ps, k);
            IsList(items', l, ps[..k] + ps[k + 1..]) && OnlyLists(items, items', {NULL, l}) && items'[ps[k]] == UNLINKED
            && forall q :: q in items && q != ps[k] ==> items'[q].link == items[q].link && (items[q] == UNLINKED ==> items'[q] == UNLINKED)
  {
    hide Placed, OnlyLists, Removed;
    RemovedLinks(items, l, ps, k);
    var qs, items' := ps[..k] + ps[k + 1..], Removed(items, l, ps, k);
    forall i | 0 <= i < |qs| ensures qs[i] in items' && items'[qs[i]] == Placed(qs, l, i) {
      var j := if i < k then i else i + 1;
      assert qs[i] == ps[j];
      RemovedAt(items, l, ps, k, j);
      PlacedWithout(ps, k, l, i);
      PlacedAt(ps, l, k);
    }
    forall q | q in items' && items'[q].link == l ensures q in qs {
      var j :| 0 <= j < |ps| && ps[j] == q;
      assert q == qs[if j < k then j else j - 1];
    }
  }

  // What becomes of another item of the list ...
  lemma RemovedAt(items: Items, l: Ptr, ps: seq<Ptr>, k: nat, j: nat)
    requires IsList(items, l, ps) && k < |ps| && j < |ps| && j != k
    ensures ps[j] in Removed(items, l, ps, k)
    ensures Removed(items, l, ps, k)[ps[j]] ==
            if j + 1 == k then Placed(ps, l, j).(next := Placed(ps, l, k).next)
            else if j == k + 1 then Placed(ps, l, j).(prev := Placed(ps, l, k).prev)
            else Placed(ps, l, j)
  {
    hide Placed;
    assert ps[j] != ps[k] && items[ps[j]] == Placed(ps, l, j) && items[ps[k]] == Placed(ps, l, k);
    assert k > 0 && j != k - 1 ==> ps[j] != ps[k - 1];
    assert k + 1 < |ps| && j != k + 1 ==> ps[j] != ps[k + 1];
  }

  // ... and of the links of all.
  lemma RemovedLinks(items: Items, l: Ptr, ps: seq<Ptr>, k: nat)
    requires IsList(items, l, ps) && k < |ps| && l != NULL
    ensures var items' := Removed(items, l, ps, k);
            && items'.Keys == items.Keys && OnlyLists(items, items', {NULL, l}) && items'[ps[k]] == UNLINKED
            && forall q :: q in items && q != ps[k] ==> items'[q].link == items[q].link && (items[q] == UNLINKED ==> items'[q] == UNLINKED)
  {
    var items' := Removed(items, l, ps, k);
    LinkOf(items, l, ps, k);
    assert items'.Keys == items.Keys;
    hide Removed;
    forall q | q in items && q != ps[k]
      ensures items'[q].link == items[q].link && (items'[q] != items[q] ==> items[q].link == l)
    {
      RemovedOther(items, l, ps, k, q);
    }
    hide IsList;
  }

  lemma RemovedOther(items: Items, l: Ptr, ps: seq<Ptr>, k: nat, q: Ptr)
    requires IsList(items, l, ps) && k < |ps| && q in items && q != ps[k]
    ensures var items' := Removed(items, l, ps, k);
            q in items' && items'[q].link == items[q].link && (items'[q] != items[q] ==> items[q].link == l)
  {
    LinkOf(items, l, ps, k);
    if k > 0 { LinkOf(items, l, ps, k - 1); }
    if k + 1 < |ps| { LinkOf(items, l, ps, k + 1); }
    hide IsList;
    var x := items[ps[k]];
    var a := if k > 0 then items[ps[k - 1] := items[ps[k - 1]].(next := x.next)] else items;
    assert q in a && a[q].link == items[q].link && (a[q] != items[q] ==> items[q].link == l);
    assert k + 1 < |ps| ==> ps[k + 1] in a && a[ps[k + 1]].link == l;
    var b := if k + 1 < |ps| then a[ps[k + 1] := a[ps[k + 1]].(prev := x.prev)] else a;
    assert q in b && b[q].link == a[q].link && (b[q] != a[q] ==> a[q].link == l);
    assert Removed(items, l, ps, k) == b[ps[k] := UNLINKED];
  }

  lemma LinkOf(items: Items, l: Ptr, ps: seq<Ptr>, i: nat)
    requires IsList(items, l, ps) && i < |ps|
    ensures ps[i] in items && items[ps[i]].link == l
  {
  }

  lemma PlacedAt(ps: seq<Ptr>, l: Ptr, k: nat)
    requires k < |ps|
    ensures Placed(ps, l, k).next == if k + 1 < |ps| then ps[k + 1] else NULL
    ensures Placed(ps, l, k).prev == if k > 0 then ps[k - 1] else NULL
  {
  }

  // The first k items of qs name the list l.
  ghost function Relabelled(items: Items, qs: seq<Ptr>, k: nat, l: Ptr): Items
    requires k <= |qs|
  {
    map q | q in items :: if q in qs[..k] then items[q].(link := l) else items[q]
  }

  lemma RelabelNext(items: Items, qs: seq<Ptr>, k: nat, l: Ptr, o: Ptr)
    requires IsList(items, o, qs) && k < |qs|
    ensures var m := Relabelled(items, qs, k, l);
            qs[k] in m && m[qs[k]] == items[qs[k]]
            && Relabelled(items, qs, k + 1, l) == m[qs[k] := m[qs[k]].(link := l)]
            && m[qs[k]].next == if k + 1 < |qs| then qs[k + 1] else NULL
  {
    PlacedAt(qs, o, k);
    hide Placed;
    assert qs[..k + 1] == qs[..k] + [qs[k]];
    assert qs[k] !in qs[..k];
  }

  // What Join writes.
  ghost function Joined(items: Items, l: Ptr, ps: seq<Ptr>, o: Ptr, qs: seq<Ptr>): Items
    requires IsList(items, l, ps) && IsList(items, o, qs) && qs != []
  {
    var m := Relabelled(items, qs, |qs|, l);
    if ps == [] then m
    else
      var t := ps[|ps| - 1];
      var a := m[t := m[t].(next := qs[0])];
      a[qs[0] := a[qs[0]].(prev := t)]
  }

  lemma PlacedJoin(ps: seq<Ptr>, qs: seq<Ptr>, l: Ptr, o: Ptr, i: nat)
    requires qs != [] && i < |ps| + |qs|
    ensures Placed(ps + qs, l, i) ==
            if i + 1 < |ps| then Placed(ps, l, i)
            else if i < |ps| then Placed(ps, l, i).(next := qs[0])
            else if i == |ps| && ps != [] then Placed(qs, o, 0).(link := l, prev := ps[|ps| - 1])
            else Placed(qs, o, i - |ps|).(link := l)
  {
  }

  lemma JoinedList(items: Items, l: Ptr, ps: seq<Ptr>, o: Ptr, qs: seq<Ptr>)
    requires IsList(items, l, ps) && IsList(items, o, qs) && qs != [] && l != o && l != NULL && o != NULL
    ensures var items' := Joined(items, l, ps, o, qs);
            IsList(items', l, ps + qs) && IsList(items', o, []) && OnlyLists(items, items', {NULL, l, o})
            && forall q :: q in items ==> (items[q].link == NULL ==> items'[q] == items[q])
                                          && items'[q].link == if items[q].link == o then l else items[q].link
  {
    hide Placed;
    var items' := Joined(items, l, ps, o, qs);
    assert qs[..|qs|] == qs;
    forall i | 0 <= i < |ps| ensures ps[i] !in qs {
    }
    JoinedItems(items, l, ps, o, qs);
    forall i | 0 <= i < |ps + qs| ensures (ps + qs)[i] in items' && items'[(ps + qs)[i]] == Placed(ps + qs, l, i) {
      PlacedJoin(ps, qs, l, o, i);
    }
  }

  lemma JoinedItems(items: Items, l: Ptr, ps: seq<Ptr>, o: Ptr, qs: seq<Ptr>)
    requires IsList(items, l, ps) && IsList(items, o, qs) && qs != [] && l != o && l != NULL && o != NULL
    ensures var items' := Joined(items, l, ps, o, qs);
            items'.Keys == items.Keys
            && (forall i :: 0 <= i < |ps| ==> items'[ps[i]] == if i + 1 < |ps| then items[ps[i]] else items[ps[i]].(next := qs[0]))
            && (forall i :: 0 <= i < |qs| ==> items'[qs[i]] == if i == 0 && ps != [] then items[qs[i]].(link := l, prev := ps[|ps| - 1])
                                                              else items[qs[i]].(link := l))
            && (forall q :: q in items && q !in ps && q !in qs ==> items'[q] == items[q])
  {
    hide Placed;
    assert qs[..|qs|] == qs;
    forall i | 0 <= i < |ps| ensures ps[i] !in qs {
    }
  }

  lemma ListFacts(items: Items, heads: Heads, content: Content, l: Ptr)
    requires Inv(items, heads, content) && l in heads
    ensures l != NULL && l in content && heads[l] == HeadOf(content[l]) && IsList(items, l, content[l])
    ensures content.Keys == heads.Keys
    ensures heads[l].tail == NULL <==> content[l] == []
    ensures heads[l].head == NULL <==> content[l] == []
    ensures content[l] != [] ==> heads[l].tail in items && heads[l].tail in content[l] && items[heads[l].tail].link == l
    ensures content[l] != [] ==> heads[l].head in items && heads[l].head in content[l] && items[heads[l].head].link == l
  {
  }

  // Every item but p keeps its list.
  ghost predicate Moved(items: Items, items': Items, p: Ptr, l: Ptr) {
    && items'.Keys == items.Keys
    && forall q :: q in items ==> items'[q].link == if q == p then l else items[q].link
  }

  lemma AppendInv(items: Items, heads: Heads, content: Content, l: Ptr, p: Ptr)
    requires Inv(items, heads, content) && l in heads && p in items && p != NULL && items[p].link == NULL
    ensures l in content && IsList(items, l, content[l])
    ensures var ps, items' := content[l], Appended(items, l, content[l], p);
            Inv(items', heads[l := HeadOf(ps + [p])], content[l := ps + [p]]) && Moved(items, items', p, l)
  {
    ListFacts(items, heads, content, l);
    var ps, items' := content[l], Appended(items, l, content[l], p);
    AppendedList(items, l, ps, p);
    assert {NULL, l, l} == {NULL, l};
    forall q | q in items' && items'[q].link == NULL ensures items'[q] == UNLINKED {
      assert q != p && items[q] == UNLINKED;
    }
    Rewrite(items, heads, content, l, l, items', ps + [p], ps + [p]);
    assert heads[l := HeadOf(ps + [p])][l := HeadOf(ps + [p])] == heads[l := HeadOf(ps + [p])];
    assert content[l := ps + [p]][l := ps + [p]] == content[l := ps + [p]];
  }

  // The item p of list l is at some position k.
  lemma RemoveInv(items: Items, heads: Heads, content: Content, p: Ptr) returns (k: nat)
    requires Inv(items, heads, content) && p in items && items[p].link != NULL
    ensures items[p].link in heads && items[p].link in content && IsList(items, items[p].link, content[items[p].link])
    ensures k < |content[items[p].link]| && content[items[p].link][k] == p
    ensures var l := items[p].link;
            var ps := Without(content[l], p);
            var items' := Removed(items, l, content[l], k);
            ps == content[l][..k] + content[l][k + 1..]
            && Inv(items', heads[l := HeadOf(ps)], content[l := ps]) && Moved(items, items', p, NULL)
  {
    var l := items[p].link;
    ListFacts(items, heads, content, l);
    var qs := content[l];
    assert p in qs;
    k :| 0 <= k < |qs| && qs[k] == p;
    var ps, items' := Without(qs, p), Removed(items, l, qs, k);
    WithoutOne(qs, k);
    RemovedList(items, l, qs, k);
    assert {NULL, l, l} == {NULL, l};
    forall q | q in items' && items'[q].link == NULL ensures items'[q] == UNLINKED {
      assert q == p || items[q] == UNLINKED;
    }
    Rewrite(items, heads, content, l, l, items', ps, ps);
    assert heads[l := HeadOf(ps)][l := HeadOf(ps)] == heads[l := HeadOf(ps)];
    assert content[l := ps][l := ps] == content[l := ps];
  }

  lemma JoinInv(items: Items, heads: Heads, content: Content, l: Ptr, o: Ptr)
    requires Inv(items, heads, content) && l in heads && o in heads && l != o && o in content && content[o] != []
    ensures l in content && IsList(items, l, content[l]) && IsList(items, o, content[o])
    ensures var ps, items' := content[l] + content[o], Joined(items, l, content[l], o, content[o]);
            Inv(items', heads[l := HeadOf(ps)][o := Head(NULL, NULL)], content[l := ps][o := []])
            && items'.Keys == items.Keys
            && forall q :: q in items ==> items'[q].link == if items[q].link == o then l else items[q].link
  {
    ListFacts(items, heads, content, l);
    ListFacts(items, heads, content, o);
    var ps, items' := content[l] + content[o], Joined(items, l, content[l], o, content[o]);
    JoinedList(items, l, content[l], o, content[o]);
    forall q | q in items' && items'[q].link == NULL ensures items'[q] == UNLINKED {
      assert items[q].link == NULL;
    }
    Rewrite(items, heads, content, l, o, items', ps, []);
  }

  // Unlinked items come and go freely.
  lemma ItemsInv(items: Items, items': Items, heads: Heads, content: Content)
    requires Inv(items, heads, content)
    requires forall p :: p in items && items[p].link != NULL ==> p in items' && items'[p] == items[p]
    requires forall p :: p in items' ==> if p in items then items'[p] == items[p] else items'[p] == UNLINKED
    ensures Inv(items', heads, content)
  {
    forall l | l in heads ensures IsList(items', l, content[l]) {
      assert IsList(items, l, content[l]);
      hide Placed;
    }
  }

  class LinkStore {
    var items: Items
    var heads: Heads
    ghost var content: Content

    ghost predicate Valid()
      reads this
    {
      Inv(items, heads, content)
    }

    constructor ()
      ensures Valid() && items == map[] && heads == map[]
    {
      items, heads, content := map[], map[], map[];
    }

    // a new list, cleared as calloc leaves it
    method AllocList(l: Ptr)
      requires Valid() && l !in heads && l != NULL
      modifies this`heads, this`content
      ensures Valid() && heads == old(heads)[l := Head(NULL, NULL)] && content == old(content)[l := []]
    {
      assert forall p :: p in items ==> items[p].link != l;
      heads, content := heads[l := Head(NULL, NULL)], content[l := []];
    }

    // a new item, cleared as calloc leaves it
    method Alloc(p: Ptr)
      requires Valid() && p !in items && p != NULL
      modifies this`items
      ensures Valid() && items == old(items)[p := UNLINKED]
    {
      ItemsInv(items, items[p := UNLINKED], heads, content);
      items := items[p := UNLINKED];
    }

    // freeing an item that is on no list
    method Free(p: Ptr)
      requires Valid() && p in items && items[p].link == NULL
      modifies this`items
      ensures Valid() && items == old(items) - {p}
    {
      ItemsInv(items, items - {p}, heads, content);
      items := items - {p};
    }

    // AddTail: no effect on an item that is already on a list
    method AddTail(l: Ptr, p: Ptr)
      requires Valid() && l in heads && p in items && p != NULL
      modifies this
      ensures Valid() && heads.Keys == old(heads.Keys) && content.Keys == old(content.Keys)
      ensures old(items)[p].link != NULL ==> items == old(items) && content == old(content)
      ensures old(items)[p].link == NULL ==> l in old(content) && content == old(content)[l := old(content)[l] + [p]]
                                             && Moved(old(items), items, p, l)
    {
      hide Inv, IsList, Placed, Moved;
      if items[p].link != NULL {
        return;
      }
      ListFacts(items, heads, content, l);
      AppendInv(items, heads, content, l, p);
      ghost var ps := content[l];
      var tail := heads[l].tail;
      if tail != NULL {
        items := items[tail := items[tail].(next := p)];
        items := items[p := items[p].(next := NULL, prev := tail)];
        heads := heads[l := heads[l].(tail := p)];
      } else {
        heads := heads[l := Head(p, p)];
        items := items[p := items[p].(next := NULL, prev := NULL)];
      }
      items := items[p := items[p].(link := l)];
      content := content[l := ps + [p]];
      assert items == Appended(old(items), l, ps, p);
      assert heads == old(heads)[l := HeadOf(ps + [p])];
    }

    // RemoveFromLink: no effect on an item that is on no list
    method RemoveFromLink(p: Ptr)
      requires Valid() && p in items
      modifies this
      ensures Valid() && heads.Keys == old(heads.Keys) && content.Keys == old(content.Keys) && Moved(old(items), items, p, NULL)
      ensures var l := old(items)[p].link;
              if l == NULL then content == old(content)
              else l in old(content) && content == old(content)[l := Without(old(content)[l], p)]
    {
      hide Inv, IsList, Placed, Without;
      var l := items[p].link;
      if l == NULL {
        return;
      }
      ghost var k := RemoveInv(items, heads, content, p);
      ListFacts(items, heads, content, l);
      ghost var ps := content[l];
      PlacedFacts(items, l, ps, k);
      ghost var items0, nx, pv := items, items[p].next, items[p].prev;
      if p == heads[l].head {
        heads := heads[l := heads[l].(head := items[p].next)];
        if heads[l].head != NULL {
          items := items[heads[l].head := items[heads[l].head].(prev := NULL)];
        }
      } else {
        if items[p].prev != NULL {
          items := items[items[p].prev := items[items[p].prev].(next := items[p].next)];
        }
      }
      ghost var items1 := items;
      if p == heads[l].tail {
        heads := heads[l := heads[l].(tail := items[p].prev)];
        if heads[l].tail != NULL {
          items := items[heads[l].tail := items[heads[l].tail].(next := NULL)];
        }
      } else {
        items := items[items[p].next := items[items[p].next].(prev := items[p].prev)];
      }
      RemovedIs(items0, l, ps, k, items1, items);
      items := items[p := Item(NULL, NULL, NULL)];
      content := content[l := Without(ps, p)];
      assert heads == old(heads)[l := HeadOf(ps[..k] + ps[k + 1..])];
    }

    // PopHead
    method PopHead(l: Ptr)
      requires Valid() && l in heads
      modifies this
      ensures Valid() && heads.Keys == old(heads.Keys) && content.Keys == old(content.Keys)
      ensures l in old(content)
      ensures old(content)[l] == [] ==> items == old(items) && content == old(content)
      ensures old(content)[l] != [] ==>
                content == old(content)[l := old(content)[l][1..]] && Moved(old(items), items, old(content)[l][0], NULL)
    {
      hide Inv, IsList, Placed, Without, Distinct;
      ListFacts(items, heads, content, l);
      if heads[l].head == NULL {
        return;
      }
      ghost var ps := content[l];
      var p := heads[l].head;
      ghost var k := RemoveInv(items, heads, content, p);
      PlacedFacts(items, l, ps, k);
      PlacedFacts(items, l, ps, 0);
      assert ps[..0] + ps[1..] == ps[1..];
      if heads[l].head == heads[l].tail {
        heads := heads[l := Head(NULL, NULL)];
      } else {
        heads := heads[l := heads[l].(head := items[heads[l].head].next)];
      }
      items := items[p := UNLINKED];
      if heads[l].head != NULL {
        items := items[heads[l].head := items[heads[l].head].(prev := NULL)];
      }
      content := content[l := ps[1..]];
      assert items == Removed(old(items), l, ps, 0);
      assert heads == old(heads)[l := HeadOf(ps[1..])];
    }

    // Join: all items of list o go to the end of list l
    method Join(l: Ptr, o: Ptr)
      requires Valid() && l in heads && o in heads && l != o
      modifies this
      ensures Valid() && heads.Keys == old(heads.Keys) && content.Keys == old(content.Keys) && items.Keys == old(items.Keys)
      ensures l in old(content) && o in old(content)
      ensures content == old(content)[l := old(content)[l] + old(content)[o]][o := []]
      ensures forall q :: q in items ==> items[q].link == if old(items)[q].link == o then l else old(items)[q].link
    {
      hide Inv, IsList, Placed, Distinct;
      ListFacts(items, heads, content, l);
      ListFacts(items, heads, content, o);
      ghost var ps, qs := content[l], content[o];
      if heads[o].head == NULL {
        EmptyJoin(items, heads, content, l, o);
        return;
      }
      JoinInv(items, heads, content, l, o);
      Relabel(l, o);
      var lp := heads[o].head;
      JoinFacts(old(items), l, ps, o, qs);
      if heads[l].tail != NULL {
        items := items[heads[l].tail := items[heads[l].tail].(next := lp)];
        items := items[lp := items[lp].(prev := heads[l].tail)];
        heads := heads[l := heads[l].(tail := heads[o].tail)];
      } else {
        heads := heads[l := heads[l].(head := heads[o].head)];
        heads := heads[l := heads[l].(tail := heads[o].tail)];
      }
      heads := heads[o := Head(NULL, NULL)];
      content := content[l := ps + qs][o := []];
      assert items == Joined(old(items), l, ps, o, qs);
      assert heads == old(heads)[l := HeadOf(ps + qs)][o := Head(NULL, NULL)];
    }

    // the loop of Join: every item of list o now names list l
    method Relabel(l: Ptr, o: Ptr)
      requires Valid() && o in heads && o in content && content[o] != []
      modifies this`items
      ensures items == Relabelled(old(items), content[o], |content[o]|, l)
    {
      hide Inv, IsList, Placed, Distinct, Relabelled;
      ListFacts(items, heads, content, o);
      ghost var qs, k: nat := content[o], 0;
      RelabelNone(items, qs, l);
      var lp := heads[o].head;
      ItemsReal(items, o, qs);
      while lp != NULL
        invariant k <= |qs| && items == Relabelled(old(items), qs, k, l)
        invariant lp == if k < |qs| then qs[k] else NULL
        decreases |qs| - k
      {
        RelabelNext(old(items), qs, k, l, o);
        items := items[lp := items[lp].(link := l)];
        lp := items[lp].next;
        k := k + 1;
      }
    }
  }

  // The neighbours of the item at position k.
  lemma PlacedFacts(items: Items, l: Ptr, ps: seq<Ptr>, k: nat)
    requires IsList(items, l, ps) && k < |ps|
    ensures NULL !in ps
    ensures ps[k] in items && items[ps[k]].next == (if k + 1 < |ps| then ps[k + 1] else NULL)
    ensures items[ps[k]].prev == (if k > 0 then ps[k - 1] else NULL)
    ensures k + 1 < |ps| ==> ps[k + 1] in items && ps[k + 1] != ps[k] && items[ps[k + 1]].prev == ps[k]
    ensures k > 0 ==> ps[k - 1] in items && ps[k - 1] != ps[k] && items[ps[k - 1]].next == ps[k]
    ensures k > 0 && k + 1 < |ps| ==> ps[k - 1] != ps[k + 1]
    ensures ps[k] == ps[0] <==> k == 0
    ensures ps[k] == ps[|ps| - 1] <==> k == |ps| - 1
  {
    PlacedAt(ps, l, k);
    if k > 0 { PlacedAt(ps, l, k - 1); }
    if k + 1 < |ps| { PlacedAt(ps, l, k + 1); }
    hide Placed;
  }

  // The two halves of RemoveFromLink, first the neighbour in front, then the one behind.
  lemma RemovedIs(items: Items, l: Ptr, ps: seq<Ptr>, k: nat, a: Items, b: Items)
    requires IsList(items, l, ps) && k < |ps|
    requires var p := ps[k];
             a == if k > 0 then items[ps[k - 1] := items[ps[k - 1]].(next := items[p].next)]
                  else if k + 1 < |ps| then items[ps[k + 1] := items[ps[k + 1]].(prev := NULL)] else items
    requires var p := ps[k];
             b == if k + 1 < |ps| then assert ps[k + 1] in a; a[ps[k + 1] := a[ps[k + 1]].(prev := items[p].prev)]
                  else if k > 0 then assert ps[k - 1] in a; a[ps[k - 1] := a[ps[k - 1]].(next := NULL)] else a
    ensures b[ps[k] := UNLINKED] == Removed(items, l, ps, k)
  {
    PlacedFacts(items, l, ps, k);
    hide Placed, Distinct;
  }

  lemma ItemsReal(items: Items, l: Ptr, ps: seq<Ptr>)
    requires IsList(items, l, ps)
    ensures NULL !in ps && forall i :: 0 <= i < |ps| ==> ps[i] != NULL && ps[i] in items
  {
    hide Placed;
  }

  lemma RelabelNone(items: Items, qs: seq<Ptr>, l: Ptr)
    ensures Relabelled(items, qs, 0, l) == items
  {
  }

  lemma EmptyJoin(items: Items, heads: Heads, content: Content, l: Ptr, o: Ptr)
    requires Inv(items, heads, content) && l in heads && o in heads && o in content && content[o] == []
    ensures content == content[l := content[l] + content[o]][o := []]
    ensures forall q :: q in items ==> items[q].link != o
  {
    assert IsList(items, o, content[o]);
    hide Placed;
    assert content[l] + [] == content[l];
  }

  lemma JoinFacts(items: Items, l: Ptr, ps: seq<Ptr>, o: Ptr, qs: seq<Ptr>)
    requires IsList(items, l, ps) && IsList(items, o, qs) && qs != [] && l != o
    ensures var m := Relabelled(items, qs, |qs|, l);
            m.Keys == items.Keys && qs[0] in items && (ps != [] ==> ps[|ps| - 1] in items && ps[|ps| - 1] != qs[0])
  {
    hide Placed;
  }
}
