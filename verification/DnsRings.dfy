/** The circular doubly linked lists of requests, libevent/evdns.c: evdns_request_insert and
    evdns_request_remove. */
module DnsRings {
  import opened Pointers

  datatype Node = Node(next: Ptr, prev: Ptr)

  type Nodes = map<Ptr, Node>

  // What the node at position i of the ring ps holds.
  ghost function Placed(ps: seq<Ptr>, i: nat): Node
    requires i < |ps|
  {
    Node(if i + 1 < |ps| then ps[i + 1] else ps[0], if i > 0 then ps[i - 1] else ps[|ps| - 1])
  }

  // The ring with this head holds exactly these nodes, in this order.
  ghost predicate Ring(nodes: Nodes, head: Ptr, ps: seq<Ptr>) {
    && Distinct(ps) && head == (if ps == [] then NULL else ps[0])
    && forall i :: 0 <= i < |ps| ==> ps[i] != NULL && ps[i] in nodes && nodes[ps[i]] == Placed(ps, i)
  }

  // Only nodes of ps changed.
  ghost predicate OnlyChanged(nodes: Nodes, nodes': Nodes, ps: seq<Ptr>) {
    nodes'.Keys == nodes.Keys && forall q :: q in nodes && q !in ps ==> nodes'[q] == nodes[q]
  }

  lemma RingFrame(nodes: Nodes, nodes': Nodes, ps: seq<Ptr>, head: Ptr, qs: seq<Ptr>)
    requires Ring(nodes, head, qs) && OnlyChanged(nodes, nodes', ps) && forall i :: 0 <= i < |qs| ==> qs[i] !in ps
    ensures Ring(nodes', head, qs)
  {
    hide Placed;
  }

  lemma PlacedInsert(ps: seq<Ptr>, p: Ptr, i: nat)
    requires i <= |ps|
    ensures Placed(ps + [p], i) ==
            if ps == [] then Node(p, p)
            else if i == |ps| then Node(ps[0], ps[|ps| - 1])
            else Node(if i + 1 < |ps| then Placed(ps, i).next else p, if i > 0 then Placed(ps, i).prev else p)
  {
  }

  // What evdns_request_insert writes.
  ghost function Inserted(nodes: Nodes, ps: seq<Ptr>, p: Ptr): Nodes
    requires ps != [] ==> ps[0] in nodes && ps[|ps| - 1] in nodes
  {
    if ps == [] then nodes[p := Node(p, p)]
    else
      var first, last := ps[0], ps[|ps| - 1];
      var a := nodes[p := Node(first, last)];
      var b := a[last := a[last].(next := p)];
      b[first := b[first].(prev := p)]
  }

  lemma InsertedRing(nodes: Nodes, head: Ptr, ps: seq<Ptr>, p: Ptr)
    requires Ring(nodes, head, ps) && p in nodes && p != NULL && p !in ps
    ensures var nodes' := Inserted(nodes, ps, p);
            Ring(nodes', if ps == [] then p else head, ps + [p]) && OnlyChanged(nodes, nodes', ps + [p])
  {
    hide Placed;
    var qs, nodes' := ps + [p], Inserted(nodes, ps, p);
    forall i | 0 <= i < |qs| ensures qs[i] in nodes' && nodes'[qs[i]] == Placed(qs, i) {
      PlacedInsert(ps, p, i);
      assert i < |ps| ==> qs[i] == ps[i] && ps[i] != p;
    }
    assert forall q :: q in qs <==> q == p || q in ps;
  }

  lemma PlacedRemove(ps: seq<Ptr>, k: nat, i: nat)
    requires k < |ps| && i < |ps| - 1
    ensures var n := |ps|;
            var j := if i < k then i else i + 1;
            var q, next, prev := Placed(ps, j), Placed(ps, k).next, Placed(ps, k).prev;
            Placed(ps[..k] + ps[k + 1..], i) ==
            Node(if j == (if k > 0 then k - 1 else n - 1) then next else q.next, if j == (if k + 1 < n then k + 1 else 0) then prev else q.prev)
  {
  }

  // What evdns_request_remove writes when it takes out the node at position k.
  ghost function Removed(nodes: Nodes, ps: seq<Ptr>, k: nat): Nodes
    requires k < |ps| && ps[k] in nodes && (|ps| > 1 ==> nodes[ps[k]].next in nodes && nodes[ps[k]].prev in nodes)
  {
    var p := ps[k];
    if |ps| == 1 then nodes[p := Node(NULL, NULL)]
    else
      var a := nodes[nodes[p].next := nodes[nodes[p].next].(prev := nodes[p].prev)];
      var b := a[nodes[p].prev := a[nodes[p].prev].(next := nodes[p].next)];
      b[p := Node(NULL, NULL)]
  }

  lemma Neighbours(nodes: Nodes, head: Ptr, ps: seq<Ptr>, k: nat)
    requires Ring(nodes, head, ps) && k < |ps|
    ensures var n, p := |ps|, ps[k];
            && p in nodes && p != NULL && nodes[p].next in nodes && nodes[p].prev in nodes
            && nodes[p].next == (if k + 1 < n then ps[k + 1] else ps[0]) && nodes[p].prev == (if k > 0 then ps[k - 1] else ps[n - 1])
            && (nodes[p].next == p <==> n == 1) && (head == p <==> k == 0)
            && (n > 1 ==> nodes[p].prev != p)
  {
  }

  lemma RemovedAt(nodes: Nodes, head: Ptr, ps: seq<Ptr>, k: nat, j: nat)
    requires Ring(nodes, head, ps) && k < |ps| && j < |ps| && j != k && nodes[ps[k]].next in nodes && nodes[ps[k]].prev in nodes
    ensures var n, p, q, nodes' := |ps|, ps[k], ps[j], Removed(nodes, ps, k);
            nodes'[q] == Node(if j == (if k > 0 then k - 1 else n - 1) then nodes[p].next else nodes[q].next,
                              if j == (if k + 1 < n then k + 1 else 0) then nodes[p].prev else nodes[q].prev)
  {
    Neighbours(nodes, head, ps, k);
    hide Placed;
  }

  lemma RemovedFrame(nodes: Nodes, head: Ptr, ps: seq<Ptr>, k: nat)
    requires Ring(nodes, head, ps) && k < |ps| && nodes[ps[k]].next in nodes && nodes[ps[k]].prev in nodes
    ensures OnlyChanged(nodes, Removed(nodes, ps, k), ps) && Removed(nodes, ps, k)[ps[k]] == Node(NULL, NULL)
  {
    Neighbours(nodes, head, ps, k);
    hide Placed;
  }

  lemma RemovedRing(nodes: Nodes, head: Ptr, ps: seq<Ptr>, k: nat)
    requires Ring(nodes, head, ps) && k < |ps|
    ensures var p, qs := ps[k], ps[..k] + ps[k + 1..];
            && p in nodes && (|ps| > 1 ==> nodes[p].next in nodes && nodes[p].prev in nodes)
            && var nodes' := Removed(nodes, ps, k);
               && Ring(nodes', if qs == [] then NULL else qs[0], qs) && OnlyChanged(nodes, nodes', ps)
               && nodes'[p] == Node(NULL, NULL)
  {
    Neighbours(nodes, head, ps, k);
    RemovedFrame(nodes, head, ps, k);
    CutDistinct(ps, k);
    hide Placed, Removed, Distinct, OnlyChanged;
    var qs, nodes' := ps[..k] + ps[k + 1..], Removed(nodes, ps, k);
    forall i | 0 <= i < |qs| ensures qs[i] != NULL && qs[i] in nodes' && nodes'[qs[i]] == Placed(qs, i) {
      RemovedOne(nodes, head, ps, k, i);
    }
  }

  lemma CutDistinct(ps: seq<Ptr>, k: nat)
    requires Distinct(ps) && k < |ps|
    ensures Distinct(ps[..k] + ps[k + 1..])
  {
    var qs := ps[..k] + ps[k + 1..];
    assert forall i :: 0 <= i < |qs| ==> qs[i] == ps[if i < k then i else i + 1];
  }

  lemma RemovedOne(nodes: Nodes, head: Ptr, ps: seq<Ptr>, k: nat, i: nat)
    requires Ring(nodes, head, ps) && k < |ps| && i < |ps| - 1 && nodes[ps[k]].next in nodes && nodes[ps[k]].prev in nodes
    ensures var qs, nodes' := ps[..k] + ps[k + 1..], Removed(nodes, ps, k);
            qs[i] != NULL && qs[i] in nodes' && nodes'[qs[i]] == Placed(qs, i)
  {
    RemovedFrame(nodes, head, ps, k);
    var j := if i < k then i else i + 1;
    PlacedRemove(ps, k, i);
    PlacedIs(nodes, head, ps, j);
    PlacedIs(nodes, head, ps, k);
    RemovedAt(nodes, head, ps, k, j);
    hide Placed, Removed, Distinct;
    assert (ps[..k] + ps[k + 1..])[i] == ps[j];
  }

  lemma PlacedIs(nodes: Nodes, head: Ptr, ps: seq<Ptr>, k: nat)
    requires Ring(nodes, head, ps) && k < |ps|
    ensures nodes[ps[k]] == Placed(ps, k)
  {
  }

  class RingStore {
    var nodes: Nodes

    constructor ()
      ensures nodes == map[]
    {
      nodes := map[];
    }

    // evdns_request_insert: at the tail of the queue
    method Insert(p: Ptr, head: Ptr, ghost ps: seq<Ptr>) returns (head': Ptr)
      requires Ring(nodes, head, ps) && p in nodes && p != NULL && p !in ps
      modifies this
      ensures Ring(nodes, head', ps + [p]) && OnlyChanged(old(nodes), nodes, ps + [p])
    {
      hide Placed;
      InsertedRing(nodes, head, ps, p);
      if head == NULL {
        nodes := nodes[p := Node(p, p)];
        return p;
      }
      Ends(nodes, head, ps);
      var last := nodes[head].prev;
      nodes := nodes[p := nodes[p].(prev := last)];
      nodes := nodes[last := nodes[last].(next := p)];
      nodes := nodes[p := nodes[p].(next := head)];
      nodes := nodes[head := nodes[head].(prev := p)];
      assert nodes == Inserted(old(nodes), ps, p);
      return head;
    }

    // evdns_request_remove
    method Remove(p: Ptr, head: Ptr, ghost ps: seq<Ptr>, ghost k: nat) returns (head': Ptr)
      requires Ring(nodes, head, ps) && k < |ps| && ps[k] == p
      modifies this
      ensures Ring(nodes, head', ps[..k] + ps[k + 1..]) && OnlyChanged(old(nodes), nodes, ps) && nodes[p] == Node(NULL, NULL)
    {
      hide Placed;
      Neighbours(nodes, head, ps, k);
      RemovedRing(nodes, head, ps, k);
      var next, prev := nodes[p].next, nodes[p].prev;
      if next == p {
        head' := NULL;
      } else {
        nodes := nodes[next := nodes[next].(prev := prev)];
        nodes := nodes[prev := nodes[prev].(next := next)];
        head' := if head == p then next else head;
      }
      nodes := nodes[p := Node(NULL, NULL)];
      assert nodes == Removed(old(nodes), ps, k);
    }
  }

  lemma Ends(nodes: Nodes, head: Ptr, ps: seq<Ptr>)
    requires Ring(nodes, head, ps) && ps != []
    ensures head == ps[0] && head in nodes && head != NULL && nodes[head].prev == ps[|ps| - 1] && ps[|ps| - 1] in nodes
  {
    Neighbours(nodes, head, ps, 0);
  }
}
