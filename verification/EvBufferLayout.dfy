/** How each kind of pointer surgery on the chain list acts on the layout invariant. */
module EvBufferLayout {
  import opened Bytes
  import opened Pointers
  import opened EvBufferCore

  // What the invariant says about the chain that last_with_datap leads to.
  lemma LwdFacts(m: Cells, v: View)
    requires Inv(m, v)
    ensures v.nd <= |v.ps| == |v.segs| && v.lwd == LinkTo(v.ps, Pred(v.nd))
    ensures v.lwd.NextOf? ==> v.lwd.chain in m
    ensures v.ps == [] ==> v.lwd == First && v.first == NULL && v.last == NULL && v.nd == 0 && v.segs == []
                           && v.total == 0 && Flatten(v.segs) == []
    ensures v.ps != [] ==> var k := Pred(v.nd);
                           && v.first == v.ps[0] && v.first in m && v.last == v.ps[|v.ps| - 1]
                           && v.ps[k] in m && v.ps[k] != NULL && m[v.ps[k]].Holds(v.segs[k])
                           && ReadLink(m, v.first, v.lwd) == v.ps[k]
    ensures v.total <= SIZE_MAX
  {
  }

  // ---------- changing one chain's bytes ----------

  lemma ListPut(m: Cells, head: Ptr, ps: seq<Ptr>, p: Ptr, c: Chain)
    requires ListFrom(m, head, ps) && p in m && c.next == m[p].next
    ensures ListFrom(m[p := c], head, ps)
  {
  }

  lemma AllHoldPut(m: Cells, ps: seq<Ptr>, segs: seq<seq<Byte>>, k: nat, c: Chain, s: seq<Byte>)
    requires Distinct(ps) && AllHold(m, ps, segs) && k < |ps| && c.Holds(s)
    ensures AllHold(m[ps[k] := c], ps, segs[k := s])
  {
  }

  // Replaces the bytes of chain k by s.
  lemma PutBytes(m: Cells, v: View, k: nat, c: Chain, s: seq<Byte>)
    requires InvBody(m, v) && k < |v.ps| && c.Holds(s) && c.next == m[v.ps[k]].next
    ensures ListFrom(m[v.ps[k] := c], v.first, v.ps)
    ensures AllHold(m[v.ps[k] := c], v.ps, v.segs[k := s])
    ensures Owns(m, v.ps, m[v.ps[k] := c], v.ps)
  {
    ListPut(m, v.first, v.ps, v.ps[k], c);
    AllHoldPut(m, v.ps, v.segs, k, c, s);
  }

  // Extends the bytes of the chain *last_with_datap.
  lemma ExtendLast(m: Cells, v: View, c: Chain, data: seq<Byte>)
    requires Inv(m, v) && v.ps != [] && c.next == m[v.ps[Pred(v.nd)]].next
    requires c.Holds(v.segs[Pred(v.nd)] + data) && v.total + |data| <= SIZE_MAX
    ensures var k := Pred(v.nd);
            var v' := v.(total := v.total + |data|, segs := v.segs[k := v.segs[k] + data],
                         nd := if v.nd == 0 && data != [] then 1 else v.nd);
            Inv(m[v.ps[k] := c], v') && Owns(m, v.ps, m[v.ps[k] := c], v.ps)
            && Flatten(v'.segs) == Flatten(v.segs) + data
  {
    hide ListFrom, AllHold, Chain.Holds, Owns, Flatten;
    var k := Pred(v.nd);
    PutBytes(m, v, k, c, v.segs[k] + data);
    FlattenExtend(v.segs, k, data);
  }

  // ---------- frames ----------

  lemma ListFrame(m: Cells, m': Cells, head: Ptr, ps: seq<Ptr>)
    requires ListFrom(m, head, ps) && forall i :: 0 <= i < |ps| ==> ps[i] in m' && m'[ps[i]].next == m[ps[i]].next
    ensures ListFrom(m', head, ps)
  {
  }

  lemma AllHoldFrame(m: Cells, m': Cells, ps: seq<Ptr>, segs: seq<seq<Byte>>)
    requires AllHold(m, ps, segs)
    requires forall i :: 0 <= i < |ps| ==> ps[i] in m' && m'[ps[i]].(next := NULL) == m[ps[i]].(next := NULL)
    ensures AllHold(m', ps, segs)
  {
  }

  // A buffer whose chains are untouched keeps its layout.
  lemma OwnsFrame(m: Cells, ps: seq<Ptr>, m': Cells, ps': seq<Ptr>, w: View)
    requires Owns(m, ps, m', ps') && Inv(m, w) && forall p :: p in w.ps ==> p !in ps
    ensures Inv(m', w) && forall p :: p in w.ps ==> p !in ps'
  {
    ListFrame(m, m', w.first, w.ps);
    AllHoldFrame(m, m', w.ps, w.segs);
  }

  // Ownership of one more chain, which stays.
  lemma OwnsBystander(m: Cells, ps: seq<Ptr>, m': Cells, ps': seq<Ptr>, p: Ptr)
    requires Owns(m, ps, m', ps') && p in m && p !in ps
    ensures p in m' && m'[p] == m[p] && p !in ps' && Owns(m, ps + [p], m', ps' + [p])
  {
  }

  // Allocating a chain, and changing a chain that is on no list.
  lemma NewChain(m: Cells, v: View, p: Ptr, c: Chain)
    requires Inv(m, v) && p !in m
    ensures Inv(m[p := c], v) && p !in v.ps && Owns(m, v.ps, m[p := c], v.ps + [p])
  {
    hide Chain.Holds, Flatten, DataThenEmpty;
    ListFrame(m, m[p := c], v.first, v.ps);
    AllHoldFrame(m, m[p := c], v.ps, v.segs);
  }

  lemma PutBystander(m: Cells, v: View, p: Ptr, c: Chain)
    requires Inv(m, v) && p in m && p !in v.ps
    ensures Inv(m[p := c], v) && Owns(m, v.ps + [p], m[p := c], v.ps + [p])
  {
    hide Chain.Holds, Flatten, DataThenEmpty;
    ListFrame(m, m[p := c], v.first, v.ps);
    AllHoldFrame(m, m[p := c], v.ps, v.segs);
  }

  lemma AppendHolds(c: Chain, s: seq<Byte>, data: seq<Byte>)
    requires c.Holds(s) && |data| <= c.SpaceLen()
    ensures c.(mem := Write(c.mem, c.misalign + c.off, data), off := c.off + |data|).Holds(s + data)
  {
    var c' := c.(mem := Write(c.mem, c.misalign + c.off, data), off := c.off + |data|);
    assert c'.mem[c.misalign..c.misalign + c.off] == s;
  }

  lemma HoldsOff(c: Chain, s: seq<Byte>)
    requires c.Holds(s)
    ensures c.off == |s| && 0 < |c.mem| <= MAX_CHAIN_DATA && c.misalign + c.off <= |c.mem|
  {
  }

  lemma OwnsSelf(m: Cells, ps: seq<Ptr>)
    ensures Owns(m, ps, m, ps)
  {
  }

  lemma OwnsTrans(m: Cells, ps: seq<Ptr>, m1: Cells, ps1: seq<Ptr>, m2: Cells, ps2: seq<Ptr>)
    requires Owns(m, ps, m1, ps1) && Owns(m1, ps1, m2, ps2)
    ensures Owns(m, ps, m2, ps2)
  {
  }

  lemma AllHoldSplit(m: Cells, ps: seq<Ptr>, segs: seq<seq<Byte>>, k: nat)
    requires AllHold(m, ps, segs) && k <= |ps|
    ensures k <= |segs| && AllHold(m, ps[..k], segs[..k]) && AllHold(m, ps[k..], segs[k..])
  {
  }

  lemma AllHoldConcat(m: Cells, ps: seq<Ptr>, segs: seq<seq<Byte>>, qs: seq<Ptr>, tegs: seq<seq<Byte>>)
    requires AllHold(m, ps, segs) && AllHold(m, qs, tegs)
    ensures AllHold(m, ps + qs, segs + tegs)
  {
  }

  // ---------- list surgery ----------

  // Freeing the chains from k on and then clearing the link to them.
  lemma ListTrim(m: Cells, first: Ptr, ps: seq<Ptr>, k: nat)
    requires ListFrom(m, first, ps) && k <= |ps|
    ensures var m1 := m - Elems(ps[k..]);
            var l := LinkTo(ps, k);
            (l.NextOf? ==> l.chain in m1)
            && var (m2, first2) := WriteLink(m1, first, l, NULL);
            ListFrom(m2, first2, ps[..k]) && Owns(m, ps, m2, ps[..k])
            && forall i :: 0 <= i < k ==> ps[i] in m2 && m2[ps[i]].(next := NULL) == m[ps[i]].(next := NULL)
  {
  }

  // The list that starts at chain k.
  lemma ListSuffix(m: Cells, first: Ptr, ps: seq<Ptr>, k: nat)
    requires ListFrom(m, first, ps) && k <= |ps|
    ensures ListFrom(m, if k < |ps| then ps[k] else NULL, ps[k..])
  {
  }

  // Hanging the list qs on the end of the list ps.
  lemma ListConcat(m: Cells, first: Ptr, ps: seq<Ptr>, q: Ptr, qs: seq<Ptr>)
    requires ListFrom(m, first, ps) && ListFrom(m, q, qs) && forall p :: p in ps ==> p !in qs
    ensures var l := LinkTo(ps, |ps|);
            (l.NextOf? ==> l.chain in m)
            && var (m', first') := WriteLink(m, first, l, q);
            ListFrom(m', first', ps + qs)
            && m'.Keys == m.Keys
            && forall p :: p in m ==> m'[p].(next := NULL) == m[p].(next := NULL) && (p !in ps ==> m'[p] == m[p])
  {
    forall i, j | 0 <= i < |ps| && 0 <= j < |qs| ensures ps[i] != qs[j] {
      assert ps[i] in ps;
    }
  }

  // The same with the bytes and the ownership of the two lists.
  lemma SpliceLists(m: Cells, first: Ptr, ps: seq<Ptr>, segs: seq<seq<Byte>>, q: Ptr, qs: seq<Ptr>, tegs: seq<seq<Byte>>)
    requires ListFrom(m, first, ps) && ListFrom(m, q, qs) && forall p :: p in ps ==> p !in qs
    requires AllHold(m, ps, segs) && AllHold(m, qs, tegs)
    ensures var l := LinkTo(ps, |ps|);
            (l.NextOf? ==> l.chain in m)
            && var (m', first') := WriteLink(m, first, l, q);
            && ListFrom(m', first', ps + qs) && AllHold(m', ps + qs, segs + tegs)
            && Owns(m, ps + qs, m', ps + qs)
  {
    hide Chain.Holds, ListFrom, AllHold, Owns;
    ListConcat(m, first, ps, q, qs);
    AllHoldConcat(m, ps, segs, qs, tegs);
    var (m', first') := WriteLink(m, first, LinkTo(ps, |ps|), q);
    AllHoldIn(m, ps + qs, segs + tegs);
    AllHoldFrame(m, m', ps + qs, segs + tegs);
    LinkOwns(m, first, ps, |ps|, q, ps + qs);
  }

  lemma AllHoldIn(m: Cells, ps: seq<Ptr>, segs: seq<seq<Byte>>)
    requires AllHold(m, ps, segs)
    ensures forall i :: 0 <= i < |ps| ==> ps[i] in m
  {
  }

  // ---------- trimming and inserting ----------

  // The store without the trailing empty chains, and the buffer's fields with them cut off.
  ghost function Trimmed(m: Cells, v: View): (Cells, View)
    requires InvBody(m, v)
  {
    var m1 := m - Elems(v.ps[v.nd..]);
    var (m2, first2) := WriteLink(m1, v.first, LinkTo(v.ps, v.nd), NULL);
    (m2, v.(first := first2, ps := v.ps[..v.nd], segs := v.segs[..v.nd]))
  }

  lemma TrimInv(m: Cells, v: View)
    requires InvBody(m, v) && v.nd <= |v.ps| && v.nd <= |v.segs|
    ensures var (m2, v2) := Trimmed(m, v);
            InvBody(m2, v2) && Owns(m, v.ps, m2, v2.ps) && Flatten(v2.segs) == Flatten(v.segs)
    ensures Trimmed(m, v).1 == v.(first := Trimmed(m, v).1.first, ps := v.ps[..v.nd], segs := v.segs[..v.nd])
    ensures ListFrom(m, if v.nd < |v.ps| then v.ps[v.nd] else NULL, v.ps[v.nd..])
    ensures v.nd == |v.ps| ==> Trimmed(m, v) == (m, v)
  {
    hide Chain.Holds, Flatten, Owns, ListFrom, AllHold;
    ListTrim(m, v.first, v.ps, v.nd);
    ListSuffix(m, v.first, v.ps, v.nd);
    var (m2, v2) := Trimmed(m, v);
    AllHoldSplit(m, v.ps, v.segs, v.nd);
    AllHoldFrame(m, m2, v2.ps, v2.segs);
    TrimFlatten(v.segs, v.nd);
    if v.nd == |v.ps| {
      TrimNothing(m, v);
    }
  }

  lemma TrimNothing(m: Cells, v: View)
    requires InvBody(m, v) && v.nd == |v.ps|
    ensures Trimmed(m, v) == (m, v)
  {
    assert m - Elems(v.ps[v.nd..]) == m;
    assert v.ps[..v.nd] == v.ps && v.segs[..v.nd] == v.segs;
    if v.nd > 0 {
      var p := v.ps[v.nd - 1];
      assert m[p := m[p].(next := NULL)] == m;
    }
  }

  lemma TrimFlatten(segs: seq<seq<Byte>>, nd: nat)
    requires DataThenEmpty(segs, nd)
    ensures DataThenEmpty(segs[..nd], nd) && Flatten(segs[..nd]) == Flatten(segs)
  {
    FlattenSplit(segs, nd);
    FlattenEmpty(segs[nd..]);
  }

  lemma AppendSegment(segs: seq<seq<Byte>>, nd: nat, s: seq<Byte>)
    requires DataThenEmpty(segs, nd) && nd == |segs|
    ensures DataThenEmpty(segs + [s], if s == [] then nd else nd + 1)
    ensures Flatten(segs + [s]) == Flatten(segs) + s
  {
    FlattenConcat(segs, [s]);
    FlattenSingle(s);
  }

  // Hanging one more chain on a list without trailing empty chains.
  lemma InsertInv(m: Cells, v: View, p: Ptr, s: seq<Byte>)
    requires InvBody(m, v) && v.nd == |v.ps| && v.total + |s| <= SIZE_MAX
    requires p !in v.ps && p != NULL && p in m && m[p].next == NULL && m[p].Holds(s)
    ensures var l := LinkTo(v.ps, v.nd);
            (l.NextOf? ==> l.chain in m)
            && var (m', first') := WriteLink(m, v.first, l, p);
            var v' := View(first', p, if s == [] then v.lwd else l, v.total + |s|, v.ps + [p], v.segs + [s],
                           if s == [] then v.nd else v.nd + 1);
            Inv(m', v') && Flatten(v'.segs) == Flatten(v.segs) + s
            && Owns(m, v.ps + [p], m', v'.ps)
  {
    hide Chain.Holds, Flatten, ListFrom, AllHold, DataThenEmpty, Owns, WriteLink;
    Singleton(m, p, s);
    SpliceLists(m, v.first, v.ps, v.segs, p, [p], [s]);
    AppendSegment(v.segs, v.nd, s);
  }

  lemma DataConcat(segs: seq<seq<Byte>>, tegs: seq<seq<Byte>>, nd: nat)
    requires DataThenEmpty(segs, |segs|) && DataThenEmpty(tegs, nd)
    ensures DataThenEmpty(segs + tegs, |segs| + nd)
  {
  }

  // Writing one link of the chains ps touches no other chain.
  lemma LinkOwns(m: Cells, first: Ptr, ps: seq<Ptr>, k: nat, q: Ptr, all: seq<Ptr>)
    requires k <= |ps| && ps <= all && (k > 0 ==> ps[k - 1] in m)
    ensures Owns(m, all, WriteLink(m, first, LinkTo(ps, k), q).0, all)
  {
    if k > 0 { assert all[k - 1] == ps[k - 1]; }
  }

  lemma InStore(m: Cells, v: View)
    requires InvBody(m, v)
    ensures forall p :: p in v.ps ==> p in m && p != NULL
    ensures v.nd > 0 ==> LinkTo(v.ps, v.nd).chain in v.ps
  {
  }

  lemma Singleton(m: Cells, p: Ptr, s: seq<Byte>)
    requires p != NULL && p in m && m[p].next == NULL && m[p].Holds(s)
    ensures ListFrom(m, p, [p]) && AllHold(m, [p], [s])
  {
  }

  // ---------- the front ----------

  // Extends the bytes of the first chain at their front.
  lemma ExtendFirst(m: Cells, v: View, c: Chain, data: seq<Byte>)
    requires Inv(m, v) && v.ps != [] && v.segs != [] && v.first in m && c.next == m[v.first].next
    requires c.Holds(data + v.segs[0]) && v.total + |data| <= SIZE_MAX
    ensures var v' := v.(total := v.total + |data|, segs := v.segs[0 := data + v.segs[0]],
                         nd := if v.nd == 0 && data != [] then 1 else v.nd);
            Inv(m[v.first := c], v') && Owns(m, v.ps, m[v.first := c], v.ps)
            && Flatten(v'.segs) == data + Flatten(v.segs)
  {
    hide AllHold, Chain.Holds, Owns, Flatten;
    PutBytes(m, v, 0, c, data + v.segs[0]);
    ExtendFrontFlatten(v.segs, data);
  }

  lemma ExtendFrontFlatten(segs: seq<seq<Byte>>, data: seq<Byte>)
    requires segs != []
    ensures Flatten(segs[0 := data + segs[0]]) == data + Flatten(segs)
  {
    assert segs[0 := data + segs[0]][1..] == segs[1..];
  }

  // A new first chain in front of a list that has data.
  lemma PrependInv(m: Cells, v: View, p: Ptr, s: seq<Byte>)
    requires Inv(m, v) && v.nd > 0 && s != [] && v.total + |s| <= SIZE_MAX
    requires p !in v.ps && p != NULL && p in m && m[p].next == v.first && m[p].Holds(s)
    ensures Inv(m, View(p, v.last, if v.lwd == First then NextOf(p) else v.lwd, v.total + |s|,
                        [p] + v.ps, [s] + v.segs, v.nd + 1))
    ensures Flatten([s] + v.segs) == s + Flatten(v.segs)
    ensures Owns(m, v.ps + [p], m, [p] + v.ps)
  {
    hide Chain.Holds, Flatten;
    FlattenConcat([s], v.segs);
    FlattenSingle(s);
    ListPrepend(m, v.first, v.ps, p);
    assert AllHold(m, [p], [s]);
    AllHoldConcat(m, [p], [s], v.ps, v.segs);
  }

  lemma ListPrepend(m: Cells, first: Ptr, ps: seq<Ptr>, p: Ptr)
    requires ListFrom(m, first, ps) && p !in ps && p != NULL && p in m && m[p].next == first
    ensures ListFrom(m, p, [p] + ps)
  {
    var qs := [p] + ps;
    assert forall i :: 0 < i < |qs| ==> qs[i] == ps[i - 1];
  }

  lemma PushFrontHolds(c: Chain, s: seq<Byte>, data: seq<Byte>)
    requires c.Holds(s) && |data| <= c.misalign
    ensures c.(mem := Write(c.mem, c.misalign - |data|, data), off := c.off + |data|,
               misalign := c.misalign - |data|).Holds(data + s)
  {
    var mem := Write(c.mem, c.misalign - |data|, data);
    assert mem[c.misalign..c.misalign + c.off] == s;
  }

  // ---------- positions ----------

  // The bytes of the first k chains.
  ghost function Before(segs: seq<seq<Byte>>, k: nat): nat
    requires k <= |segs|
  {
    |Flatten(segs[..k])|
  }

  lemma BeforeStep(segs: seq<seq<Byte>>, k: nat)
    requires k < |segs|
    ensures Before(segs, k + 1) == Before(segs, k) + |segs[k]|
  {
    assert segs[..k + 1] == segs[..k] + [segs[k]];
    FlattenConcat(segs[..k], [segs[k]]);
    FlattenSingle(segs[k]);
  }

  lemma BeforeAll(segs: seq<seq<Byte>>, nd: nat, k: nat)
    requires DataThenEmpty(segs, nd) && k <= |segs|
    ensures Before(segs, k) <= |Flatten(segs)|
    ensures nd <= k ==> Before(segs, k) == |Flatten(segs)|
  {
    FlattenSplit(segs, k);
    if nd <= k { FlattenEmpty(segs[k..]); }
  }

  // What the invariant says about chain k.
  lemma ChainFacts(m: Cells, v: View, k: nat)
    requires Inv(m, v) && k < |v.ps|
    ensures |v.segs| == |v.ps| && v.ps[k] in m && v.ps[k] != NULL && v.ps[k] !in v.ps[..k] && v.ps[k] !in v.ps[k + 1..]
    ensures m[v.ps[k]].Holds(v.segs[k]) && m[v.ps[k]].off == |v.segs[k]|
    ensures m[v.ps[k]].next == if k + 1 < |v.ps| then v.ps[k + 1] else NULL
    ensures k < v.nd <==> v.segs[k] != []
  {
  }

  lemma TotalFacts(m: Cells, v: View)
    requires Inv(m, v)
    ensures v.total == |Flatten(v.segs)| <= SIZE_MAX
  {
  }

  // The bytes of a stretch of chain k are a stretch of the contents.
  lemma ChainSlice(segs: seq<seq<Byte>>, k: nat, i: nat, j: nat)
    requires k < |segs| && i <= j <= |segs[k]|
    ensures Before(segs, k) + j <= |Flatten(segs)|
    ensures Flatten(segs)[Before(segs, k) + i..Before(segs, k) + j] == segs[k][i..j]
  {
    FlattenSplit(segs, k);
    var a, b := Flatten(segs[..k]), Flatten(segs[k + 1..]);
    assert Flatten(segs) == a + (segs[k] + b);
  }
}
