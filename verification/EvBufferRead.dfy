/** Reading into an evbuffer: evbuffer_expand_fast_, evbuffer_read_setup_vecs_ and the commit loop
    of evbuffer_read. */
module EvBufferRead {
  import opened Bytes
  import opened Pointers
  import opened EvBufferCore
  import opened EvBufferLayout
  import opened EvBufferAdd
  import opened EvBufferDrain
  import opened EvBufferMove
  import opened EvBufferExpand
  import opened EvBufferPos

  // The space in the chains f..k.
  ghost function SpaceSum(m: Cells, ps: seq<Ptr>, f: nat, k: nat): int
    requires k <= |ps| && forall i :: 0 <= i < |ps| ==> ps[i] in m
    decreases k
  {
    if k <= f then 0 else SpaceSum(m, ps, f, k - 1) + m[ps[k - 1]].SpaceLen()
  }

  ghost predicate AllSpacious(m: Cells, ps: seq<Ptr>, f: nat, k: nat)
    requires k <= |ps| && forall i :: 0 <= i < |ps| ==> ps[i] in m
  {
    forall i :: f <= i < k ==> m[ps[i]].SpaceLen() > 0
  }

  // f is the first chain with space, counting from *last_with_datap.
  ghost predicate FirstRoom(m: Cells, v: View, f: nat) {
    && v.ps != [] && Pred(v.nd) < |v.ps| && v.ps[Pred(v.nd)] in m
    && f == (if m[v.ps[Pred(v.nd)]].SpaceLen() == 0 then Pred(v.nd) + 1 else Pred(v.nd))
    && (v.nd == 0 ==> f == 0)
  }

  // Chains f..k, at most n of them, have space, and together room for datlen bytes.
  ghost predicate Ready(m: Cells, v: View, f: nat, k: nat, n: nat, datlen: nat) {
    && FirstRoom(m, v, f) && f <= k <= |v.ps| && k - f <= n
    && (forall i :: 0 <= i < |v.ps| ==> v.ps[i] in m)
    && AllSpacious(m, v.ps, f, k) && SpaceSum(m, v.ps, f, k) >= datlen
  }

  lemma {:induction false} SpaceFrame(m: Cells, m': Cells, ps: seq<Ptr>, ps': seq<Ptr>, f: nat, k: nat)
    requires k <= |ps| && k <= |ps'| && ps[..k] == ps'[..k]
    requires (forall i :: 0 <= i < |ps| ==> ps[i] in m) && (forall i :: 0 <= i < |ps'| ==> ps'[i] in m')
    requires forall i :: f <= i < k ==> m'[ps'[i]].SpaceLen() == m[ps[i]].SpaceLen()
    ensures SpaceSum(m', ps', f, k) == SpaceSum(m, ps, f, k)
    ensures AllSpacious(m, ps, f, k) ==> AllSpacious(m', ps', f, k)
  {
    if k > f {
      assert ps[..k - 1] == ps[..k][..k - 1] == ps'[..k - 1];
      SpaceFrame(m, m', ps, ps', f, k - 1);
    }
  }

  // Realigning an empty chain.
  lemma RealignInv(m: Cells, v: View, k: nat)
    requires Inv(m, v) && k < |v.ps| == |v.segs| && v.ps[k] in m && m[v.ps[k]].off == 0
    ensures var m' := m[v.ps[k] := m[v.ps[k]].(misalign := 0)];
            Inv(m', v) && Owns(m, v.ps, m', v.ps)
  {
    hide Flatten, DataThenEmpty, AllHold, ListFrom;
    ChainFacts(m, v, k);
    var c := m[v.ps[k]].(misalign := 0);
    assert v.segs[k := v.segs[k]] == v.segs;
    assert c.Holds(v.segs[k]);
    hide Owns, Chain.Holds;
    PutBytes(m, v, k, c, v.segs[k]);
  }

  // Hanging an empty chain behind all others.
  lemma AddEmptyInv(m: Cells, v: View, p: Ptr)
    requires Inv(m, v) && v.ps != [] && p in m && p != NULL && p !in v.ps && m[p].next == NULL && m[p].Holds([])
    ensures v.last in m && v.last == v.ps[|v.ps| - 1]
    ensures var m' := m[v.last := m[v.last].(next := p)];
            var v' := v.(last := p, ps := v.ps + [p], segs := v.segs + [[]]);
            && Inv(m', v') && Owns(m, v.ps + [p], m', v'.ps) && Flatten(v'.segs) == Flatten(v.segs)
  {
    hide Chain.Holds, Flatten, ListFrom, AllHold, Owns, DataThenEmpty;
    Singleton(m, p, []);
    SpliceLists(m, v.first, v.ps, v.segs, p, [p], [[]]);
    FlattenConcat(v.segs, [[]]);
    FlattenSingle([]);
    EmptyBehind(v.segs, v.nd);
  }

  lemma EmptyBehind(segs: seq<seq<Byte>>, nd: nat)
    requires DataThenEmpty(segs, nd)
    ensures DataThenEmpty(segs + [[]], nd)
  {
  }

  // Freeing the empty chains and hanging a new one in their place.
  lemma NukeInv(m: Cells, v: View, p: Ptr, c: Chain)
    requires Inv(m, v) && v.ps != [] && v.nd <= |v.ps| && p != NULL && c.next == NULL && c.Holds([])
    requires var m1 := m - Elems(v.ps[v.nd..]); p !in m1 && (v.nd > 0 ==> v.ps[v.nd - 1] in m1)
    ensures var (m3, first3) := WriteLink((m - Elems(v.ps[v.nd..]))[p := c], v.first, LinkTo(v.ps, v.nd), p);
            var v3 := v.(first := first3, last := p, ps := v.ps[..v.nd] + [p], segs := v.segs[..v.nd] + [[]]);
            && v.nd <= |v.segs| && Inv(m3, v3) && Owns(m, v.ps, m3, v3.ps) && Flatten(v3.segs) == Flatten(v.segs)
  {
    hide Chain.Holds, Flatten, ListFrom, AllHold, Owns, DataThenEmpty;
    TrimInv(m, v);
    var (m2, v2) := Trimmed(m, v);
    InStore(m2, v2);
    NotIn(m2, v2, p);
    BodyFrame(m2, v2, p, c);
    InsertInv(m2[p := c], v2, p, []);
    NewOwns(m2, v2.ps, p, c);
    var (m3, first3) := WriteLink(m2[p := c], v2.first, LinkTo(v2.ps, v2.nd), p);
    OwnsTrans(m2, v2.ps, m2[p := c], v2.ps + [p], m3, v2.ps + [p]);
    OwnsTrans(m, v.ps, m2, v2.ps, m3, v2.ps + [p]);
    RelinkOnce(m - Elems(v.ps[v.nd..]), v.first, v.ps, v.nd, p, c);
  }

  lemma NotIn(m: Cells, v: View, p: Ptr)
    requires InvBody(m, v) && p !in m
    ensures p !in v.ps
  {
    InStore(m, v);
  }

  lemma NewOwns(m: Cells, ps: seq<Ptr>, p: Ptr, c: Chain)
    requires p !in m && p !in ps
    ensures Owns(m, ps, m[p := c], ps + [p])
  {
  }

  // Writing NULL to a link and then p is the same as writing p.
  lemma RelinkOnce(m: Cells, first: Ptr, ps: seq<Ptr>, k: nat, p: Ptr, c: Chain)
    requires k <= |ps| && (k > 0 ==> ps[k - 1] in m) && p !in m
    ensures var (m2, first2) := WriteLink(m, first, LinkTo(ps, k), NULL);
            && (k > 0 ==> ps[k - 1] in m2)
            && WriteLink(m2[p := c], first2, LinkTo(ps[..k], k), p) == WriteLink(m[p := c], first, LinkTo(ps, k), p)
  {
    if k > 0 {
      var q := ps[k - 1];
      var m2 := m[q := m[q].(next := NULL)];
      assert m2[p := c][q := m[q].(next := p)] == m[p := c][q := m[q].(next := p)];
    }
  }

  // ---------- evbuffer_expand_fast_ ----------

  // Chains f..k have been counted: `used` of them have space, `avail` bytes together.
  ghost predicate Counted(m: Cells, v: View, f: nat, k: nat, used: nat, avail: nat) {
    && FirstRoom(m, v, f) && f <= k <= |v.ps| && used == k - f
    && (forall i :: 0 <= i < |v.ps| ==> v.ps[i] in m)
    && AllSpacious(m, v.ps, f, k) && avail == SpaceSum(m, v.ps, f, k)
  }

  // Counting the first chain, *last_with_datap.
  lemma CountFirst(m: Cells, v: View)
    requires Inv(m, v) && v.ps != [] && v.nd <= |v.ps| && v.ps[Pred(v.nd)] in m
    requires m[v.ps[Pred(v.nd)]].off == 0 ==> m[v.ps[Pred(v.nd)]].misalign == 0
    ensures var k, space := Pred(v.nd), m[v.ps[Pred(v.nd)]].SpaceLen();
            && space >= 0 && (m[v.ps[k]].off == 0 ==> space == |m[v.ps[k]].mem| > 0)
            && (if space > 0 then Counted(m, v, k, k + 1, 1, space) else Counted(m, v, k + 1, k + 1, 0, 0))
  {
    var k := Pred(v.nd);
    ChainFacts(m, v, k);
    HoldsOff(m[v.ps[k]], v.segs[k]);
    hide Chain.Holds, Flatten, DataThenEmpty;
    assert SpaceSum(m, v.ps, k, k) == 0;
  }

  // Counting one of the empty chains behind it, which has just been realigned.
  lemma CountNext(m: Cells, v: View, f: nat, k: nat, used: nat, avail: nat)
    requires Inv(m, v) && Counted(m, v, f, k, used, avail) && k < |v.ps| == |v.segs| && Pred(v.nd) < k
    ensures m[v.ps[k]].off == 0
    ensures var m' := m[v.ps[k] := m[v.ps[k]].(misalign := 0)];
            && Inv(m', v) && Owns(m, v.ps, m', v.ps)
            && Counted(m', v, f, k + 1, used + 1, avail + |m[v.ps[k]].mem|) && |m[v.ps[k]].mem| > 0
  {
    hide InvBody, Chain.Holds, Owns, Counted;
    ChainFacts(m, v, k);
    HoldsOff(m[v.ps[k]], v.segs[k]);
    RealignInv(m, v, k);
    CountedStep(m, v, f, k, used, avail);
  }

  lemma CountedStep(m: Cells, v: View, f: nat, k: nat, used: nat, avail: nat)
    requires Counted(m, v, f, k, used, avail) && Pred(v.nd) < k < |v.ps| && v.ps[k] in m && v.ps[k] !in v.ps[..k]
    requires m[v.ps[k]].off == 0 && |m[v.ps[k]].mem| > 0
    ensures var m' := m[v.ps[k] := m[v.ps[k]].(misalign := 0)];
            Counted(m', v, f, k + 1, used + 1, avail + |m[v.ps[k]].mem|)
  {
    var m' := m[v.ps[k] := m[v.ps[k]].(misalign := 0)];
    forall i | 0 <= i < k ensures v.ps[i] != v.ps[k] {
      assert v.ps[..k][i] == v.ps[i];
    }
    SpaceFrame(m, m', v.ps, v.ps, f, k);
  }

  // What a chain offers to be written to; an empty one can be realigned.
  function Space(c: Chain): int {
    if c.off == 0 then |c.mem| else c.SpaceLen()
  }

  // What the chains f..k offer.
  ghost function Offer(m: Cells, ps: seq<Ptr>, f: nat, k: nat): int {
    if k <= f || k > |ps| || ps[k - 1] !in m then 0 else Offer(m, ps, f, k - 1) + Space(m[ps[k - 1]])
  }

  // The first chain from *last_with_datap on that offers anything.
  ghost function FirstUsable(m: Cells, v: View): nat {
    var k := Pred(v.nd);
    if k < |v.ps| && v.ps[k] in m && Space(m[v.ps[k]]) == 0 then k + 1 else k
  }

  // The space behind the last data.
  ghost function LastSpace(m: Cells, v: View): int {
    if 0 < v.nd <= |v.ps| && v.ps[v.nd - 1] in m then m[v.ps[v.nd - 1]].SpaceLen() else 0
  }

  // The chains that can be used, at most n of them, do not offer datlen bytes, and what is missing is
  // too much for a new chain, which comes behind all of them, or if there are n replaces the empty ones.
  ghost predicate NoRoom(m: Cells, v: View, datlen: nat, n: nat) {
    var f := FirstUsable(m, v);
    if v.ps == [] then datlen > MAX_CHAIN_DATA
    else if |v.ps| < f + n then datlen > Offer(m, v.ps, f, |v.ps|) + MAX_CHAIN_DATA
    else datlen > Offer(m, v.ps, f, f + n)
         && datlen > LastSpace(m, v) + MAX_CHAIN_DATA
  }

  lemma {:induction false} OfferGrows(m: Cells, v: View, f: nat, k: nat, n: nat)
    requires Inv(m, v) && f <= k <= n <= |v.ps|
    ensures 0 <= Offer(m, v.ps, f, k) <= Offer(m, v.ps, f, n)
    decreases n
  {
    hide InvBody;
    if k < n {
      OfferGrows(m, v, f, k, n - 1);
      ChainFacts(m, v, n - 1);
      HoldsOff(m[v.ps[n - 1]], v.segs[n - 1]);
    } else if f < k {
      OfferGrows(m, v, f, k - 1, k - 1);
      ChainFacts(m, v, k - 1);
      HoldsOff(m[v.ps[k - 1]], v.segs[k - 1]);
    }
  }

  // The loop of evbuffer_expand_fast_: how much space do the first n chains with space have?
  method CountSpace(buf: EvBuffer, datlen: nat, n: nat)
      returns (enough: bool, used: nat, avail: nat, ghost f: nat, ghost k: nat)
    requires buf.Valid() && buf.chains != [] && n >= 2
    modifies buf.store
    ensures buf.Valid() && Owns(old(buf.store.cells), buf.chains, buf.store.cells, buf.chains)
    ensures Counted(buf.store.cells, buf.Vw(), f, k, used, avail) && used <= n && Pred(buf.nd) < k
    ensures buf.nd > 0 && buf.nd <= |buf.chains| && old(buf.chains[buf.nd - 1] in buf.store.cells) ==>
              buf.chains[buf.nd - 1] in buf.store.cells && buf.store.cells[buf.chains[buf.nd - 1]] == old(buf.store.cells[buf.chains[buf.nd - 1]])
    ensures f == FirstUsable(old(buf.store.cells), buf.Vw()) && avail == Offer(old(buf.store.cells), buf.chains, f, k) && k <= |buf.chains| && k == f + used
    ensures enough ==> avail >= datlen
    ensures !enough ==> avail < datlen && (used < n ==> k == |buf.chains|)
  {
    hide InvBody, Flatten, Owns, Chain.Holds, Counted, Counting, FirstUsable, Offer;
    ghost var m, v := buf.store.cells, buf.Vw();
    LwdFacts(m, v);
    ghost var k0 := Pred(v.nd);
    var chain := buf.Deref(buf.lastWithDatap);
    // the chain *last_with_datap
    var c := buf.store.cells[chain];
    CountingFirst(m, v);
    if c.off == 0 {
      buf.store.cells := buf.store.cells[chain := c.(misalign := 0)];
    }
    avail := buf.store.cells[chain].SpaceLen();
    used := if avail > 0 then 1 else 0;
    k := k0 + 1;
    f := k - used;
    CountingFacts(m, buf.store.cells, v, f, k, used, avail);
    chain := buf.store.cells[chain].next;
    // the empty chains behind it
    while avail < datlen && used < n && chain != NULL
      invariant Counting(m, buf.store.cells, v, f, k, used, avail) && used <= n && k <= |v.ps|
      invariant chain == if k < |v.ps| then v.ps[k] else NULL
      decreases |v.ps| - k
    {
      CountingFacts(m, buf.store.cells, v, f, k, used, avail);
      CountingStep(m, buf.store.cells, v, f, k, used, avail);
      var e := buf.store.cells[chain];
      buf.store.cells := buf.store.cells[chain := e.(misalign := 0)];
      avail, used := avail + |e.mem|, used + 1;
      chain, k := e.next, k + 1;
    }
    CountingFacts(m, buf.store.cells, v, f, k, used, avail);
    enough := avail >= datlen;
  }

  // Where the count stands, in the store m1 that was m.
  ghost predicate Counting(m: Cells, m1: Cells, v: View, f: nat, k: nat, used: nat, avail: nat) {
    && Inv(m1, v) && Owns(m, v.ps, m1, v.ps) && Counted(m1, v, f, k, used, avail) && Pred(v.nd) < k <= |v.ps| == |v.segs|
    && (v.nd > 0 ==> v.nd <= |v.ps| && v.ps[v.nd - 1] in m && v.ps[v.nd - 1] in m1 && m1[v.ps[v.nd - 1]] == m[v.ps[v.nd - 1]])
    && f == FirstUsable(m, v) && k == f + used && avail == Offer(m, v.ps, f, k)
    && (forall i :: k <= i < |v.ps| ==> v.ps[i] in m && v.ps[i] in m1 && m1[v.ps[i]] == m[v.ps[i]])
  }

  lemma CountingFacts(m: Cells, m1: Cells, v: View, f: nat, k: nat, used: nat, avail: nat)
    requires Counting(m, m1, v, f, k, used, avail)
    ensures Inv(m1, v) && Owns(m, v.ps, m1, v.ps) && Counted(m1, v, f, k, used, avail) && Pred(v.nd) < k <= |v.ps| == |v.segs|
    ensures v.nd > 0 ==> v.nd <= |v.ps| && v.ps[v.nd - 1] in m && v.ps[v.nd - 1] in m1 && m1[v.ps[v.nd - 1]] == m[v.ps[v.nd - 1]]
    ensures f == FirstUsable(m, v) && k == f + used && avail == Offer(m, v.ps, f, k)
    ensures v.ps[k - 1] in m1 && m1[v.ps[k - 1]].next == (if k < |v.ps| then v.ps[k] else NULL)
    ensures k < |v.ps| ==> v.ps[k] in m1 && v.ps[k] != NULL && m1[v.ps[k]].next == (if k + 1 < |v.ps| then v.ps[k + 1] else NULL)
  {
    hide Chain.Holds, Flatten, Owns, Counted, FirstUsable, Offer;
    ChainFacts(m1, v, k - 1);
    if k < |v.ps| { ChainFacts(m1, v, k); }
  }

  lemma CountingFirst(m: Cells, v: View)
    requires Inv(m, v) && v.ps != []
    ensures v.nd <= |v.ps| && v.ps[Pred(v.nd)] in m && 0 <= Space(m[v.ps[Pred(v.nd)]])
    ensures var k, c := Pred(v.nd), m[v.ps[Pred(v.nd)]];
            var m1 := if c.off == 0 then m[v.ps[k] := c.(misalign := 0)] else m;
            && m1[v.ps[k]].SpaceLen() == Space(c)
            && (if Space(c) > 0 then Counting(m, m1, v, k, k + 1, 1, Space(c)) else Counting(m, m1, v, k + 1, k + 1, 0, 0))
  {
    hide InvBody, Flatten, Owns, Chain.Holds, Counted;
    LwdFacts(m, v);
    var k := Pred(v.nd);
    ChainFacts(m, v, k);
    HoldsOff(m[v.ps[k]], v.segs[k]);
    OwnsSelf(m, v.ps);
    OthersLater(m, v, k);
    var c := m[v.ps[k]];
    if c.off == 0 {
      RealignInv(m, v, k);
    }
    var m1 := if c.off == 0 then m[v.ps[k] := c.(misalign := 0)] else m;
    CountFirst(m1, v);
    OfferFirst(m, v.ps, if Space(c) > 0 then k else k + 1, k + 1);
  }

  lemma CountingStep(m: Cells, m1: Cells, v: View, f: nat, k: nat, used: nat, avail: nat)
    requires Counting(m, m1, v, f, k, used, avail) && k < |v.ps|
    ensures v.ps[k] in m1
    ensures Counting(m, m1[v.ps[k] := m1[v.ps[k]].(misalign := 0)], v, f, k + 1, used + 1, avail + |m1[v.ps[k]].mem|)
  {
    hide InvBody, Flatten, Owns, Chain.Holds, Counted, FirstUsable;
    OthersLater(m1, v, k);
    if v.nd > 0 { Apart(m1, v, v.nd - 1, k); }
    CountNext(m1, v, f, k, used, avail);
    OwnsTrans(m, v.ps, m1, v.ps, m1[v.ps[k] := m1[v.ps[k]].(misalign := 0)], v.ps);
  }

  lemma OfferFirst(m: Cells, ps: seq<Ptr>, f: nat, k: nat)
    requires f <= k <= f + 1 && k <= |ps| && (f < k ==> ps[f] in m)
    ensures Offer(m, ps, f, k) == if f < k then Space(m[ps[f]]) else 0
  {
    assert Offer(m, ps, f, f) == 0;
  }

  lemma OthersLater(m: Cells, v: View, k: nat)
    requires Inv(m, v) && k < |v.ps|
    ensures forall i :: 0 <= i < |v.ps| ==> v.ps[i] in m
    ensures forall i :: k < i < |v.ps| ==> v.ps[i] != v.ps[k]
  {
    hide AllHold, Flatten;
  }

  lemma Apart(m: Cells, v: View, i: nat, k: nat)
    requires Inv(m, v) && i < k < |v.ps|
    ensures v.ps[i] != v.ps[k]
  {
    hide AllHold, Flatten;
  }

  // The last chain with data is as it was, up to its link.
  twostate predicate DataStays(buf: EvBuffer)
    reads buf, buf.store
  {
    old(buf.nd > 0 && buf.nd <= |buf.chains| && buf.chains[buf.nd - 1] in buf.store.cells) ==>
      && buf.nd == old(buf.nd) && buf.nd <= |buf.chains| && buf.chains[buf.nd - 1] == old(buf.chains[buf.nd - 1])
      && buf.chains[buf.nd - 1] in buf.store.cells
      && buf.store.cells[buf.chains[buf.nd - 1]].SpaceLen() == old(buf.store.cells[buf.chains[buf.nd - 1]].SpaceLen())
  }

  // The last chain with data has less space than datlen.
  ghost predicate Tight(buf: EvBuffer, datlen: nat)
    reads buf, buf.store
  {
    && 0 < buf.nd <= |buf.chains| && buf.chains[buf.nd - 1] in buf.store.cells
    && buf.store.cells[buf.chains[buf.nd - 1]].SpaceLen() < datlen
  }

  // Hangs an empty chain with room for the missing bytes behind all others.
  method AddEmptyChain(buf: EvBuffer, size: nat, ghost f: nat, ghost used: nat, ghost avail: nat) returns (r: int)
    requires buf.Valid() && buf.chains != [] && Counted(buf.store.cells, buf.Vw(), f, |buf.chains|, used, avail)
    modifies buf, buf.store
    ensures SameBytes(buf) && r == if size > MAX_CHAIN_DATA then -1 else 0
    ensures r == 0 ==> DataStays(buf) && buf.nd < |buf.chains|
    ensures r == 0 ==> Ready(buf.store.cells, buf.Vw(), f, |buf.chains|, used + 1, avail + size)
  {
    hide InvBody, Flatten, Owns, Chain.Holds, Counted, Ready;
    ghost var m, v := buf.store.cells, buf.Vw();
    OwnsSelf(m, v.ps);
    var tmp := buf.store.ChainNew(size);
    if tmp == NULL {
      return -1;
    }
    ghost var m1 := buf.store.cells;
    NewChain(m, v, tmp, m1[tmp]);
    HoldsOff(m1[tmp], []);
    AddEmptyInv(m1, v, tmp);
    InStore(m1, v);
    buf.store.cells := buf.store.cells[buf.last := buf.store.cells[buf.last].(next := tmp)];
    buf.last := tmp;
    buf.chains, buf.segs := v.ps + [tmp], v.segs + [[]];
    OwnsTrans(m, v.ps, m1, v.ps + [tmp], buf.store.cells, buf.chains);
    LastDiffers(m1, v, tmp);
    NdFits(m, v);
    ReadyAdded(m, m1[tmp], v, buf.Vw(), buf.store.cells, tmp, f, used, avail, size);
    r := 0;
  }

  lemma NdFits(m: Cells, v: View)
    requires Inv(m, v)
    ensures v.nd <= |v.ps| && (v.nd > 0 ==> v.ps[v.nd - 1] in m)
  {
    hide Flatten;
  }

  lemma LastDiffers(m: Cells, v: View, p: Ptr)
    requires Inv(m, v) && v.ps != [] && p !in v.ps
    ensures v.last in v.ps && v.last != p
  {
    var q := v.ps[|v.ps| - 1];
    assert q in v.ps;
  }

  lemma ReadyAdded(m: Cells, c: Chain, v: View, v': View, m': Cells, p: Ptr, f: nat, used: nat, avail: nat, size: nat)
    requires Counted(m, v, f, |v.ps|, used, avail) && v'.ps == v.ps + [p] && v'.nd == v.nd && p !in v.ps
    requires v.last in v.ps && v.last in m && m' == m[p := c][v.last := m[v.last].(next := p)] && v.last != p
    requires c.SpaceLen() >= size && c.SpaceLen() > 0
    ensures Ready(m', v', f, |v'.ps|, used + 1, avail + size)
  {
    forall i | 0 <= i < |v.ps| ensures v.ps[i] in m' && m'[v.ps[i]].SpaceLen() == m[v.ps[i]].SpaceLen() {
      var q := v.ps[i];
      assert q in v.ps;
    }
    assert forall i :: 0 <= i < |v.ps| ==> v'.ps[i] == v.ps[i];
    SpaceFrame(m, m', v.ps, v'.ps, f, |v.ps|);
  }

  // Frees the empty chains and hangs one large enough behind the last data chain.
  method NukeEmptyChains(buf: EvBuffer, datlen: nat, n: nat) returns (r: int, ghost f: nat)
    requires buf.Valid() && buf.chains != [] && n >= 2
    requires buf.nd > 0 && buf.nd <= |buf.chains| && buf.chains[buf.nd - 1] in buf.store.cells ==>
               buf.store.cells[buf.chains[buf.nd - 1]].SpaceLen() <= datlen
    modifies buf, buf.store
    ensures SameBytes(buf) && (r == 0 || r == -1)
    ensures r == -1 <==> datlen > old(LastSpace(buf.store.cells, buf.Vw())) + MAX_CHAIN_DATA
    ensures r == 0 ==> Ready(buf.store.cells, buf.Vw(), f, |buf.chains|, n, datlen)
    ensures r == 0 ==> DataStays(buf) && buf.nd < |buf.chains|
  {
    hide InvBody, Flatten, Owns, Chain.Holds, Ready, ListFrom, Trimmed;
    ghost var m, v := buf.store.cells, buf.Vw();
    LwdFacts(m, v);
    ghost var k0 := Pred(v.nd);
    ChainFacts(m, v, k0);
    HoldsOff(m[v.ps[k0]], v.segs[k0]);
    TrimInv(m, v);
    TrimKeeps(m, v);
    var lwd := buf.Deref(buf.lastWithDatap);
    var rmvAll := buf.store.cells[lwd].off == 0;
    var avail := if rmvAll then 0 else buf.store.cells[lwd].SpaceLen();
    var victim := if rmvAll then lwd else buf.store.cells[lwd].next;
    buf.store.FreeAllChains(victim, v.ps[v.nd..]);
    var tmp := buf.store.ChainNew(datlen - avail);
    if tmp == NULL {
      CutOff(buf, lwd, rmvAll, m);
      r, f := -1, 0;
    } else {
      ghost var c := buf.store.cells[tmp];
      HoldsOff(c, []);
      HangNew(buf, lwd, rmvAll, tmp, m);
      f := ReadyNuked(m, v, buf.store.cells, buf.Vw(), tmp, c, n, datlen);
      r := 0;
    }
  }

  // What is left to do when no new chain can be had.
  method CutOff(buf: EvBuffer, lwd: Ptr, rmvAll: bool, ghost m: Cells)
    requires Inv(m, buf.Vw()) && buf.chains != [] && buf.nd <= |buf.chains| && buf.nd <= |buf.segs|
    requires buf.store.cells == m - Elems(buf.chains[buf.nd..]) && rmvAll == (buf.nd == 0)
    requires !rmvAll ==> lwd == buf.chains[buf.nd - 1] && lwd in buf.store.cells
    modifies buf, buf.store
    ensures buf.Valid() && buf.Contents() == old(buf.Contents()) && Owns(m, old(buf.chains), buf.store.cells, buf.chains)
  {
    hide InvBody, Flatten, Owns;
    ghost var v := buf.Vw();
    if rmvAll {
      ZeroChain(buf);
    } else {
      buf.last := lwd;
      buf.store.cells := buf.store.cells[lwd := buf.store.cells[lwd].(next := NULL)];
      buf.chains, buf.segs := v.ps[..v.nd], v.segs[..v.nd];
    }
    NukedNothing(m, v, buf.store.cells, buf.Vw());
  }

  // Links the new chain behind the last data chain, or makes it the only one.
  method HangNew(buf: EvBuffer, lwd: Ptr, rmvAll: bool, tmp: Ptr, ghost m: Cells)
    requires Inv(m, buf.Vw()) && buf.chains != [] && buf.nd <= |buf.chains| && buf.nd <= |buf.segs|
    requires rmvAll == (buf.nd == 0)
    requires tmp != NULL && tmp in buf.store.cells
    requires var m1 := m - Elems(buf.chains[buf.nd..]);
             var c := buf.store.cells[tmp];
             tmp !in m1 && buf.store.cells == m1[tmp := c] && c.next == NULL && c.Holds([])
             && (!rmvAll ==> lwd == buf.chains[buf.nd - 1] && lwd in m1)
    modifies buf, buf.store
    ensures buf.Valid() && buf.Contents() == old(buf.Contents()) && Owns(m, old(buf.chains), buf.store.cells, buf.chains)
    ensures buf.nd == old(buf.nd) && buf.chains == old(buf.chains[..buf.nd]) + [tmp]
    ensures tmp in buf.store.cells && buf.store.cells[tmp] == old(buf.store.cells[tmp])
    ensures !rmvAll ==> lwd in buf.store.cells && buf.store.cells[lwd] == old(buf.store.cells[lwd]).(next := tmp)
  {
    hide InvBody, Flatten, Owns, Chain.Holds;
    ghost var v := buf.Vw();
    NukeInv(m, v, tmp, buf.store.cells[tmp]);
    LwdFacts(m, v);
    if rmvAll {
      buf.first := tmp;
      buf.lastWithDatap := First;
    } else {
      buf.store.cells := buf.store.cells[lwd := buf.store.cells[lwd].(next := tmp)];
    }
    buf.last := tmp;
    buf.chains, buf.segs := v.ps[..v.nd] + [tmp], v.segs[..v.nd] + [[]];
  }

  lemma TrimKeeps(m: Cells, v: View)
    requires Inv(m, v) && v.ps != [] && v.nd <= |v.ps|
    ensures var m1 := m - Elems(v.ps[v.nd..]);
            v.nd > 0 ==> v.ps[v.nd - 1] in m1 && m1[v.ps[v.nd - 1]] == m[v.ps[v.nd - 1]]
  {
  }

  lemma NukedNothing(m: Cells, v: View, m': Cells, v': View)
    requires Inv(m, v) && v.nd <= |v.ps| && v.nd <= |v.segs|
    requires v.nd == 0 ==> m' == m - Elems(v.ps[v.nd..]) && v' == View(NULL, NULL, First, 0, [], [], 0)
    requires v.nd > 0 ==> v.ps[v.nd - 1] in m - Elems(v.ps[v.nd..])
                          && m' == WriteLink(m - Elems(v.ps[v.nd..]), v.first, LinkTo(v.ps, v.nd), NULL).0
                          && v' == v.(last := v.ps[v.nd - 1], ps := v.ps[..v.nd], segs := v.segs[..v.nd])
    ensures Inv(m', v') && Flatten(v'.segs) == Flatten(v.segs) && Owns(m, v.ps, m', v'.ps)
  {
    hide Chain.Holds, Flatten, Owns;
    TrimInv(m, v);
    if v.nd == 0 {
      FlattenEmpty(v.segs);
      FlattenEmpty([]);
      assert v.ps[..0] == [];
    }
  }

  lemma AllIn(m: Cells, v: View)
    requires Inv(m, v)
    ensures forall i :: 0 <= i < |v.ps| ==> v.ps[i] in m
  {
  }

  lemma ReadyNuked(m: Cells, v: View, m': Cells, v': View, p: Ptr, c: Chain, n: nat, datlen: nat) returns (f: nat)
    requires v.nd <= |v.ps| && n >= 2 && v.ps != [] && v'.nd == v.nd && v'.ps == v.ps[..v.nd] + [p]
    requires Inv(m', v') && p in m' && m'[p] == c && c.SpaceLen() > 0
    requires v.nd > 0 ==> var q := v.ps[v.nd - 1]; q in m && q in m' && m'[q].SpaceLen() == m[q].SpaceLen() >= 0
    requires c.SpaceLen() >= datlen - (if v.nd > 0 then m[v.ps[v.nd - 1]].SpaceLen() else 0)
    ensures Ready(m', v', f, |v'.ps|, n, datlen)
  {
    hide InvBody;
    AllIn(m', v');
    var ps := v'.ps;
    assert v.nd > 0 ==> ps[v.nd - 1] == v.ps[v.nd - 1];
    f := if v.nd == 0 then 0 else if m'[ps[v.nd - 1]].SpaceLen() == 0 then v.nd else v.nd - 1;
    assert SpaceSum(m', ps, f, |ps|) == SpaceSum(m', ps, f, |ps| - 1) + c.SpaceLen();
    if f < |ps| - 1 {
      assert SpaceSum(m', ps, f, f) == 0;
      assert SpaceSum(m', ps, f, |ps| - 1) == m'[ps[v.nd - 1]].SpaceLen();
    }
  }

  // evbuffer_expand_fast_: room for datlen bytes in at most n chains, without moving any byte
  method ExpandFast(buf: EvBuffer, datlen: nat, n: nat) returns (r: int, ghost f: nat, ghost k: nat)
    requires buf.Valid() && n >= 2
    modifies buf, buf.store
    ensures SameBytes(buf) && (r == 0 || r == -1) && (r == -1 <==> old(NoRoom(buf.store.cells, buf.Vw(), datlen, n)))
    ensures r == -1 ==> datlen > MAX_CHAIN_DATA
    ensures r == 0 ==> Ready(buf.store.cells, buf.Vw(), f, k, n, datlen)
    ensures r == 0 ==> DataStays(buf)
    ensures r == 0 && old(Tight(buf, datlen)) ==> buf.nd < |buf.chains|
  {
    hide InvBody, Flatten, Owns, Chain.Holds, Ready, Counted;
    ghost var m, v := buf.store.cells, buf.Vw();
    LwdFacts(m, v);
    NdFits(m, v);
    f, k := 0, 0;
    if buf.last == NULL {
      NoChains(m, v);
      r, f := ExpandEmpty(buf, datlen, n);
      k := |buf.chains|;
      return;
    }
    LastNonNull(m, v);
    var enough, used, avail;
    enough, used, avail, f, k := CountSpace(buf, datlen, n);
    ghost var m1 := buf.store.cells;
    CountedReady(m1, v, f, k, used, avail, n, datlen);
    RoomLeft(m, v, f, k, used, avail, datlen, n);
    if enough {
      if v.nd == |v.ps| { CountedOne(m1, v, f, k, used, avail); }
      return 0, f, k;
    }
    if used < n {
      r := AddEmptyChain(buf, datlen - avail, f, used, avail);
      ReadyWeaken(buf.store.cells, buf.Vw(), f, |buf.chains|, used + 1, n, datlen);
      k := |buf.chains|;
    } else {
      r, f := NukeEmptyChains(buf, datlen, n);
      k := |buf.chains|;
    }
    OwnsTrans(m, v.ps, m1, v.ps, buf.store.cells, buf.chains);
  }

  // What the count says of NoRoom.
  lemma RoomLeft(m: Cells, v: View, f: nat, k: nat, used: nat, avail: int, datlen: nat, n: nat)
    requires Inv(m, v) && v.ps != [] && f == FirstUsable(m, v) && k <= |v.ps| && k == f + used && used <= n && avail == Offer(m, v.ps, f, k)
    ensures avail >= datlen ==> !NoRoom(m, v, datlen, n)
    ensures avail < datlen && used < n && k == |v.ps| ==> (NoRoom(m, v, datlen, n) <==> datlen > avail + MAX_CHAIN_DATA)
    ensures avail < datlen && used == n ==> (NoRoom(m, v, datlen, n) <==>
              datlen > LastSpace(m, v) + MAX_CHAIN_DATA)
  {
    hide InvBody, Offer;
    if |v.ps| < f + n {
      OfferGrows(m, v, f, k, |v.ps|);
    } else {
      OfferGrows(m, v, f, k, f + n);
    }
  }

  // Without empty chains the space counted is that of the last chain.
  lemma CountedOne(m: Cells, v: View, f: nat, k: nat, used: nat, avail: nat)
    requires Inv(m, v) && Counted(m, v, f, k, used, avail) && v.nd > 0 && v.nd == |v.ps| && Pred(v.nd) < k
    ensures v.ps[v.nd - 1] in m && avail == m[v.ps[v.nd - 1]].SpaceLen()
  {
    hide InvBody;
    NdFits(m, v);
    assert k == v.nd;
    assert SpaceSum(m, v.ps, k, k) == 0;
    assert f < k ==> SpaceSum(m, v.ps, k - 1, k - 1) == 0;
  }

  lemma LastNonNull(m: Cells, v: View)
    requires Inv(m, v) && v.last != NULL
    ensures v.ps != []
  {
  }

  lemma CountedReady(m: Cells, v: View, f: nat, k: nat, used: nat, avail: nat, n: nat, datlen: nat)
    requires Inv(m, v) && Counted(m, v, f, k, used, avail) && used <= n && Pred(v.nd) < k
    ensures avail >= datlen ==> Ready(m, v, f, k, n, datlen)
    ensures v.nd > 0 && v.nd <= |v.ps| && v.ps[v.nd - 1] in m ==> m[v.ps[v.nd - 1]].SpaceLen() <= avail
  {
    hide InvBody;
    if v.nd > 0 && v.nd <= |v.ps| {
      SumAtLeast(m, v.ps, f, k, v.nd - 1);
    }
  }

  lemma {:induction false} SumAtLeast(m: Cells, ps: seq<Ptr>, f: nat, k: nat, i: nat)
    requires k <= |ps| && (forall i :: 0 <= i < |ps| ==> ps[i] in m) && AllSpacious(m, ps, f, k)
    ensures SpaceSum(m, ps, f, k) >= 0
    ensures f <= i < k ==> SpaceSum(m, ps, f, k) >= m[ps[i]].SpaceLen()
  {
    if k > f { SumAtLeast(m, ps, f, k - 1, i); }
  }

  lemma ReadyWeaken(m: Cells, v: View, f: nat, k: nat, n: nat, n': nat, datlen: nat)
    requires n <= n'
    ensures Ready(m, v, f, k, n, datlen) ==> Ready(m, v, f, k, n', datlen)
  {
  }

  // The case of a buffer without chains.
  method ExpandEmpty(buf: EvBuffer, datlen: nat, n: nat) returns (r: int, ghost f: nat)
    requires buf.Valid() && n >= 2 && buf.last == NULL
    modifies buf, buf.store
    ensures SameBytes(buf) && (r == 0 || r == -1) && (r == -1 <==> datlen > MAX_CHAIN_DATA)
    ensures r == 0 ==> Ready(buf.store.cells, buf.Vw(), f, |buf.chains|, n, datlen)
  {
    hide InvBody, Flatten, Owns, Chain.Holds, Ready;
    ghost var m, v := buf.store.cells, buf.Vw();
    TotalFacts(m, v);
    OwnsSelf(m, v.ps);
    NoChains(m, v);
    f := 0;
    var chain := buf.store.ChainNew(datlen);
    if chain == NULL {
      return -1, 0;
    }
    ghost var m1 := buf.store.cells;
    NewChain(m, v, chain, m1[chain]);
    HoldsOff(m1[chain], []);
    ChainInsert(buf, chain, []);
    OwnsTrans(m, v.ps, m1, v.ps + [chain], buf.store.cells, buf.chains);
    ReadySingle(buf.store.cells, buf.Vw(), chain, n, datlen);
    r := 0;
  }

  lemma NoChains(m: Cells, v: View)
    requires Inv(m, v) && v.last == NULL
    ensures v.ps == [] && v.nd == 0
  {
  }

  lemma ReadySingle(m: Cells, v: View, p: Ptr, n: nat, datlen: nat)
    requires v.ps == [p] && v.nd == 0 && p in m && n >= 1 && m[p].SpaceLen() >= datlen && m[p].SpaceLen() > 0
    ensures Ready(m, v, 0, 1, n, datlen)
  {
    assert SpaceSum(m, v.ps, 0, 0) == 0;
  }

  // ---------- evbuffer_read_setup_vecs_ ----------

  // An iovec: len bytes at offset `at` of a chain's memory.
  datatype Vec = Vec(chain: Ptr, at: nat, len: nat)

  ghost function VecSum(vecs: seq<Vec>): nat {
    if vecs == [] then 0 else vecs[0].len + VecSum(vecs[1..])
  }

  lemma {:induction false} VecSumAppend(vecs: seq<Vec>, w: Vec)
    ensures VecSum(vecs + [w]) == VecSum(vecs) + w.len
  {
    if vecs == [] {
      assert (vecs + [w])[1..] == [];
    } else {
      assert (vecs + [w])[1..] == vecs[1..] + [w];
      VecSumAppend(vecs[1..], w);
    }
  }

  // The vectors cover the free space of the chains from f on; only the last may be cut short.
  ghost predicate VecsAt(m: Cells, ps: seq<Ptr>, f: nat, vecs: seq<Vec>) {
    && f + |vecs| <= |ps|
    && forall i :: 0 <= i < |vecs| ==> VecAt(m, ps, f + i, vecs[i]) && (i + 1 < |vecs| ==> vecs[i].len == m[ps[f + i]].SpaceLen())
  }

  ghost predicate VecAt(m: Cells, ps: seq<Ptr>, k: nat, w: Vec) {
    && k < |ps| && ps[k] in m && w.chain == ps[k] && w.at == m[ps[k]].misalign + m[ps[k]].off
    && 0 < w.len <= m[ps[k]].SpaceLen()
  }

  ghost predicate FullVecs(m: Cells, ps: seq<Ptr>, f: nat, vecs: seq<Vec>)
    requires f + |vecs| <= |ps| && forall i :: 0 <= i < |ps| ==> ps[i] in m
  {
    forall i :: 0 <= i < |vecs| ==> vecs[i].len == m[ps[f + i]].SpaceLen()
  }

  // The vectors set up so far: all full, except that an exact request may cut the last one short.
  ghost predicate Filling(m: Cells, v: View, f: nat, k: nat, howmuch: nat, exact: bool, vecs: seq<Vec>) {
    && f <= k <= |v.ps| && (forall i :: 0 <= i < |v.ps| ==> v.ps[i] in m)
    && AllSpacious(m, v.ps, f, k) && SpaceSum(m, v.ps, f, k) >= howmuch
    && VecsAt(m, v.ps, f, vecs)
    && (VecSum(vecs) < howmuch ==> f + |vecs| <= k && VecSum(vecs) == SpaceSum(m, v.ps, f, f + |vecs|) && FullVecs(m, v.ps, f, vecs))
    && (exact ==> VecSum(vecs) <= howmuch)
    && (!exact ==> FullVecs(m, v.ps, f, vecs))
  }

  lemma FillStart(m: Cells, v: View, f: nat, k: nat, n: nat, howmuch: nat, exact: bool)
    requires Ready(m, v, f, k, n, howmuch)
    ensures Filling(m, v, f, k, howmuch, exact, []) && k - f <= n
  {
    assert SpaceSum(m, v.ps, f, f) == 0;
  }

  lemma FillNext(m: Cells, v: View, f: nat, k: nat, howmuch: nat, exact: bool, vecs: seq<Vec>)
    requires Filling(m, v, f, k, howmuch, exact, vecs) && VecSum(vecs) < howmuch
    ensures f + |vecs| < k <= |v.ps| && v.ps[f + |vecs|] in m && m[v.ps[f + |vecs|]].SpaceLen() > 0
  {
    hide VecsAt, VecSum, FullVecs, SpaceSum;
  }

  lemma FillStep(m: Cells, v: View, f: nat, k: nat, howmuch: nat, exact: bool, vecs: seq<Vec>, w: Vec)
    requires Filling(m, v, f, k, howmuch, exact, vecs) && VecSum(vecs) < howmuch && f + |vecs| < k <= |v.ps|
    requires var p := v.ps[f + |vecs|];
             && p in m && w.chain == p && w.at == m[p].misalign + m[p].off
             && w.len == if m[p].SpaceLen() > howmuch - VecSum(vecs) && exact then howmuch - VecSum(vecs) else m[p].SpaceLen()
    ensures Filling(m, v, f, k, howmuch, exact, vecs + [w]) && VecSum(vecs + [w]) == VecSum(vecs) + w.len
  {
    hide VecsAt, VecSum, FullVecs, SpaceSum, AllSpacious;
    VecSumAppend(vecs, w);
    FillNext(m, v, f, k, howmuch, exact, vecs);
    SumStep(m, v.ps, f, f + |vecs|);
    VecsAppend(m, v.ps, f, vecs, w);
  }

  lemma SumStep(m: Cells, ps: seq<Ptr>, f: nat, k: nat)
    requires f <= k < |ps| && forall i :: 0 <= i < |ps| ==> ps[i] in m
    ensures SpaceSum(m, ps, f, k + 1) == SpaceSum(m, ps, f, k) + m[ps[k]].SpaceLen()
  {
  }

  lemma VecsAppend(m: Cells, ps: seq<Ptr>, f: nat, vecs: seq<Vec>, w: Vec)
    requires f + |vecs| < |ps| && (forall i :: 0 <= i < |ps| ==> ps[i] in m)
    requires VecsAt(m, ps, f, vecs) && FullVecs(m, ps, f, vecs) && VecAt(m, ps, f + |vecs|, w)
    ensures VecsAt(m, ps, f, vecs + [w])
    ensures w.len == m[ps[f + |vecs|]].SpaceLen() ==> FullVecs(m, ps, f, vecs + [w])
  {
    var all := vecs + [w];
    forall i | 0 <= i < |all| ensures VecAt(m, ps, f + i, all[i]) {
      if i < |vecs| { assert all[i] == vecs[i]; }
    }
  }

  method ReadSetupVecs(buf: EvBuffer, howmuch: nat, nAvail: nat, exact: bool, ghost f: nat, ghost k: nat)
      returns (vecs: seq<Vec>, chainp: Link)
    requires buf.Valid() && Ready(buf.store.cells, buf.Vw(), f, k, nAvail, howmuch)
    ensures f <= |buf.chains| && chainp == LinkTo(buf.chains, f) && |vecs| <= nAvail
    ensures Filling(buf.store.cells, buf.Vw(), f, k, howmuch, exact, vecs)
    ensures VecSum(vecs) >= howmuch
  {
    hide InvBody, Flatten, Chain.Holds, Filling, SpaceSum, AllSpacious, VecSum;
    ghost var m, v := buf.store.cells, buf.Vw();
    LwdFacts(m, v);
    FillStart(m, v, f, k, nAvail, howmuch, exact);
    chainp := buf.lastWithDatap;
    NextFacts(m, v, Pred(v.nd));
    if buf.store.cells[buf.Deref(chainp)].SpaceLen() == 0 {
      chainp := NextOf(buf.Deref(chainp));
    }
    var chain := buf.Deref(chainp);
    vecs := [];
    var soFar := 0;
    NoVecs();
    while |vecs| < nAvail && soFar < howmuch
      invariant soFar == VecSum(vecs) && |vecs| <= nAvail && Filling(m, v, f, k, howmuch, exact, vecs)
      invariant f + |vecs| < |v.ps| ==> chain == v.ps[f + |vecs|]
    {
      FillNext(m, v, f, k, howmuch, exact, vecs);
      ghost var at := f + |vecs|;
      NextFacts(m, v, at);
      ChainSane(m, v, at);
      var c := buf.store.cells[chain];
      var avail := c.SpaceLen();
      if avail > howmuch - soFar && exact {
        avail := howmuch - soFar;
      }
      var w := Vec(chain, c.misalign + c.off, avail);
      FillStep(m, v, f, k, howmuch, exact, vecs, w);
      vecs := vecs + [w];
      soFar := soFar + avail;
      chain := c.next;
    }
    if soFar < howmuch { FillNext(m, v, f, k, howmuch, exact, vecs); }
  }

  lemma NoVecs()
    ensures VecSum([]) == 0
  {
  }

  lemma ChainSane(m: Cells, v: View, k: nat)
    requires Inv(m, v) && k < |v.ps| && v.ps[k] in m
    ensures m[v.ps[k]].misalign + m[v.ps[k]].off <= |m[v.ps[k]].mem|
  {
  }

  // ---------- readv ----------

  // The bytes lie, in order, in the free space of the chains from k on.
  ghost predicate Pending(m: Cells, ps: seq<Ptr>, k: nat, bytes: seq<Byte>)
    decreases |bytes|
  {
    bytes == [] ||
    (&& k < |ps| && ps[k] in m
     && var c := m[ps[k]];
     var len, at := Min(c.SpaceLen(), |bytes|), c.misalign + c.off;
     && 0 < len && at + len <= |c.mem| && c.mem[at..at + len] == bytes[..len]
     && Pending(m, ps, k + 1, bytes[len..]))
  }

  // How far the pending bytes reach.
  ghost function Reach(m: Cells, ps: seq<Ptr>, k: nat, bytes: seq<Byte>): nat
    requires Pending(m, ps, k, bytes)
    decreases |bytes|
  {
    if bytes == [] then 0 else 1 + Reach(m, ps, k + 1, bytes[Min(m[ps[k]].SpaceLen(), |bytes|)..])
  }

  // Every chain of ps has the same shape; the chains before k are the same altogether.
  ghost predicate SameShape(m: Cells, m': Cells, ps: seq<Ptr>, k: nat) {
    forall i :: 0 <= i < |ps| && ps[i] in m ==>
                  && ps[i] in m'
                  && m'[ps[i]] == m[ps[i]].(mem := m'[ps[i]].mem) && |m'[ps[i]].mem| == |m[ps[i]].mem|
                  && (i < k ==> m'[ps[i]] == m[ps[i]])
  }

  // Writing into free space leaves the buffer as it is.
  lemma SpaceWriteInv(m: Cells, v: View, k: nat, data: seq<Byte>)
    requires Inv(m, v) && k < |v.ps| && v.ps[k] in m && |data| <= m[v.ps[k]].SpaceLen()
    ensures m[v.ps[k]].misalign + m[v.ps[k]].off + |data| <= |m[v.ps[k]].mem|
    ensures var c := m[v.ps[k]];
            var m' := m[v.ps[k] := c.(mem := Write(c.mem, c.misalign + c.off, data))];
            Inv(m', v) && Owns(m, v.ps, m', v.ps) && SameShape(m, m', v.ps, k)
  {
    hide Flatten, DataThenEmpty, AllHold, ListFrom;
    ChainFacts(m, v, k);
    var c := m[v.ps[k]];
    var c' := c.(mem := Write(c.mem, c.misalign + c.off, data));
    assert v.segs[k := v.segs[k]] == v.segs;
    WriteHolds(c, v.segs[k], data);
    hide Owns, Chain.Holds;
    PutBytes(m, v, k, c', v.segs[k]);
    forall i | 0 <= i < k ensures v.ps[i] != v.ps[k] {
      assert v.ps[..k][i] == v.ps[i];
    }
  }

  lemma WriteHolds(c: Chain, s: seq<Byte>, data: seq<Byte>)
    requires c.Holds(s) && |data| <= c.SpaceLen()
    ensures c.(mem := Write(c.mem, c.misalign + c.off, data)).Holds(s)
  {
    var mem := Write(c.mem, c.misalign + c.off, data);
    assert mem[c.misalign..c.misalign + c.off] == c.mem[c.misalign..c.misalign + c.off];
  }

  lemma VecsRest(m: Cells, m': Cells, ps: seq<Ptr>, f: nat, vecs: seq<Vec>)
    requires VecsAt(m, ps, f, vecs) && vecs != [] && SameShape(m, m', ps, f)
    ensures VecAt(m, ps, f, vecs[0]) && VecsAt(m', ps, f + 1, vecs[1..])
    ensures |vecs| > 1 ==> vecs[0].len == m[ps[f]].SpaceLen()
    ensures VecSum(vecs) == vecs[0].len + VecSum(vecs[1..]) && (|vecs| == 1 ==> VecSum(vecs) == vecs[0].len)
  {
    forall i | 0 <= i < |vecs[1..]| ensures VecAt(m', ps, f + 1 + i, vecs[1..][i]) {
      assert vecs[1..][i] == vecs[i + 1];
      assert VecAt(m, ps, f + (i + 1), vecs[i + 1]);
    }
  }

  lemma ShapeTrans(m: Cells, m1: Cells, m2: Cells, ps: seq<Ptr>, k: nat)
    requires SameShape(m, m1, ps, k) && SameShape(m1, m2, ps, k + 1)
    ensures SameShape(m, m2, ps, k)
  {
  }

  lemma ShapeSelf(m: Cells, ps: seq<Ptr>, k: nat)
    ensures SameShape(m, m, ps, k)
  {
  }

  // What readv does: it fills the vectors in order.
  method Readv(buf: EvBuffer, vecs: seq<Vec>, bytes: seq<Byte>, ghost f: nat)
    requires buf.Valid() && VecsAt(buf.store.cells, buf.chains, f, vecs) && |bytes| <= VecSum(vecs)
    modifies buf.store
    ensures buf.Valid() && Owns(old(buf.store.cells), buf.chains, buf.store.cells, buf.chains)
    ensures Pending(buf.store.cells, buf.chains, f, bytes)
    ensures Reach(buf.store.cells, buf.chains, f, bytes) <= |vecs|
    ensures SameShape(old(buf.store.cells), buf.store.cells, buf.chains, f)
    decreases |vecs|
  {
    hide InvBody, Flatten, Owns, Chain.Holds, VecsAt, SameShape, VecSum;
    ghost var m, v := buf.store.cells, buf.Vw();
    if bytes == [] {
      OwnsSelf(m, v.ps);
      ShapeSelf(m, v.ps, f);
      return;
    }
    NoVecs();
    ShapeSelf(m, v.ps, f);
    VecsRest(m, m, v.ps, f, vecs);
    var w := vecs[0];
    var take := if w.len < |bytes| then w.len else |bytes|;
    SpaceWriteInv(m, v, f, bytes[..take]);
    var c := buf.store.cells[w.chain];
    buf.store.cells := buf.store.cells[w.chain := c.(mem := Write(c.mem, w.at, bytes[..take]))];
    ghost var m1 := buf.store.cells;
    VecsRest(m, m1, v.ps, f, vecs);
    Readv(buf, vecs[1..], bytes[take..], f + 1);
    OwnsTrans(m, v.ps, m1, v.ps, buf.store.cells, v.ps);
    ShapeTrans(m, m1, buf.store.cells, v.ps, f);
    ShapeAt(m1, buf.store.cells, v.ps, f);
  }

  lemma ShapeAt(m: Cells, m': Cells, ps: seq<Ptr>, k: nat)
    requires SameShape(m, m', ps, k + 1) && k < |ps| && ps[k] in m
    ensures ps[k] in m' && m'[ps[k]] == m[ps[k]]
  {
  }

  // ---------- the commit loop ----------

  // The layout once part has been committed to chain k, the last data chain or the first empty one.
  ghost function CommittedView(u: View, k: nat, part: seq<Byte>): View
    requires k < |u.ps| == |u.segs|
  {
    u.(lwd := LinkTo(u.ps, k), total := u.total + |part|, segs := u.segs[k := u.segs[k] + part], nd := k + 1)
  }

  lemma CommitInv(m: Cells, u: View, k: nat, part: seq<Byte>)
    requires Inv(m, u) && k < |u.ps| == |u.segs| && (k + 1 == u.nd || k == u.nd) && part != []
    requires u.ps[k] in m && u.total + |part| <= SIZE_MAX && |part| <= m[u.ps[k]].SpaceLen()
    requires var c := m[u.ps[k]];
             var at := c.misalign + c.off;
             at + |part| <= |c.mem| && c.mem[at..at + |part|] == part
    ensures var m' := m[u.ps[k] := m[u.ps[k]].(off := m[u.ps[k]].off + |part|)];
            Inv(m', CommittedView(u, k, part)) && Owns(m, u.ps, m', u.ps)
    ensures Flatten(u.segs[k := u.segs[k] + part]) == Flatten(u.segs) + part
  {
    hide Chain.Holds, ListFrom, AllHold, Flatten, Owns, DataThenEmpty;
    ChainFacts(m, u, k);
    var c := m[u.ps[k]];
    GrownHolds(c, u.segs[k], part);
    PutBytes(m, u, k, c.(off := c.off + |part|), u.segs[k] + part);
    GrowData(u.segs, u.nd, k, part);
  }

  lemma GrowData(segs: seq<seq<Byte>>, nd: nat, k: nat, part: seq<Byte>)
    requires DataThenEmpty(segs, nd) && k < |segs| && (k + 1 == nd || k == nd) && part != []
    ensures DataThenEmpty(segs[k := segs[k] + part], k + 1)
    ensures Flatten(segs[k := segs[k] + part]) == Flatten(segs) + part
  {
    hide Flatten;
    FlattenExtend(segs, k, part);
  }

  lemma GrownHolds(c: Chain, s: seq<Byte>, part: seq<Byte>)
    requires c.Holds(s) && |part| <= c.SpaceLen() && c.mem[c.misalign + c.off..c.misalign + c.off + |part|] == part
    ensures c.(off := c.off + |part|).Holds(s + part)
  {
    var at := c.misalign + c.off;
    assert c.mem[c.misalign..at + |part|] == c.mem[c.misalign..at] + c.mem[at..at + |part|];
  }

  // Committing chain k leaves the bytes pending behind it.
  lemma {:induction false} PendingKept(m: Cells, m': Cells, ps: seq<Ptr>, k: nat, bytes: seq<Byte>)
    requires Pending(m, ps, k, bytes) && forall i :: k <= i < |ps| && ps[i] in m ==> ps[i] in m' && m'[ps[i]] == m[ps[i]]
    ensures Pending(m', ps, k, bytes)
    decreases |bytes|
  {
    if bytes != [] {
      var len := Min(m[ps[k]].SpaceLen(), |bytes|);
      PendingKept(m, m', ps, k + 1, bytes[len..]);
    }
  }

  // Some of the bytes are committed, to the layout u, and `rest` is still pending from chain k on,
  // in at most `left` chains.  (m0, v) is where the loop began.
  ghost predicate Committing(m0: Cells, v: View, bytes: seq<Byte>, m: Cells, u: View, k: nat, rest: seq<Byte>, left: nat) {
    && Inv(m, u) && u.ps == v.ps && u.first == v.first && u.last == v.last && Owns(m0, v.ps, m, v.ps)
    && k < |u.ps| == |u.segs| && (k + 1 == u.nd || k == u.nd)
    && Pending(m, u.ps, k, rest) && rest != [] && Reach(m, u.ps, k, rest) <= left
    && u.total + |rest| == v.total + |bytes| <= SIZE_MAX
    && Flatten(u.segs) + rest == Flatten(v.segs) + bytes
  }

  // One turn of the loop: the chain takes min(space, remaining) bytes.
  lemma CommitStep(m0: Cells, v: View, bytes: seq<Byte>, m: Cells, u: View, k: nat, rest: seq<Byte>, left: nat)
    requires Committing(m0, v, bytes, m, u, k, rest, left)
    ensures u.ps[k] in m && left > 0 && (k > 0 ==> u.ps[k - 1] in m) && ReadLink(m, u.first, LinkTo(u.ps, k)) == u.ps[k]
    ensures var c := m[u.ps[k]];
            var len := Min(c.SpaceLen(), |rest|);
            var m', u' := m[u.ps[k] := c.(off := c.off + len)], CommittedView(u, k, rest[..len]);
            && 0 < len
            && (c.SpaceLen() < |rest| ==> Committing(m0, v, bytes, m', u', k + 1, rest[len..], left - 1))
            && (c.SpaceLen() >= |rest| ==> Inv(m', u') && Owns(m0, v.ps, m', v.ps) && Flatten(u'.segs) == Flatten(v.segs) + bytes
                                           && u'.total == v.total + |bytes|)
  {
    hide InvBody, Flatten, Owns, Chain.Holds, Pending, Reach;
    LinkFacts(m, u, k);
    PendingFacts(m, u, k, rest);
    ReachPositive(m, u.ps, k, rest);
    var c := m[u.ps[k]];
    var len := Min(c.SpaceLen(), |rest|);
    var m' := m[u.ps[k] := c.(off := c.off + len)];
    CommitInv(m, u, k, rest[..len]);
    OwnsTrans(m0, v.ps, m, v.ps, m', v.ps);
    JoinParts(Flatten(u.segs), rest, len);
    if c.SpaceLen() < |rest| {
      PendingNext(m, m', u, k, rest, left);
    } else {
      assert rest[..len] == rest;
    }
  }

  // The commit loop of evbuffer_read
  method CommitLoop(buf: EvBuffer, chainp0: Link, nvecs: nat, n: nat, ghost f: nat, ghost bytes: seq<Byte>)
    requires buf.Valid() && Pending(buf.store.cells, buf.chains, f, bytes) && |bytes| == n > 0
    requires f < |buf.chains| && (f + 1 == buf.nd || f == buf.nd) && chainp0 == LinkTo(buf.chains, f)
    requires buf.totalLen + n <= SIZE_MAX && Reach(buf.store.cells, buf.chains, f, bytes) <= nvecs
    modifies buf, buf.store
    ensures Appended(buf, bytes)
  {
    hide InvBody, Flatten, Owns, Pending, Reach, Committing;
    ghost var m0, v := buf.store.cells, buf.Vw();
    ghost var u, k: nat, rest := v, f, bytes;
    CommitStart(m0, v, bytes, f, nvecs);
    var chainp, remaining: nat, i: nat := chainp0, n, 0;
    // CommitStep shows that the loop breaks before i reaches nvecs
    while true
      invariant i <= nvecs && buf.Vw() == v && remaining == |rest|
      invariant k < |v.ps| && chainp == LinkTo(v.ps, k)
      invariant Committing(m0, v, bytes, buf.store.cells, u, k, rest, nvecs - i)
      decreases nvecs - i
    {
      ghost var m := buf.store.cells;
      CommitStep(m0, v, bytes, m, u, k, rest, nvecs - i);
      CommitFields(m0, v, bytes, m, u, k, rest, nvecs - i);
      var chain := buf.Deref(chainp);
      var c := buf.store.cells[chain];
      var space := c.SpaceLen();
      if space < remaining {
        buf.store.cells := buf.store.cells[chain := c.(off := c.off + space)];
        remaining := remaining - space;
        CommitFields(m0, v, bytes, buf.store.cells, CommittedView(u, k, rest[..space]), k + 1, rest[space..], nvecs - i - 1);
        u, k, rest := CommittedView(u, k, rest[..space]), k + 1, rest[space..];
      } else {
        buf.store.cells := buf.store.cells[chain := c.(off := c.off + remaining)];
        buf.lastWithDatap := chainp;
        assert rest[..remaining] == rest;
        u := CommittedView(u, k, rest);
        buf.segs, buf.nd := u.segs, u.nd;
        buf.totalLen := buf.totalLen + n;
        return;
      }
      chainp := NextOf(chain);
      i := i + 1;
    }
  }

  lemma CommitStart(m: Cells, v: View, bytes: seq<Byte>, f: nat, left: nat)
    requires Inv(m, v) && Pending(m, v.ps, f, bytes) && bytes != [] && f < |v.ps| && (f + 1 == v.nd || f == v.nd)
    requires v.total + |bytes| <= SIZE_MAX && Reach(m, v.ps, f, bytes) <= left
    ensures Committing(m, v, bytes, m, v, f, bytes, left)
  {
    hide InvBody, Flatten, Owns, Pending, Reach;
    OwnsSelf(m, v.ps);
    LenFacts(m, v);
  }

  lemma CommitFields(m0: Cells, v: View, bytes: seq<Byte>, m: Cells, u: View, k: nat, rest: seq<Byte>, left: nat)
    requires Committing(m0, v, bytes, m, u, k, rest, left)
    ensures u.ps == v.ps && u.first == v.first && u.last == v.last && k < |u.ps| == |u.segs|
  {
    hide InvBody, Flatten, Owns, Pending, Reach;
  }

  lemma LenFacts(m: Cells, v: View)
    requires Inv(m, v)
    ensures |v.ps| == |v.segs|
  {
  }

  lemma JoinParts(done: seq<Byte>, rest: seq<Byte>, n: nat)
    requires n <= |rest|
    ensures (done + rest[..n]) + rest[n..] == done + rest
  {
  }

  lemma ReachPositive(m: Cells, ps: seq<Ptr>, k: nat, bytes: seq<Byte>)
    requires Pending(m, ps, k, bytes) && bytes != []
    ensures Reach(m, ps, k, bytes) > 0
  {
  }

  lemma PendingFacts(m: Cells, u: View, k: nat, rest: seq<Byte>)
    requires Inv(m, u) && Pending(m, u.ps, k, rest) && rest != []
    ensures k < |u.ps| && u.ps[k] in m
    ensures var c := m[u.ps[k]];
            var len, at := Min(c.SpaceLen(), |rest|), c.misalign + c.off;
            0 < len && at + len <= |c.mem| && c.mem[at..at + len] == rest[..len]
  {
  }

  lemma PendingNext(m: Cells, m': Cells, u: View, k: nat, rest: seq<Byte>, n: nat)
    requires n > 0 && Inv(m, u) && Pending(m, u.ps, k, rest) && rest != [] && k < |u.ps| && u.ps[k] in m
    requires 0 < m[u.ps[k]].SpaceLen() < |rest| && Reach(m, u.ps, k, rest) <= n
    requires u.ps[k] in m' && m' == m[u.ps[k] := m'[u.ps[k]]]
    ensures var rest' := rest[m[u.ps[k]].SpaceLen()..];
            Pending(m', u.ps, k + 1, rest') && Reach(m', u.ps, k + 1, rest') <= n - 1 && k + 1 < |u.ps|
  {
    hide Inv, InvBody;
    var rest' := rest[m[u.ps[k]].SpaceLen()..];
    LaterChains(m, u, k);
    PendingKept(m, m', u.ps, k + 1, rest');
    ReachKept(m, m', u.ps, k + 1, rest');
  }

  lemma LaterChains(m: Cells, u: View, k: nat)
    requires Inv(m, u) && k < |u.ps|
    ensures forall i :: k < i < |u.ps| ==> u.ps[i] != u.ps[k]
  {
  }

  lemma {:induction false} ReachKept(m: Cells, m': Cells, ps: seq<Ptr>, k: nat, bytes: seq<Byte>)
    requires Pending(m, ps, k, bytes) && Pending(m', ps, k, bytes)
    requires forall i :: k <= i < |ps| && ps[i] in m ==> ps[i] in m' && m'[ps[i]] == m[ps[i]]
    ensures Reach(m', ps, k, bytes) == Reach(m, ps, k, bytes)
    decreases |bytes|
  {
    if bytes != [] {
      var len := Min(m[ps[k]].SpaceLen(), |bytes|);
      ReachKept(m, m', ps, k + 1, bytes[len..]);
    }
  }

  // ---------- evbuffer_read ----------

  const EVBUFFER_MAX_READ: int := 4096
  const NUM_READ_IOVEC: nat := 4

  // How many bytes evbuffer_read asks for, given what FIONREAD reports.
  function ReadSize(readable: int, howmuch: int): (n: nat)
    ensures n <= 4096
  {
    var n := if readable <= 0 || readable > EVBUFFER_MAX_READ then EVBUFFER_MAX_READ else readable;
    if howmuch < 0 || howmuch > n then n else howmuch
  }

  // evbuffer_read, where readv fails (None) or delivers some bytes
  method Read(buf: EvBuffer, readable: int, howmuch0: int, delivered: Option<seq<Byte>>) returns (r: int)
    requires buf.Valid() && buf.totalLen + ReadSize(readable, howmuch0) <= SIZE_MAX
    requires delivered.Some? ==> |delivered.value| <= ReadSize(readable, howmuch0)
    modifies buf, buf.store
    ensures r == if delivered.Some? then |delivered.value| else -1
    ensures Appended(buf, if delivered.Some? then delivered.value else [])
  {
    hide InvBody, Flatten, Owns, Chain.Holds, Ready, Pending, Reach, SameShape, Filling;
    ghost var m, v := buf.store.cells, buf.Vw();
    TotalFacts(m, v);
    var howmuch := ReadSize(readable, howmuch0);
    var er, f, k := ExpandFast(buf, howmuch, NUM_READ_IOVEC);
    TotalFacts(buf.store.cells, buf.Vw());
    var vecs, chainp := ReadSetupVecs(buf, howmuch, NUM_READ_IOVEC, true, f, k);
    if delivered.None? {
      return -1;
    }
    var bytes := delivered.value;
    ghost var m1, v1 := buf.store.cells, buf.Vw();
    RoomIndex(m1, v1, f, k, NUM_READ_IOVEC, howmuch, vecs);
    Readv(buf, vecs, bytes, f);
    ghost var m2 := buf.store.cells;
    OwnsTrans(m, v.ps, m1, v1.ps, m2, v1.ps);
    if |bytes| == 0 {
      return 0;
    }
    PendingInRange(m2, v1.ps, f, bytes);
    CommitLoop(buf, chainp, |vecs|, |bytes|, f, bytes);
    OwnsTrans(m, v.ps, m2, v1.ps, buf.store.cells, buf.chains);
    r := |bytes|;
  }

  lemma RoomIndex(m: Cells, v: View, f: nat, k: nat, n: nat, howmuch: nat, vecs: seq<Vec>)
    requires Ready(m, v, f, k, n, howmuch) && Filling(m, v, f, k, howmuch, true, vecs) && VecSum(vecs) >= howmuch
    ensures VecsAt(m, v.ps, f, vecs) && (f + 1 == v.nd || f == v.nd)
  {
  }

  lemma PendingInRange(m: Cells, ps: seq<Ptr>, k: nat, bytes: seq<Byte>)
    requires Pending(m, ps, k, bytes) && bytes != []
    ensures k < |ps|
  {
  }
}
