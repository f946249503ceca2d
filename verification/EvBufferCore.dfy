/** The evbuffer data structure of libevent/buffer.c: a linked list of chains, the cached total
    length, and the pointer-to-next-pointer to the last chain with data.  Chains live in an
    explicit store, so that freeing a chain and touching a freed one are visible. */
module EvBufferCore {
  import opened Bytes
  import opened Pointers

  const MIN_BUFFER_SIZE: nat := 1024
  const CHAIN_SIZE: nat := 48
  const CHAIN_MAX: nat := SSIZE_MAX
  // The largest size evbuffer_chain_new accepts.
  const MAX_CHAIN_DATA: nat := CHAIN_MAX - CHAIN_SIZE

  // A `struct evbuffer_chain **`: the address of `first` or of some chain's `next`.
  datatype Link = First | NextOf(chain: Ptr)

  // memcpy(mem + at, data, |data|)
  function Write(mem: seq<Byte>, at: nat, data: seq<Byte>): (r: seq<Byte>)
    requires at + |data| <= |mem|
    ensures |r| == |mem| && r[at..at + |data|] == data
    ensures forall i :: 0 <= i < at || at + |data| <= i < |mem| ==> r[i] == mem[i]
  {
    mem[..at] + data + mem[at + |data|..]
  }

  datatype Chain = Chain(next: Ptr, mem: seq<Byte>, misalign: nat, off: nat) {
    // The chain is well-formed and its live bytes are exactly s.
    ghost predicate Holds(s: seq<Byte>) {
      && 0 < |mem| <= MAX_CHAIN_DATA && misalign + off <= |mem|
      && off == |s| && mem[misalign..misalign + off] == s
    }

    // CHAIN_SPACE_LEN
    function SpaceLen(): int {
      |mem| - (misalign + off)
    }
  }

  type Cells = map<Ptr, Chain>

  // ---------- the list ----------

  // From head the chains ps are linked in this order, ending in NULL.
  ghost predicate ListFrom(m: Cells, head: Ptr, ps: seq<Ptr>) {
    && Distinct(ps)
    && (forall i :: 0 <= i < |ps| ==> ps[i] != NULL && ps[i] in m)
    && head == (if ps == [] then NULL else ps[0])
    && (forall i {:trigger m[ps[i]].next} :: 0 <= i < |ps| ==>
                                               m[ps[i]].next == (if i + 1 < |ps| then ps[i + 1] else NULL))
  }

  // The live bytes of the chains ps are segs.
  ghost predicate AllHold(m: Cells, ps: seq<Ptr>, segs: seq<seq<Byte>>) {
    |ps| == |segs| && forall i :: 0 <= i < |ps| ==> ps[i] in m && m[ps[i]].Holds(segs[i])
  }

  // The first nd segments carry data and all the later ones are empty.
  ghost predicate DataThenEmpty(segs: seq<seq<Byte>>, nd: nat) {
    && nd <= |segs|
    && (forall i :: 0 <= i < nd ==> segs[i] != [])
    && (forall i :: nd <= i < |segs| ==> segs[i] == [])
  }

  ghost function LinkTo(ps: seq<Ptr>, k: nat): Link
    requires k <= |ps|
  {
    if k == 0 then First else NextOf(ps[k - 1])
  }

  // The index of the chain that last_with_datap leads to.
  ghost function Pred(nd: nat): nat {
    if nd == 0 then 0 else nd - 1
  }

  // The fields of a buffer, with the list, its bytes and the number of chains that carry data.
  datatype View = View(first: Ptr, last: Ptr, lwd: Link, total: nat, ps: seq<Ptr>, segs: seq<seq<Byte>>, nd: nat)

  // The layout invariant, except for `last`, which some helpers leave to their caller.
  ghost predicate InvBody(m: Cells, v: View) {
    && ListFrom(m, v.first, v.ps)
    && AllHold(m, v.ps, v.segs)
    && DataThenEmpty(v.segs, v.nd)
    && v.nd <= |v.ps| == |v.segs|
    && v.lwd == LinkTo(v.ps, Pred(v.nd))
    && v.total == |Flatten(v.segs)| <= SIZE_MAX
  }

  ghost function LastOf(ps: seq<Ptr>): Ptr {
    if ps == [] then NULL else ps[|ps| - 1]
  }

  ghost predicate Inv(m: Cells, v: View) {
    InvBody(m, v) && v.last == LastOf(v.ps)
  }

  // From store m to store m', the chains ps were replaced by the chains ps': every other chain is
  // as it was, every chain that left the list was freed, and nothing else was freed or allocated.
  ghost predicate Owns(m: Cells, ps: seq<Ptr>, m': Cells, ps': seq<Ptr>) {
    && (forall p :: p in m && p !in ps ==> p in m' && m'[p] == m[p] && p !in ps')
    && (forall p :: p in m' ==> p in ps' || (p in m && p !in ps))
  }

  class Store {
    var cells: Cells

    constructor ()
      ensures cells == map[]
    {
      cells := map[];
    }

    // evbuffer_chain_new, when malloc succeeds: at some unused address, with arbitrary bytes
    method ChainNew(size: nat) returns (p: Ptr)
      modifies this
      ensures p == NULL <==> size > MAX_CHAIN_DATA
      ensures p == NULL ==> cells == old(cells)
      ensures p != NULL ==> p !in old(cells) && p in cells && cells == old(cells)[p := cells[p]]
                            && cells[p].next == NULL && cells[p].misalign == 0 && cells[p].Holds([])
                            && |cells[p].mem| == ChainCapacity(size)
    {
      if size > MAX_CHAIN_DATA {
        return NULL;
      }
      var total := size + CHAIN_SIZE;
      var toAlloc := total;
      if total < CHAIN_MAX / 2 {
        toAlloc := MIN_BUFFER_SIZE;
        while toAlloc < total
          invariant 0 < toAlloc
          invariant Doubled(toAlloc, total) == Doubled(MIN_BUFFER_SIZE, total)
        {
          toAlloc := toAlloc * 2;
        }
      }
      UnusedAddress(cells.Keys);
      p :| p != NULL && p !in cells;
      var mem: seq<Byte> := seq(toAlloc - CHAIN_SIZE, _ => 0);
      cells := cells[p := Chain(NULL, mem, 0, 0)];
    }

    // evbuffer_chain_free of an unshared, unpinned chain
    method ChainFree(p: Ptr)
      requires p in cells
      modifies this
      ensures cells == old(cells) - {p}
    {
      cells := cells - {p};
    }

    // evbuffer_free_all_chains
    method FreeAllChains(head: Ptr, ghost ps: seq<Ptr>)
      requires ListFrom(cells, head, ps)
      modifies this
      ensures cells == old(cells) - Elems(ps)
    {
      var chain := head;
      ghost var k := 0;
      while chain != NULL
        invariant k <= |ps| && ListFrom(cells, chain, ps[k..])
        invariant cells == old(cells) - Elems(ps[..k])
        decreases |ps| - k
      {
        var next := cells[chain].next;
        assert ps[..k + 1] == ps[..k] + [chain];
        ChainFree(chain);
        chain := next;
        k := k + 1;
      }
      assert ps[..k] == ps;
    }
  }

  lemma {:induction false} UnusedAddress(used: set<Ptr>)
    ensures exists p :: p != NULL && p !in used
  {
    var top := UpperBound(used);
    var p: Ptr := top + 1;
    assert p != NULL && p !in used;
  }

  lemma {:induction false} UpperBound(used: set<Ptr>) returns (top: nat)
    ensures forall p :: p in used ==> p <= top
  {
    if p :| p in used {
      var rest := used - {p};
      top := UpperBound(rest);
      assert forall q :: q in used ==> q == p || q in rest;
      top := if p <= top then top else p;
    } else {
      top := 0;
    }
  }

  // The smallest doubling of `from` that reaches n.
  function Doubled(from: nat, n: nat): (r: nat)
    requires 0 < from
    ensures n <= r && from <= r
    ensures from < n ==> r < 2 * n
    decreases n - from
  {
    if from < n then Doubled(2 * from, n) else from
  }

  function ChainCapacity(size: nat): (r: nat)
    requires size <= MAX_CHAIN_DATA
    ensures size <= r && 0 < r <= MAX_CHAIN_DATA
  {
    var total := size + CHAIN_SIZE;
    (if total < CHAIN_MAX / 2 then Doubled(MIN_BUFFER_SIZE, total) else total) - CHAIN_SIZE
  }

  class EvBuffer {
    const store: Store
    var first: Ptr
    var last: Ptr
    var lastWithDatap: Link
    var totalLen: nat
    ghost var chains: seq<Ptr>
    ghost var segs: seq<seq<Byte>>
    ghost var nd: nat

    ghost function Vw(): View
      reads this
    {
      View(first, last, lastWithDatap, totalLen, chains, segs, nd)
    }

    ghost predicate Valid()
      reads this, store
    {
      Inv(store.cells, Vw())
    }

    ghost predicate ValidBody()
      reads this, store
    {
      InvBody(store.cells, Vw())
    }

    ghost function Contents(): seq<Byte>
      reads this
    {
      Flatten(segs)
    }

    // evbuffer_new
    constructor (store: Store)
      ensures Valid() && Contents() == [] && chains == [] && this.store == store
    {
      this.store := store;
      first, last, lastWithDatap, totalLen := NULL, NULL, First, 0;
      chains, segs, nd := [], [], 0;
    }

    // *l
    function Deref(l: Link): Ptr
      requires l.NextOf? ==> l.chain in store.cells
      reads this, store
    {
      ReadLink(store.cells, first, l)
    }

    // *l = c
    method SetLink(l: Link, c: Ptr)
      requires l.NextOf? ==> l.chain in store.cells
      modifies this`first, store
      ensures (store.cells, first) == WriteLink(old(store.cells), old(first), l, c)
    {
      match l
      case First => first := c;
      case NextOf(p) => store.cells := store.cells[p := store.cells[p].(next := c)];
    }
  }

  function ReadLink(m: Cells, first: Ptr, l: Link): Ptr
    requires l.NextOf? ==> l.chain in m
  {
    match l
    case First => first
    case NextOf(c) => m[c].next
  }

  function WriteLink(m: Cells, first: Ptr, l: Link, c: Ptr): (Cells, Ptr)
    requires l.NextOf? ==> l.chain in m
  {
    match l
    case First => (m, c)
    case NextOf(p) => (m[p := m[p].(next := c)], first)
  }
}
