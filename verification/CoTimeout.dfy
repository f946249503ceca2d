/** The timing wheel of libco/co_routine.cpp: AddTimeout and TakeAllTimeout.  The wheel is an array of
    slots of one millisecond each, used as a ring; it is proved to behave as one queue ordered by
    expiry time, first come first served among equal times. */
module CoTimeout {
  import opened Bytes
  import opened Pointers
  import opened CoLinks

  const INT_MAX := 0x7fff_ffff

  type Times = map<Ptr, int>

  // ----- the queue the wheel stands for -----

  ghost predicate Timed(q: seq<Ptr>, expire: Times) {
    forall i :: 0 <= i < |q| ==> q[i] in expire
  }

  ghost predicate Sorted(q: seq<Ptr>, expire: Times) {
    && Timed(q, expire)
    && forall i, j :: 0 <= i < j < |q| ==> expire[q[i]] <= expire[q[j]]
  }

  // p goes behind every item that expires no later than p.
  function Insert(q: seq<Ptr>, expire: Times, p: Ptr): seq<Ptr> {
    if q != [] && p in expire && q[|q| - 1] in expire && expire[q[|q| - 1]] > expire[p]
    then Insert(q[..|q| - 1], expire, p) + [q[|q| - 1]]
    else q + [p]
  }

  // The items that have expired at time now, and the others, each in the order of the queue.
  function Due(q: seq<Ptr>, expire: Times, now: int): seq<Ptr> {
    if q == [] then []
    else Due(q[..|q| - 1], expire, now)
         + if q[|q| - 1] in expire && expire[q[|q| - 1]] <= now then [q[|q| - 1]] else []
  }

  function Rest(q: seq<Ptr>, expire: Times, now: int): seq<Ptr> {
    if q == [] then []
    else Rest(q[..|q| - 1], expire, now)
         + if q[|q| - 1] in expire && expire[q[|q| - 1]] <= now then [] else [q[|q| - 1]]
  }

  // ----- the wheel -----

  // The slot i milliseconds after the first one.
  function SlotAt(slots: seq<Ptr>, idx: nat, i: nat): Ptr
    requires slots != []
  {
    slots[(idx + i) % |slots|]
  }

  // The items in the first n slots.
  ghost function Cat(content: Content, slots: seq<Ptr>, idx: nat, n: nat): seq<Ptr>
    requires slots != [] && forall l :: l in slots ==> l in content
  {
    if n == 0 then [] else Cat(content, slots, idx, n - 1) + content[SlotAt(slots, idx, n - 1)]
  }

  // All items of list l expire at time t.
  ghost predicate AllAt(ps: seq<Ptr>, expire: Times, t: int) {
    forall p :: p in ps ==> p in expire && expire[p] == t
  }

  // Every item is in the slot of its expiry time.
  ghost predicate WheelInv(content: Content, slots: seq<Ptr>, start: int, idx: nat, expire: Times) {
    && slots != [] && Distinct(slots) && (forall l :: l in slots ==> l in content)
    && forall i: nat :: i < |slots| ==> AllAt(content[SlotAt(slots, idx, i)], expire, start + i)
  }

  lemma MulBound(n: nat, k: int)
    ensures k >= 1 ==> n * k >= n
    ensures k <= -1 ==> n * k + n <= 0
    ensures k == 0 ==> n * k == 0
  {
  }

  lemma SlotIn(slots: seq<Ptr>, idx: nat, i: nat)
    requires slots != []
    ensures SlotAt(slots, idx, i) in slots
  {
  }

  // Slots at different distances are different.
  lemma SlotsApart(slots: seq<Ptr>, idx: nat, i: nat, j: nat)
    requires slots != [] && Distinct(slots) && i < j < |slots|
    ensures SlotAt(slots, idx, i) != SlotAt(slots, idx, j)
  {
    var n, a, b := |slots|, idx + i, idx + j;
    MulBound(n, b / n - a / n);
    assert b - a == n * (b / n - a / n) + (b % n - a % n);
  }

  lemma ModIs(n: nat, q: int, k: nat)
    requires k < n
    ensures (n * q + k) % n == k
  {
    var m, d := (n * q + k) % n, (n * q + k) / n;
    assert n * (q - d) == m - k;
    MulBound(n, q - d);
  }

  // ----- the operations on the queue -----

  lemma {:induction false} InsertBefore(q: seq<Ptr>, r: seq<Ptr>, expire: Times, p: Ptr)
    requires p in expire && forall x :: x in r ==> x in expire && expire[x] > expire[p]
    ensures Insert(q + r, expire, p) == Insert(q, expire, p) + r
  {
    if r == [] {
      assert q + r == q && Insert(q, expire, p) + r == Insert(q, expire, p);
    } else {
      var m, x := r[..|r| - 1], r[|r| - 1];
      assert x in r && (q + r)[..|q + r| - 1] == q + m;
      InsertBefore(q, m, expire, p);
      assert Insert(q, expire, p) + r == Insert(q, expire, p) + m + [x];
    }
  }

  lemma {:induction false} DueSplit(q: seq<Ptr>, r: seq<Ptr>, expire: Times, now: int)
    ensures Due(q + r, expire, now) == Due(q, expire, now) + Due(r, expire, now)
    ensures Rest(q + r, expire, now) == Rest(q, expire, now) + Rest(r, expire, now)
  {
    if r == [] {
      assert q + r == q;
    } else {
      assert (q + r)[..|q + r| - 1] == q + r[..|r| - 1];
      DueSplit(q, r[..|r| - 1], expire, now);
    }
  }

  lemma {:induction false} DueAll(q: seq<Ptr>, expire: Times, now: int)
    requires forall p :: p in q ==> p in expire && expire[p] <= now
    ensures Due(q, expire, now) == q && Rest(q, expire, now) == []
  {
    if q != [] {
      var m, x := q[..|q| - 1], q[|q| - 1];
      assert q == m + [x] && x in q;
      assert forall p :: p in m ==> p in q;
      DueAll(m, expire, now);
    }
  }

  lemma {:induction false} DueNone(q: seq<Ptr>, expire: Times, now: int)
    requires forall p :: p in q ==> p in expire && expire[p] > now
    ensures Due(q, expire, now) == [] && Rest(q, expire, now) == q
  {
    if q != [] {
      var m, x := q[..|q| - 1], q[|q| - 1];
      assert q == m + [x] && x in q;
      assert forall p :: p in m ==> p in q;
      DueNone(m, expire, now);
    }
  }

  // Due takes exactly the expired items, Rest leaves exactly the others, and both keep the order.
  lemma {:induction false} DueExact(q: seq<Ptr>, expire: Times, now: int)
    requires Sorted(q, expire)
    ensures q == Due(q, expire, now) + Rest(q, expire, now)
    ensures forall p :: p in Due(q, expire, now) ==> p in expire && expire[p] <= now
    ensures forall p :: p in Rest(q, expire, now) ==> p in expire && expire[p] > now
  {
    if q != [] {
      var m, x := q[..|q| - 1], q[|q| - 1];
      assert q == m + [x];
      assert q[|q| - 1] in expire;
      DueExact(m, expire, now);
      if expire[x] <= now {
        forall p | p in m ensures p in expire && expire[p] <= now {
          var i :| 0 <= i < |m| && m[i] == p;
          assert q[i] == p;
        }
        DueAll(m, expire, now);
      }
    }
  }

  // Insert keeps the queue sorted, and adds p behind the items that expire no later.
  lemma InsertExact(q: seq<Ptr>, expire: Times, p: Ptr) returns (k: nat)
    requires Sorted(q, expire) && p in expire
    ensures k <= |q| && Insert(q, expire, p) == q[..k] + [p] + q[k..] && Sorted(Insert(q, expire, p), expire)
    ensures forall i :: 0 <= i < |q| ==> (i < k <==> q[i] in expire && expire[q[i]] <= expire[p])
  {
    hide Insert;
    k := InsertPlace(q, expire, p);
    SortedInsert(q, expire, p, k);
  }

  lemma {:induction false} InsertPlace(q: seq<Ptr>, expire: Times, p: Ptr) returns (k: nat)
    requires Sorted(q, expire) && p in expire
    ensures k <= |q| && Insert(q, expire, p) == q[..k] + [p] + q[k..]
    ensures forall i :: 0 <= i < |q| ==> (i < k <==> q[i] in expire && expire[q[i]] <= expire[p])
  {
    hide Insert;
    var n := |q|;
    InsertStep(q, expire, p);
    if q != [] && expire[q[n - 1]] > expire[p] {
      k := InsertPlace(q[..n - 1], expire, p);
      PlaceGrows(q, p, k);
    } else {
      k := n;
      assert q[..n] + [p] + q[n..] == q + [p];
    }
  }

  lemma PlaceGrows(q: seq<Ptr>, p: Ptr, k: nat)
    requires q != [] && k <= |q| - 1
    ensures var m := q[..|q| - 1]; m[..k] + [p] + m[k..] + [q[|q| - 1]] == q[..k] + [p] + q[k..]
  {
  }

  lemma InsertStep(q: seq<Ptr>, expire: Times, p: Ptr)
    requires p in expire && (q != [] ==> q[|q| - 1] in expire)
    ensures Insert(q, expire, p) == if q != [] && expire[q[|q| - 1]] > expire[p] then Insert(q[..|q| - 1], expire, p) + [q[|q| - 1]]
                                    else q + [p]
  {
  }

  lemma SortedInsert(q: seq<Ptr>, expire: Times, p: Ptr, k: nat)
    requires Sorted(q, expire) && p in expire && k <= |q|
    requires forall i :: 0 <= i < |q| ==> q[i] in expire && if i < k then expire[q[i]] <= expire[p] else expire[q[i]] >= expire[p]
    ensures Sorted(q[..k] + [p] + q[k..], expire)
  {
    var r := q[..k] + [p] + q[k..];
    assert forall i :: 0 <= i < |r| ==> r[i] == if i < k then q[i] else if i == k then p else q[i - 1];
  }

  // ----- the items of the first n slots -----

  lemma {:induction false} CatSame(content: Content, content': Content, slots: seq<Ptr>, idx: nat, idx': nat, n: nat)
    requires slots != [] && (forall l :: l in slots ==> l in content && l in content')
    requires forall i: nat :: i < n ==> content'[SlotAt(slots, idx', i)] == content[SlotAt(slots, idx, i)]
    ensures Cat(content', slots, idx', n) == Cat(content, slots, idx, n)
  {
    if n > 0 {
      CatSame(content, content', slots, idx, idx', n - 1);
    }
  }

  lemma {:induction false} CatEmpty(content: Content, slots: seq<Ptr>, idx: nat, n: nat)
    requires slots != [] && (forall l :: l in slots ==> l in content)
    requires forall i: nat :: i < n ==> content[SlotAt(slots, idx, i)] == []
    ensures Cat(content, slots, idx, n) == []
  {
    if n > 0 {
      CatEmpty(content, slots, idx, n - 1);
    }
  }

  lemma {:induction false} CatShift(content: Content, slots: seq<Ptr>, idx: nat, a: nat, n: nat)
    requires slots != [] && (forall l :: l in slots ==> l in content)
    ensures Cat(content, slots, idx, a + n) == Cat(content, slots, idx, a) + Cat(content, slots, idx + a, n)
  {
    if n > 0 {
      CatShift(content, slots, idx, a, n - 1);
      assert SlotAt(slots, idx + a, n - 1) == SlotAt(slots, idx, a + n - 1);
    }
  }

  // The items of slots a to a + n expire between start + a and start + a + n.
  lemma {:induction false} CatTimes(content: Content, slots: seq<Ptr>, start: int, idx: nat, expire: Times, a: nat, n: nat)
    requires WheelInv(content, slots, start, idx, expire) && a + n <= |slots|
    ensures forall p :: p in Cat(content, slots, idx + a, n) ==> p in expire && start + a <= expire[p] < start + a + n
  {
    if n > 0 {
      CatTimes(content, slots, start, idx, expire, a, n - 1);
      assert SlotAt(slots, idx + a, n - 1) == SlotAt(slots, idx, a + n - 1);
      assert AllAt(content[SlotAt(slots, idx, a + n - 1)], expire, start + (a + n - 1));
    }
  }

  lemma {:induction false} CatSorted(content: Content, slots: seq<Ptr>, start: int, idx: nat, expire: Times, n: nat)
    requires WheelInv(content, slots, start, idx, expire) && n <= |slots|
    ensures Sorted(Cat(content, slots, idx, n), expire)
  {
    if n > 0 {
      CatSorted(content, slots, start, idx, expire, n - 1);
      CatTimes(content, slots, start, idx, expire, 0, n - 1);
      assert AllAt(content[SlotAt(slots, idx, n - 1)], expire, start + (n - 1));
      SortedConcat(Cat(content, slots, idx + 0, n - 1), content[SlotAt(slots, idx, n - 1)], expire, start + (n - 1));
    }
  }

  lemma SortedConcat(q: seq<Ptr>, r: seq<Ptr>, expire: Times, t: int)
    requires Sorted(q, expire) && AllAt(r, expire, t) && forall p :: p in q ==> p in expire && expire[p] <= t
    ensures Sorted(q + r, expire)
  {
    forall i | 0 <= i < |q + r| ensures (q + r)[i] in expire {
      var x := (q + r)[i];
      assert if i < |q| then x in q else x in r;
    }
    forall i, j | 0 <= i < j < |q + r|
      ensures (q + r)[i] in expire && (q + r)[j] in expire && expire[(q + r)[i]] <= expire[(q + r)[j]]
    {
      var x, y := (q + r)[i], (q + r)[j];
      assert if i < |q| then x in q else x in r;
      assert if j < |q| then y in q else y in r;
    }
  }

  lemma InsertLast(q: seq<Ptr>, r: seq<Ptr>, expire: Times, p: Ptr)
    requires p in expire && forall x :: x in q + r ==> x in expire && expire[x] <= expire[p]
    ensures Insert(q + r, expire, p) == q + (r + [p])
  {
    if q + r != [] {
      var x := (q + r)[|q + r| - 1];
      assert x in q + r;
    }
    assert q + r + [p] == q + (r + [p]);
  }

  // The wheel's queue is in order of expiry.
  lemma QueueSorted(t: Timeout)
    requires t.Valid()
    ensures Sorted(t.Queue(), t.expire)
  {
    CatSorted(t.store.content, t.slots, t.start, t.startIdx, t.expire, |t.slots|);
  }

  // Adding p to slot d is inserting it into the queue.
  lemma {:induction false} CatInsert(content: Content, slots: seq<Ptr>, start: int, idx: nat, expire: Times, d: nat, p: Ptr, n: nat)
    requires WheelInv(content, slots, start, idx, expire) && d < n <= |slots| && p in expire && expire[p] == start + d
    ensures var l := SlotAt(slots, idx, d);
            var content' := content[l := content[l] + [p]];
            Cat(content', slots, idx, n) == Insert(Cat(content, slots, idx, n), expire, p)
  {
    hide Insert, Distinct, AllAt, SlotAt;
    SlotIn(slots, idx, d);
    SlotIn(slots, idx, n - 1);
    var l := SlotAt(slots, idx, d);
    var content' := content[l := content[l] + [p]];
    var q, r := Cat(content, slots, idx, n - 1), content[SlotAt(slots, idx, n - 1)];
    assert AllAt(r, expire, start + (n - 1));
    if n - 1 == d {
      CatBefore(content, slots, idx, d, p);
      CatTimes(content, slots, start, idx, expire, 0, n);
      InsertLast(q, r, expire, p);
    } else {
      LaterThan(r, expire, start + (n - 1), expire[p]);
      CatInsert(content, slots, start, idx, expire, d, p, n - 1);
      SlotsApart(slots, idx, d, n - 1);
      InsertBefore(q, r, expire, p);
    }
  }

  lemma LaterThan(r: seq<Ptr>, expire: Times, t: int, e: int)
    requires AllAt(r, expire, t) && t > e
    ensures forall x :: x in r ==> x in expire && expire[x] > e
  {
  }

  lemma CatBefore(content: Content, slots: seq<Ptr>, idx: nat, d: nat, p: Ptr)
    requires slots != [] && Distinct(slots) && (forall l :: l in slots ==> l in content) && d < |slots|
    ensures var l := SlotAt(slots, idx, d);
            Cat(content[l := content[l] + [p]], slots, idx, d) == Cat(content, slots, idx, d)
  {
    hide Distinct;
    var l := SlotAt(slots, idx, d);
    var content' := content[l := content[l] + [p]];
    forall i: nat | i < d ensures content'[SlotAt(slots, idx, i)] == content[SlotAt(slots, idx, i)] {
      SlotsApart(slots, idx, i, d);
    }
    CatSame(content, content', slots, idx, idx, d);
  }

  // Taking p out of its slot is taking it out of the queue.
  lemma {:induction false} CatWithout(content: Content, slots: seq<Ptr>, idx: nat, l: Ptr, p: Ptr, n: nat)
    requires slots != [] && (forall k :: k in slots ==> k in content) && l in content
    requires forall k :: k in slots && k != l ==> p !in content[k]
    ensures Cat(content[l := Without(content[l], p)], slots, idx, n) == Without(Cat(content, slots, idx, n), p)
  {
    if n > 0 {
      CatWithout(content, slots, idx, l, p, n - 1);
      var k := SlotAt(slots, idx, n - 1);
      WithoutSplit(Cat(content, slots, idx, n - 1), content[k], p);
      if k != l { WithoutNone(content[k], p); }
    }
  }

  // ----- TakeAllTimeout -----

  // The first i slots have been emptied into the list result.
  ghost predicate Taking(content0: Content, content: Content, slots: seq<Ptr>, idx: nat, result: Ptr, i: nat) {
    && slots != [] && result !in slots && result in content0 && (forall l :: l in slots ==> l in content0)
    && content.Keys == content0.Keys
    && content[result] == content0[result] + Cat(content0, slots, idx, i)
    && (forall j: nat :: j < |slots| ==> content[SlotAt(slots, idx, j)] == if j < i then [] else content0[SlotAt(slots, idx, j)])
    && (forall l :: l in content0 && l !in slots && l != result ==> content[l] == content0[l])
  }

  lemma TakeNone(content: Content, slots: seq<Ptr>, idx: nat, result: Ptr)
    requires slots != [] && result !in slots && result in content && (forall l :: l in slots ==> l in content)
    ensures Taking(content, content, slots, idx, result, 0)
  {
  }

  lemma TakeNext(content0: Content, content: Content, slots: seq<Ptr>, idx: nat, result: Ptr, i: nat)
    requires Taking(content0, content, slots, idx, result, i) && i < |slots| && Distinct(slots)
    ensures var l := SlotAt(slots, idx, i);
            l in slots && l != result && result in content && l in content
            && Taking(content0, content[result := content[result] + content[l]][l := []], slots, idx, result, i + 1)
  {
    hide Distinct, SlotAt;
    SlotIn(slots, idx, i);
    var l := SlotAt(slots, idx, i);
    var content' := content[result := content[result] + content[l]][l := []];
    assert l in slots && content[l] == content0[l];
    forall j: nat | j < |slots|
      ensures SlotAt(slots, idx, j) in slots && content'[SlotAt(slots, idx, j)] == if j < i + 1 then [] else content0[SlotAt(slots, idx, j)]
    {
      SlotIn(slots, idx, j);
      if j < i { SlotsApart(slots, idx, j, i); }
      if i < j { SlotsApart(slots, idx, i, j); }
    }
  }

  // With the first cnt slots emptied, the wheel can start at slot cnt - 1.
  lemma TakenRest(content0: Content, content: Content, slots: seq<Ptr>, idx: nat, result: Ptr, cnt: nat)
    requires Taking(content0, content, slots, idx, result, cnt) && 0 < cnt <= |slots|
    ensures Cat(content, slots, idx + (cnt - 1), |slots|) == Cat(content0, slots, idx + cnt, |slots| - cnt)
  {
    TakenFirst(content0, content, slots, idx, result, cnt);
    hide SlotAt, Cat;
    var n, m := |slots|, idx + (cnt - 1);
    CatShift(content, slots, m, 1, n - 1);
    CatShift(content, slots, idx + cnt, n - cnt, cnt - 1);
    TakenKeep(content0, content, slots, idx, result, cnt, idx + cnt);
    TakenGone(content0, content, slots, idx, result, cnt, idx + n);
  }

  lemma TakenFirst(content0: Content, content: Content, slots: seq<Ptr>, idx: nat, result: Ptr, cnt: nat)
    requires Taking(content0, content, slots, idx, result, cnt) && 0 < cnt <= |slots|
    ensures Cat(content, slots, idx + (cnt - 1), 1) == []
  {
    var m := idx + (cnt - 1);
    assert SlotAt(slots, m, 0) == SlotAt(slots, idx, cnt - 1);
    assert Cat(content, slots, m, 0) == [];
  }

  lemma TakenKeep(content0: Content, content: Content, slots: seq<Ptr>, idx: nat, result: Ptr, cnt: nat, m: nat)
    requires Taking(content0, content, slots, idx, result, cnt) && 0 < cnt <= |slots| && m == idx + cnt
    ensures Cat(content, slots, m, |slots| - cnt) == Cat(content0, slots, m, |slots| - cnt)
  {
    forall i: nat | i < |slots| - cnt ensures content[SlotAt(slots, m, i)] == content0[SlotAt(slots, m, i)] {
      assert SlotAt(slots, m, i) == SlotAt(slots, idx, cnt + i);
    }
    CatSame(content0, content, slots, m, m, |slots| - cnt);
  }

  lemma TakenGone(content0: Content, content: Content, slots: seq<Ptr>, idx: nat, result: Ptr, cnt: nat, m: nat)
    requires Taking(content0, content, slots, idx, result, cnt) && 0 < cnt <= |slots| && m == idx + |slots|
    ensures Cat(content, slots, m, cnt - 1) == []
  {
    forall i: nat | i < cnt - 1 ensures content[SlotAt(slots, m, i)] == [] {
      Around(slots, idx, i);
      assert SlotAt(slots, idx, i) in slots;
    }
    CatEmpty(content, slots, m, cnt - 1);
  }

  lemma Around(slots: seq<Ptr>, idx: nat, i: nat)
    requires slots != []
    ensures SlotAt(slots, idx + |slots|, i) == SlotAt(slots, idx, i)
  {
    var n, a := |slots|, idx + i;
    ModIs(n, a / n + 1, a % n);
    assert n * (a / n + 1) + a % n == a + n;
  }

  // ... and every remaining item is still in the slot of its expiry time.
  lemma TakenInv(content0: Content, content: Content, slots: seq<Ptr>, start: int, idx: nat, expire: Times,
                 result: Ptr, cnt: nat, now: int)
    requires WheelInv(content0, slots, start, idx, expire) && Taking(content0, content, slots, idx, result, cnt)
    requires 0 < cnt && cnt == if now - start + 1 > |slots| then |slots| else now - start + 1
    ensures WheelInv(content, slots, now, idx + (cnt - 1), expire)
  {
    var n, m := |slots|, idx + (cnt - 1);
    forall i: nat | i < n ensures AllAt(content[SlotAt(slots, m, i)], expire, now + i) {
      var j := cnt - 1 + i;
      assert SlotAt(slots, m, i) == SlotAt(slots, idx, j);
      if j >= n {
        Around(slots, idx, j - n);
        assert SlotAt(slots, idx + n, j - n) == SlotAt(slots, idx, j);
        assert SlotAt(slots, idx, j - n) in slots;
      } else {
        assert AllAt(content0[SlotAt(slots, idx, j)], expire, start + j);
      }
    }
  }

  // The slots taken hold exactly the items that are due.
  lemma TakenDue(content: Content, slots: seq<Ptr>, start: int, idx: nat, expire: Times, cnt: nat, now: int)
    requires WheelInv(content, slots, start, idx, expire)
    requires 0 < cnt && cnt == if now - start + 1 > |slots| then |slots| else now - start + 1
    ensures Due(Cat(content, slots, idx, |slots|), expire, now) == Cat(content, slots, idx, cnt)
    ensures Rest(Cat(content, slots, idx, |slots|), expire, now) == Cat(content, slots, idx + cnt, |slots| - cnt)
  {
    hide Due, Rest, AllAt, Distinct, Cat, SlotAt;
    var n, q, r := |slots|, Cat(content, slots, idx, cnt), Cat(content, slots, idx + cnt, |slots| - cnt);
    CatShift(content, slots, idx, cnt, n - cnt);
    CatTimes(content, slots, start, idx, expire, 0, cnt);
    CatTimes(content, slots, start, idx, expire, cnt, n - cnt);
    assert idx + 0 == idx;
    DueOf(q, r, expire, now);
  }

  lemma DueOf(q: seq<Ptr>, r: seq<Ptr>, expire: Times, now: int)
    requires forall p :: p in q ==> p in expire && expire[p] <= now
    requires forall p :: p in r ==> p in expire && expire[p] > now
    ensures Due(q + r, expire, now) == q && Rest(q + r, expire, now) == r
  {
    DueSplit(q, r, expire, now);
    DueAll(q, expire, now);
    DueNone(r, expire, now);
  }

  // An item stays where it was or goes from a slot to the list result.
  ghost predicate LinkKept(link: Ptr, link': Ptr, slots: seq<Ptr>, result: Ptr) {
    link' == link || (link in slots && link' == result)
  }

  datatype AddResult = Added | ClockBehind | AlreadyExpired | TooFar

  const TWO32 := 0x1_0000_0000

  // The distance d >= 0 of an expiry time from the start of the wheel is kept in an int.  It tells
  // right whether the item is on the wheel exactly when ...
  predicate DiffFits(d: int, size: int) {
    d <= INT_MAX || size <= d % TWO32 <= INT_MAX
  }

  lemma DiffExact(d: int, size: int)
    requires 0 <= d && 0 < size <= INT_MAX
    ensures DiffFits(d, size) <==> (ToInt32(d) >= size <==> d >= size)
    ensures d < size ==> ToInt32(d) == d
  {
  }

  // The number of slots to take is kept in an int as well, and is right exactly when ...
  predicate CountFits(d: int, size: int) {
    d < INT_MAX || size <= (d + 1) % TWO32 <= INT_MAX
  }

  lemma CountExact(d: int, size: int)
    requires 0 <= d && 0 < size <= INT_MAX
    ensures CountFits(d, size) <==> Min(ToInt32(d + 1), size) == Min(d + 1, size)
  {
  }


  class Timeout {
    const store: LinkStore
    const slots: seq<Ptr>
    var start: nat
    var startIdx: nat
    var expire: Times

    ghost predicate Valid()
      reads this, store
    {
      && store.Valid()
      && WheelInv(store.content, slots, start, startIdx, expire)
      && |slots| <= INT_MAX
      && (start == 0 ==> forall l :: l in slots ==> store.content[l] == [])
    }

    // AllocTimeout
    constructor (store: LinkStore, slots: seq<Ptr>, now: nat)
      requires store.Valid() && 0 < |slots| <= INT_MAX && Distinct(slots)
      requires forall l :: l in slots ==> l in store.content && store.content[l] == []
      ensures Valid() && this.store == store && this.slots == slots && expire == map[] && Queue() == []
      ensures start == now && startIdx == 0
    {
      this.store, this.slots, start, startIdx, expire := store, slots, now, 0, map[];
      new;
      CatEmpty(store.content, slots, 0, |slots|);
    }

    // The items of the wheel in the order in which they expire.
    ghost function Queue(): seq<Ptr>
      requires Valid()
      reads this, store
    {
      Cat(store.content, slots, startIdx, |slots|)
    }

    // setting ullExpireTime of an item that is not on the wheel
    method SetExpire(p: Ptr, t: int)
      requires Valid() && (p in store.items ==> store.items[p].link !in slots)
      modifies this`expire
      ensures Valid() && expire == old(expire)[p := t] && Queue() == old(Queue())
    {
      NotOnWheel(store.items, store.heads, store.content, slots, p);
      ExpireInv(store.content, slots, start, startIdx, expire, p, t);
      expire := expire[p := t];
    }

    // The start of the wheel, once it has one.
    function StartAt(now: int): int
      reads this
    {
      if start == 0 then now else start
    }

    // AddTimeout
    method AddTimeout(p: Ptr, now: nat) returns (r: AddResult)
      requires Valid() && p in store.items && p != NULL && p in expire && now > 0
      requires DiffFits(expire[p] - StartAt(now), |slots|)
      modifies this, store
      ensures Valid() && expire == old(expire)
      ensures store.heads.Keys == old(store.heads.Keys) && store.content.Keys == old(store.content.Keys)
      ensures start == if old(start) == 0 then now else old(start)
      ensures r == if now < start then ClockBehind
                   else if expire[p] < now then AlreadyExpired
                   else if expire[p] >= start + |slots| then TooFar else Added
      ensures Queue() == if r == Added && old(store.items)[p].link == NULL then Insert(old(Queue()), expire, p) else old(Queue())
      ensures forall l :: l in store.content && l !in slots ==> store.content[l] == old(store.content)[l]
      ensures store.items.Keys == old(store.items.Keys)
      ensures forall q :: q in store.items && q != p ==> store.items[q].link == old(store.items)[q].link
      ensures store.items[p].link in (if r == Added && old(store.items)[p].link == NULL then slots else [old(store.items)[p].link])
    {
      hide LinkStore.Valid, Insert, Cat, WheelInv;
      WheelFacts(store.content, slots, start, startIdx, expire);
      if start == 0 {
        WheelRestart(store.content, slots, start, startIdx, expire, now);
        start := now;
        startIdx := 0;
      }
      if now < start {
        return ClockBehind;
      }
      if expire[p] < now {
        return AlreadyExpired;
      }
      DiffExact(expire[p] - start, |slots|);
      var diff := ToInt32(expire[p] - start);
      if diff >= |slots| {
        return TooFar;
      }
      AddToSlot(p, diff);
      return Added;
    }

    // RemoveFromLink, seen from the wheel: the item leaves the queue if it was on the wheel
    method Unlink(p: Ptr)
      requires Valid() && p in store.items
      modifies store
      ensures Valid() && store.heads.Keys == old(store.heads.Keys) && store.content.Keys == old(store.content.Keys)
      ensures Moved(old(store.items), store.items, p, NULL)
      ensures Queue() == Without(old(Queue()), p)
      ensures forall l :: l in store.content && l !in slots ==> store.content[l] == Without(old(store.content)[l], p)
    {
      hide Inv, WheelInv, Cat, Without;
      ghost var items0, content0 := store.items, store.content;
      WheelFacts(store.content, slots, start, startIdx, expire);
      UnlinkQueue(store.items, store.heads, store.content, slots, start, startIdx, expire, p);
      store.RemoveFromLink(p);
      WithoutNone([], p);
    }

    // a step on lists outside the wheel
    ghost method Outside(content0: Content)
      requires store.Valid() && WheelInv(content0, slots, start, startIdx, expire) && |slots| <= INT_MAX
      requires start == 0 ==> forall l :: l in slots ==> content0[l] == []
      requires store.content.Keys == content0.Keys && forall l :: l in slots ==> store.content[l] == content0[l]
      ensures Valid() && Queue() == Cat(content0, slots, startIdx, |slots|)
    {
      WheelFrame(content0, store.content, slots, start, startIdx, expire);
    }

    // TakeAllTimeout
    method TakeAllTimeout(now: nat, result: Ptr)
      requires Valid() && result in store.heads && result !in slots && now > 0 && CountFits(now - StartAt(now), |slots|)
      modifies this, store
      ensures Valid() && expire == old(expire)
      ensures store.heads.Keys == old(store.heads.Keys) && store.content.Keys == old(store.content.Keys)
      ensures store.items.Keys == old(store.items.Keys) && result in old(store.content)
      ensures Queue() == Rest(old(Queue()), expire, now)
      ensures store.content[result] == old(store.content)[result] + Due(old(Queue()), expire, now)
      ensures forall l :: l in store.content && l !in slots && l != result ==> store.content[l] == old(store.content)[l]
      ensures start == if old(start) == 0 || now >= old(start) then now else old(start)
      ensures forall q :: q in store.items ==> LinkKept(old(store.items)[q].link, store.items[q].link, slots, result)
    {
      hide Inv, Cat, WheelInv, Due, Rest;
      KeysSame(store.items, store.heads, store.content);
      WheelFacts(store.content, slots, start, startIdx, expire);
      if start == 0 {
        WheelRestart(store.content, slots, start, startIdx, expire, now);
        start := now;
        startIdx := 0;
      }
      if now < start {
        NothingDue(store.content, slots, start, startIdx, expire, now);
        return;
      }
      CountExact(now - start, |slots|);
      var cnt := ToInt32(now - start + 1);
      if cnt > |slots| {
        cnt := |slots|;
      }
      if cnt < 0 {
        return;
      }
      ghost var content0 := store.content;
      TakeSlots(cnt, result);
      TakenInv(content0, store.content, slots, start, startIdx, expire, result, cnt, now);
      TakenRest(content0, store.content, slots, startIdx, result, cnt);
      TakenDue(content0, slots, start, startIdx, expire, cnt, now);
      start := now;
      startIdx := startIdx + (cnt - 1);
    }

    // the loop of TakeAllTimeout
    method TakeSlots(cnt: nat, result: Ptr)
      requires Valid() && result in store.heads && result !in slots && cnt <= |slots|
      modifies store
      ensures store.Valid() && store.heads.Keys == old(store.heads.Keys) && store.items.Keys == old(store.items.Keys)
      ensures Taking(old(store.content), store.content, slots, startIdx, result, cnt)
      ensures forall q :: q in store.items ==> LinkKept(old(store.items)[q].link, store.items[q].link, slots, result)
    {
      hide Inv, Cat, WheelInv, Taking;
      ghost var content0 := store.content;
      KeysSame(store.items, store.heads, store.content);
      WheelFacts(store.content, slots, start, startIdx, expire);
      TakeNone(content0, slots, startIdx, result);
      var i := 0;
      while i < cnt
        invariant i <= cnt && store.Valid() && store.heads.Keys == old(store.heads.Keys) && store.items.Keys == old(store.items.Keys)
        invariant Taking(content0, store.content, slots, startIdx, result, i)
        invariant forall q :: q in store.items ==> LinkKept(old(store.items)[q].link, store.items[q].link, slots, result)
      {
        TakeNext(content0, store.content, slots, startIdx, result, i);
        KeysSame(store.items, store.heads, store.content);
        store.Join(result, slots[(startIdx + i) % |slots|]);
        i := i + 1;
      }
    }

    // a new item p expiring at time t, freed again if AddTimeout refuses it
    method AddNew(p: Ptr, t: int, now: nat) returns (r: AddResult)
      requires Valid() && p !in store.items && p != NULL && now > 0 && DiffFits(t - StartAt(now), |slots|)
      modifies this, store
      ensures Valid() && expire == old(expire)[p := t] && p in expire
      ensures store.heads.Keys == old(store.heads.Keys) && store.content.Keys == old(store.content.Keys)
      ensures start == if old(start) == 0 then now else old(start)
      ensures r == Added <==> start <= now <= t < start + |slots|
      ensures r == Added ==> Queue() == Insert(old(Queue()), expire, p)
      ensures r == Added ==> store.items.Keys == old(store.items.Keys) + {p} && store.items[p].link in slots && store.items[p].link != NULL
      ensures r != Added ==> Queue() == old(Queue()) && store.items.Keys == old(store.items.Keys)
      ensures forall q :: q in old(store.items) ==> store.items[q].link == old(store.items)[q].link
      ensures forall l :: l in store.content && l !in slots ==> store.content[l] == old(store.content)[l]
    {
      hide Inv, WheelInv, Cat, Insert;
      WheelFacts(store.content, slots, start, startIdx, expire);
      KeysSame(store.items, store.heads, store.content);
      store.Alloc(p);
      SetExpire(p, t);
      r := AddTimeout(p, now);
      if r != Added {
        store.Free(p);
      }
    }

    method AddToSlot(p: Ptr, diff: nat)
      requires Valid() && p in store.items && p != NULL && p in expire && expire[p] == start + diff && diff < |slots| && start > 0
      modifies store
      ensures Valid() && store.heads.Keys == old(store.heads.Keys) && store.content.Keys == old(store.content.Keys)
      ensures Queue() == if old(store.items)[p].link == NULL then Insert(old(Queue()), expire, p) else old(Queue())
      ensures forall l :: l in store.content && l !in slots ==> store.content[l] == old(store.content)[l]
      ensures store.items.Keys == old(store.items.Keys)
      ensures forall q :: q in store.items && q != p ==> store.items[q].link == old(store.items)[q].link
      ensures store.items[p].link in (if old(store.items)[p].link == NULL then slots else [old(store.items)[p].link])
    {
      hide Insert, Cat, WheelInv, IsList;
      ghost var content0 := store.content;
      WheelFacts(store.content, slots, start, startIdx, expire);
      assert SlotAt(slots, startIdx, diff) in slots;
      CatInsert(content0, slots, start, startIdx, expire, diff, p, |slots|);
      AddInv(content0, slots, start, startIdx, expire, diff, p);
      store.AddTail(slots[(startIdx + diff) % |slots|], p);
    }
  }

  // Lists outside the wheel do not matter to it.
  lemma WheelFrame(content: Content, content': Content, slots: seq<Ptr>, start: int, idx: nat, expire: Times)
    requires WheelInv(content, slots, start, idx, expire) && content'.Keys == content.Keys
    requires forall l :: l in slots ==> content'[l] == content[l]
    ensures WheelInv(content', slots, start, idx, expire)
    ensures Cat(content', slots, idx, |slots|) == Cat(content, slots, idx, |slots|)
  {
    forall i: nat | i < |slots| ensures content'[SlotAt(slots, idx, i)] == content[SlotAt(slots, idx, i)] {
      assert SlotAt(slots, idx, i) in slots;
    }
    CatSame(content, content', slots, idx, idx, |slots|);
  }

  lemma RemoveInvW(content: Content, slots: seq<Ptr>, start: int, idx: nat, expire: Times, l: Ptr, p: Ptr)
    requires WheelInv(content, slots, start, idx, expire) && l in content
    ensures WheelInv(content[l := Without(content[l], p)], slots, start, idx, expire)
  {
    WithoutElems(content[l], p);
    forall i: nat | i < |slots| ensures AllAt(content[l := Without(content[l], p)][SlotAt(slots, idx, i)], expire, start + i) {
      assert AllAt(content[SlotAt(slots, idx, i)], expire, start + i);
    }
  }

  lemma WheelFacts(content: Content, slots: seq<Ptr>, start: int, idx: nat, expire: Times)
    requires WheelInv(content, slots, start, idx, expire)
    ensures slots != [] && Distinct(slots) && (forall l :: l in slots ==> l in content)
  {
  }

  lemma NotOnWheel(items: Items, heads: Heads, content: Content, slots: seq<Ptr>, p: Ptr)
    requires Inv(items, heads, content) && (forall l :: l in slots ==> l in content)
    requires p in items ==> items[p].link !in slots
    ensures forall l :: l in slots ==> p !in content[l]
  {
    forall l | l in slots && p in content[l] ensures false {
      Names(items, heads, content, l, p);
    }
  }

  lemma ExpireInv(content: Content, slots: seq<Ptr>, start: int, idx: nat, expire: Times, p: Ptr, t: int)
    requires WheelInv(content, slots, start, idx, expire) && forall l :: l in slots ==> p !in content[l]
    ensures WheelInv(content, slots, start, idx, expire[p := t])
  {
    forall i: nat | i < |slots| ensures AllAt(content[SlotAt(slots, idx, i)], expire[p := t], start + i) {
      assert SlotAt(slots, idx, i) in slots;
      assert AllAt(content[SlotAt(slots, idx, i)], expire, start + i);
    }
  }

  lemma UnlinkQueue(items: Items, heads: Heads, content: Content, slots: seq<Ptr>, start: int, idx: nat, expire: Times, p: Ptr)
    requires Inv(items, heads, content) && WheelInv(content, slots, start, idx, expire) && p in items
    ensures var l := items[p].link;
            if l == NULL then Without(Cat(content, slots, idx, |slots|), p) == Cat(content, slots, idx, |slots|)
            else l in content && WheelInv(content[l := Without(content[l], p)], slots, start, idx, expire)
                 && Cat(content[l := Without(content[l], p)], slots, idx, |slots|) == Without(Cat(content, slots, idx, |slots|), p)
    ensures NULL !in content && forall k :: k in content && k != items[p].link ==> Without(content[k], p) == content[k]
  {
    hide WheelInv, Cat, Without;
    WheelFacts(content, slots, start, idx, expire);
    forall k | k in content && k != items[p].link ensures p !in content[k] && Without(content[k], p) == content[k] {
      if p in content[k] { Names(items, heads, content, k, p); }
      WithoutNone(content[k], p);
    }
    var l := items[p].link;
    if l == NULL {
      CatWithout(content, slots, idx, slots[0], p, |slots|);
      assert content[slots[0] := content[slots[0]]] == content;
    } else {
      CatWithout(content, slots, idx, l, p, |slots|);
      RemoveInvW(content, slots, start, idx, expire, l, p);
    }
  }

  lemma KeysSame(items: Items, heads: Heads, content: Content)
    requires Inv(items, heads, content)
    ensures heads.Keys == content.Keys && NULL !in heads
  {
  }

  // The clock stepped back: no item has expired.
  lemma NothingDue(content: Content, slots: seq<Ptr>, start: int, idx: nat, expire: Times, now: int)
    requires WheelInv(content, slots, start, idx, expire) && now < start
    ensures Due(Cat(content, slots, idx, |slots|), expire, now) == []
    ensures Rest(Cat(content, slots, idx, |slots|), expire, now) == Cat(content, slots, idx, |slots|)
  {
    CatTimes(content, slots, start, idx, expire, 0, |slots|);
    assert idx + 0 == idx;
    DueNone(Cat(content, slots, idx, |slots|), expire, now);
  }

  // An empty wheel can start anywhere.
  lemma WheelRestart(content: Content, slots: seq<Ptr>, start: int, idx: nat, expire: Times, now: int)
    requires WheelInv(content, slots, start, idx, expire) && forall l :: l in slots ==> content[l] == []
    ensures WheelInv(content, slots, now, 0, expire)
    ensures Cat(content, slots, 0, |slots|) == Cat(content, slots, idx, |slots|)
  {
    CatEmpty(content, slots, idx, |slots|);
    CatEmpty(content, slots, 0, |slots|);
  }

  lemma AddInv(content: Content, slots: seq<Ptr>, start: int, idx: nat, expire: Times, d: nat, p: Ptr)
    requires WheelInv(content, slots, start, idx, expire) && d < |slots| && p in expire && expire[p] == start + d
    ensures var l := SlotAt(slots, idx, d);
            WheelInv(content[l := content[l] + [p]], slots, start, idx, expire)
  {
    hide Distinct;
    var l := SlotAt(slots, idx, d);
    forall i: nat | i < |slots| ensures AllAt(content[l := content[l] + [p]][SlotAt(slots, idx, i)], expire, start + i) {
      if i < d { SlotsApart(slots, idx, i, d); }
      if d < i { SlotsApart(slots, idx, d, i); }
      assert AllAt(content[SlotAt(slots, idx, i)], expire, start + i);
    }
  }

  // ----- distances that an int cannot hold -----

  // AllocTimeout, with a store of its own
  method NewWheel(size: nat, now: nat) returns (t: Timeout)
    requires 0 < size <= INT_MAX
    ensures fresh(t) && fresh(t.store) && t.Valid() && |t.slots| == size && t.start == now && t.startIdx == 0
    ensures t.store.items == map[] && t.Queue() == []
  {
    hide Inv, WheelInv, Cat;
    var store := new LinkStore();
    var slots, i := [], 0;
    while i < size
      invariant fresh(store) && store.Valid() && store.items == map[] && 0 <= i <= size && |slots| == i
      invariant forall k :: 0 <= k < i ==> slots[k] == k + 1 && slots[k] in store.content && store.content[slots[k]] == []
      invariant forall l :: l in store.heads ==> 1 <= l <= i
    {
      KeysSame(store.items, store.heads, store.content);
      store.AllocList(i + 1);
      slots := slots + [i + 1];
      i := i + 1;
    }
    t := new Timeout(store, slots, now);
  }

  const SLOTS := 60 * 1000

  // A wait of INT_MAX milliseconds that begins one millisecond after the start of the wheel: every
  // check of AddTimeout lets it pass, and the slot it computes is in front of the first.
  method DiffFails() returns (t: Timeout, p: Ptr, now: nat)
    ensures t.Valid() && p in t.expire && t.StartAt(now) <= now <= t.expire[p] == now + INT_MAX
    ensures !DiffFits(t.expire[p] - t.StartAt(now), |t.slots|)
    ensures ToInt32(t.expire[p] - t.StartAt(now)) < |t.slots| && t.startIdx + ToInt32(t.expire[p] - t.StartAt(now)) < 0
  {
    hide Inv, WheelInv, Cat;
    t := NewWheel(SLOTS, 1000);
    p, now := 1, 1001;
    t.SetExpire(p, now + INT_MAX);
  }

  // A loop that did not run for 2^31 milliseconds: the count of slots is negative, so that an item
  // whose time is long up is not taken.
  method CountFails() returns (t: Timeout, p: Ptr, now: nat)
    ensures t.Valid() && p in t.Queue() && p in t.expire && t.expire[p] <= now
    ensures !CountFits(now - t.StartAt(now), |t.slots|) && ToInt32(now - t.StartAt(now) + 1) < 0
  {
    hide Inv, WheelInv, Cat, Insert;
    t := NewWheel(SLOTS, 1000);
    p, now := 1, 1000 + INT_MAX;
    var r := t.AddNew(p, 1500, 1000);
    InsertNone(t.expire, p);
  }

  lemma InsertNone(expire: Times, p: Ptr)
    ensures Insert([], expire, p) == [p]
  {
  }
}
