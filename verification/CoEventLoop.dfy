/** The event loop and the condition variables of libco/co_routine.cpp: co_poll_inner,
    OnPollPreparePfn, co_cond_timedwait, co_cond_signal, co_cond_broadcast and the body of
    co_eventloop.  A wait is one stPoll_t or stCoCondItem_t; the coroutine that waits is resumed
    exactly once, by the pass over the active list that pops its timeout item. */
module CoEventLoop {
  import opened Pointers
  import opened CoLinks
  import opened CoTimeout

  const MAX_TIMEOUT := 40 * 1000

  function Capped(timeout: int): int {
    if timeout > MAX_TIMEOUT then MAX_TIMEOUT else timeout
  }

  // A wait is lost when neither its timeout item nor its condition item is on a list.
  ghost predicate Lost(litems: Items, citems: Items, p: Ptr) {
    && p in litems && litems[p].link == NULL
    && (p in citems ==> citems[p].link == NULL)
  }

  // Every wait has its items, none is lost but those of the set but, and none has been resumed twice.
  ghost predicate Books(litems: Items, citems: Items, active: Ptr, expire: Times, waiting: set<Ptr>, polls: set<Ptr>,
                        detached: set<Ptr>, resumed: seq<Ptr>, but: set<Ptr>) {
    && NULL !in waiting && waiting <= expire.Keys
    && litems.Keys == waiting && polls <= waiting && citems.Keys == waiting - polls
    && (forall p :: p in waiting && p !in but ==> !Lost(litems, citems, p))
    && detached <= polls && (forall p :: p in detached ==> litems[p].link == active)
    && Distinct(resumed) && (forall p :: p in resumed ==> p !in waiting)
  }

  // What epoll will report is a poll that waits, or was refused.
  ghost predicate Registry(registered: set<Ptr>, refused: set<Ptr>, polls: set<Ptr>, waiting: set<Ptr>) {
    registered - polls == refused && refused !! waiting && polls <= waiting
  }

  class Epoll {
    const links: LinkStore       // the timeout items, of polls and of condition waits
    const conds: LinkStore       // the condition items; its lists are the condition variables
    const wheel: Timeout
    const active: Ptr
    const timeoutList: Ptr
    var detached: set<Ptr>       // the polls with iAllEventDetach set
    var raised: map<Ptr, nat>    // iRaiseCnt of each poll
    var timedOut: set<Ptr>       // the items with bTimeout set
    ghost var waiting: set<Ptr>  // the waits whose coroutine is suspended
    var polls: set<Ptr>          // the waits that are polls
    var registered: set<Ptr>     // the polls with a descriptor that epoll will report
    ghost var refused: set<Ptr>  // those of them that were freed because AddTimeout refused them
    var resumed: seq<Ptr>        // the waits that have ended, in order

    ghost predicate Shape()
      reads links, conds, wheel
    {
      && links != conds && wheel.store == links && wheel.Valid() && conds.Valid()
      && active in links.heads && timeoutList in links.heads && active != timeoutList
      && active !in wheel.slots && timeoutList !in wheel.slots
      && timeoutList in links.content && links.content[timeoutList] == []
    }

    // Every poll counts its events.
    ghost predicate Polled()
      reads this
    {
      raised.Keys == polls && Registry(registered, refused, polls, waiting)
    }

    ghost predicate Valid()
      reads this, links, conds, wheel
    {
      && Shape() && Polled()
      && Books(links.items, conds.items, active, wheel.expire, waiting, polls, detached, resumed, {})
    }

    // AllocEpoll
    constructor (links: LinkStore, conds: LinkStore, wheel: Timeout, active: Ptr, timeoutList: Ptr)
      requires links != conds && wheel.store == links && wheel.Valid() && conds.Valid()
      requires active in links.heads && timeoutList in links.heads && active != timeoutList
      requires active !in wheel.slots && timeoutList !in wheel.slots
      requires links.items == map[] && conds.items == map[]
      ensures Valid() && this.links == links && this.conds == conds && this.wheel == wheel
      ensures this.active == active && this.timeoutList == timeoutList && waiting == {} && registered == refused == {} && resumed == []
    {
      this.links, this.conds, this.wheel, this.active, this.timeoutList := links, conds, wheel, active, timeoutList;
      detached, raised, timedOut, waiting, polls, resumed := {}, map[], {}, {}, {}, [];
      registered, refused := {}, {};
      new;
      assert IsList(links.items, timeoutList, links.content[timeoutList]);
    }

    // RemoveFromLink and AddTail: p moves to the end of the active list
    method Activate(p: Ptr)
      requires Shape() && Polled() && p in waiting && p !in detached
      requires Books(links.items, conds.items, active, wheel.expire, waiting, polls, detached, resumed, {p})
      modifies links
      ensures Valid()
      ensures active in old(links.content) && active in links.content
      ensures wheel.Queue() == Without(old(wheel.Queue()), p)
      ensures links.content[active] == Without(old(links.content)[active], p) + [p]
      ensures links.items[p].link == active
    {
      hide Inv, WheelInv, Cat, Without, Distinct, Books;
      KeysSame(links.items, links.heads, links.content);
      BooksFacts(links.items, conds.items, active, wheel.expire, waiting, polls, detached, resumed, {p});
      ghost var litems := links.items;
      wheel.Unlink(p);
      WithoutNone([], p);
      ghost var content1 := links.content;
      links.AddTail(active, p);
      wheel.Outside(content1);
      KeysSame(links.items, links.heads, links.content);
      BooksActive(litems, conds.items, active, wheel.expire, waiting, polls, detached, resumed, p, links.items);
    }

    // co_cond_signal: wakes the coroutine that has waited longest
    method Signal(c: Ptr) returns (p: Ptr)
      requires Valid() && c in conds.heads
      modifies links, conds
      ensures Valid() && conds.heads.Keys == old(conds.heads.Keys)
      ensures c in old(conds.content) && active in old(links.content) && active in links.content
      ensures p == NULL <==> old(conds.content)[c] == []
      ensures p == NULL ==> conds.content == old(conds.content) && links.content == old(links.content)
      ensures p == NULL ==> wheel.Queue() == old(wheel.Queue())
      ensures p != NULL ==> p == old(conds.content)[c][0]
                            && conds.content == old(conds.content)[c := old(conds.content)[c][1..]]
                            && wheel.Queue() == Without(old(wheel.Queue()), p)
                            && links.content[active] == Without(old(links.content)[active], p) + [p]
    {
      hide Inv, WheelInv, Cat, Without, Distinct;
      KeysSame(links.items, links.heads, links.content);
      p := conds.heads[c].head;
      ListFacts(conds.items, conds.heads, conds.content, c);
      if p == NULL {
        return;
      }
      conds.PopHead(c);
      Activate(p);
    }

    // co_cond_broadcast: wakes all of them, in the order in which they have waited
    method Broadcast(c: Ptr)
      requires Valid() && c in conds.heads
      modifies links, conds
      ensures Valid()
      ensures c in old(conds.content) && active in old(links.content) && active in links.content
      ensures conds.content == old(conds.content)[c := []]
      ensures wheel.Queue() == Minus(old(wheel.Queue()), old(conds.content)[c])
      ensures links.content[active] == Minus(old(links.content)[active], old(conds.content)[c]) + old(conds.content)[c]
    {
      hide Inv, WheelInv, Cat, Without, Minus, Distinct, Books;
      KeysSame(links.items, links.heads, links.content);
      KeysSame(conds.items, conds.heads, conds.content);
      ghost var ws, k: nat := conds.content[c], 0;
      WaitersApart(conds.items, conds.heads, conds.content, c);
      ghost var queue0, active0, conds0 := wheel.Queue(), links.content[active], conds.content;
      MinusNone(queue0, ws);
      MinusNone(active0, ws);
      assert conds0 == conds0[c := ws[0..]];
      hide Epoll.Shape, Timeout.Valid, LinkStore.Valid;
      while true
        invariant Valid() && k <= |ws| && active in links.content && c in conds.heads && wheel.Valid()
        invariant conds.content == conds0[c := ws[k..]]
        invariant wheel.Queue() == Minus(queue0, ws[..k])
        invariant links.content[active] == Minus(active0, ws[..k]) + ws[..k]
        decreases |ws| - k
      {
        var p := Signal(c);
        if p == NULL {
          assert ws[..k] == ws;
          return;
        }
        MinusNext(queue0, ws, k);
        MinusNext(active0, ws, k);
        k := k + 1;
      }
    }

    // OnPollPreparePfn: the first event of a poll moves it to the active list
    method Prepare(p: Ptr)
      requires Valid() && p in polls
      modifies this`detached, this`raised, links
      ensures Valid() && detached == old(detached) + {p} && p in old(raised) && raised == old(raised)[p := old(raised)[p] + 1]
      ensures active in old(links.content) && active in links.content
      ensures p in old(detached) ==> links.content == old(links.content) && wheel.Queue() == old(wheel.Queue())
      ensures p !in old(detached) ==> wheel.Queue() == Without(old(wheel.Queue()), p)
                                      && links.content[active] == Without(old(links.content)[active], p) + [p]
    {
      hide Inv, WheelInv, Cat, Without, Distinct;
      KeysSame(links.items, links.heads, links.content);
      raised := raised[p := raised[p] + 1];
      if p !in detached {
        Activate(p);
        detached := detached + {p};
      }
    }

    // AddTimeout will not take an item that expires this long after now.
    predicate TooEarlyOrLate(timeout: int, now: int)
      reads wheel
    {
      var t, start := Capped(timeout), if wheel.start == 0 then now else wheel.start;
      timeout < 0 || now < start || now + t >= start + |wheel.slots|
    }

    // co_poll_inner up to its yield; p is the new stPoll_t, and hasFd says whether epoll has taken a
    // descriptor of it, which a refusal does not take back
    method PollWait(p: Ptr, timeout: int, now: nat, hasFd: bool) returns (r: AddResult)
      requires Valid() && p !in waiting && p !in resumed && p !in registered && p != NULL
      requires now > 0 && DiffFits(now + Capped(timeout) - wheel.StartAt(now), |wheel.slots|)
      modifies this`waiting, this`polls, this`raised, this`registered, this`refused, links, wheel
      ensures Valid()
      ensures registered == old(registered) + if hasFd then {p} else {}
      ensures r == Added <==> !old(TooEarlyOrLate(timeout, now))
      ensures p in wheel.expire && wheel.expire == old(wheel.expire)[p := now + Capped(timeout)] && wheel.start == old(wheel.StartAt(now))
      ensures r == Added ==> waiting == old(waiting) + {p} && polls == old(polls) + {p} && raised == old(raised)[p := 0]
                             && wheel.Queue() == Insert(old(wheel.Queue()), wheel.expire, p) && refused == old(refused)
      ensures r != Added ==> waiting == old(waiting) && polls == old(polls) && raised == old(raised) && wheel.Queue() == old(wheel.Queue())
                             && refused == old(refused) + if hasFd then {p} else {}
      ensures active in old(links.content) && active in links.content && links.content[active] == old(links.content)[active]
    {
      hide Inv, WheelInv, Cat, Insert, Distinct, Books, Registry;
      ghost var registered0 := registered;
      registered := registered + if hasFd then {p} else {};
      RegistryPoll(registered0, refused, polls, waiting, p, hasFd);
      var t := Capped(timeout);
      r := BeginPoll(p, t, now);
      if r != Added {
        refused := refused + if hasFd then {p} else {};
      }
    }

    // the timeout item of a poll
    method BeginPoll(p: Ptr, t: int, now: nat) returns (r: AddResult)
      requires Shape() && raised.Keys == polls && p !in waiting && p !in resumed && p != NULL
      requires Books(links.items, conds.items, active, wheel.expire, waiting, polls, detached, resumed, {})
      requires now > 0 && DiffFits(now + t - wheel.StartAt(now), |wheel.slots|)
      modifies this`waiting, this`polls, this`raised, links, wheel
      ensures Shape() && raised.Keys == polls
      ensures Books(links.items, conds.items, active, wheel.expire, waiting, polls, detached, resumed, {})
      ensures var start := if old(wheel.start) == 0 then now else old(wheel.start);
              r == Added <==> start <= now && t >= 0 && now + t < start + |wheel.slots|
      ensures p in wheel.expire && wheel.expire == old(wheel.expire)[p := now + t] && wheel.start == old(wheel.StartAt(now))
      ensures r == Added ==> waiting == old(waiting) + {p} && polls == old(polls) + {p} && raised == old(raised)[p := 0]
                             && wheel.Queue() == Insert(old(wheel.Queue()), wheel.expire, p)
      ensures r != Added ==> waiting == old(waiting) && polls == old(polls) && raised == old(raised) && wheel.Queue() == old(wheel.Queue())
      ensures active in old(links.content) && active in links.content && links.content[active] == old(links.content)[active]
    {
      hide Inv, WheelInv, Cat, Insert, Distinct, Books;
      KeysSame(links.items, links.heads, links.content);
      BooksFacts(links.items, conds.items, active, wheel.expire, waiting, polls, detached, resumed, {});
      ghost var litems, expire := links.items, wheel.expire;
      r := wheel.AddNew(p, now + t, now);
      hide Timeout.Valid, LinkStore.Valid;
      assert Shape();
      if r == Added {
        RecordPoll(p, litems, expire);
      } else {
        BooksKept(litems, conds.items, active, expire, waiting, polls, detached, resumed, links.items, wheel.expire);
      }
    }

    // the new poll goes into the books
    method RecordPoll(p: Ptr, ghost litems: Items, ghost expire: Times)
      requires Shape() && raised.Keys == polls && p !in waiting && p !in resumed && p != NULL
      requires Books(litems, conds.items, active, expire, waiting, polls, detached, resumed, {})
      requires links.items.Keys == litems.Keys + {p} && links.items[p].link != NULL && wheel.expire.Keys == expire.Keys + {p}
      requires forall q :: q in litems ==> links.items[q].link == litems[q].link
      modifies this`waiting, this`polls, this`raised
      ensures Shape() && raised.Keys == polls
      ensures Books(links.items, conds.items, active, wheel.expire, waiting, polls, detached, resumed, {})
      ensures waiting == old(waiting) + {p} && polls == old(polls) + {p} && raised == old(raised)[p := 0]
    {
      hide Inv, WheelInv, Books, Distinct, Timeout.Valid, LinkStore.Valid;
      BooksAdd(litems, conds.items, active, expire, waiting, polls, detached, resumed, p, links.items, conds.items, wheel.expire, true);
      waiting, polls, raised := waiting + {p}, polls + {p}, raised[p := 0];
    }

    // co_cond_timedwait up to its yield; p is the new stCoCondItem_t, and no time limit is set when ms <= 0
    method CondWait(c: Ptr, p: Ptr, ms: int, now: nat) returns (r: AddResult)
      requires Valid() && c in conds.heads && p !in waiting && p !in resumed && p !in registered && p != NULL
      requires ms > 0 ==> now > 0 && DiffFits(now + ms - wheel.StartAt(now), |wheel.slots|)
      modifies this`waiting, links, wheel, conds
      ensures Valid()
      ensures r == Added <==> (ms > 0 ==> wheel.start <= now && now + ms < wheel.start + |wheel.slots|)
      ensures c in old(conds.content) && active in old(links.content) && active in links.content
      ensures links.content[active] == old(links.content)[active]
      ensures r == Added ==> waiting == old(waiting) + {p} && conds.content == old(conds.content)[c := old(conds.content)[c] + [p]]
      ensures r != Added ==> waiting == old(waiting) && conds.content == old(conds.content)
      ensures wheel.start == (if ms > 0 then old(wheel.StartAt(now)) else old(wheel.start))
      ensures p in wheel.expire && wheel.expire == old(wheel.expire)[p := if ms > 0 then now + ms else 0]
      ensures wheel.Queue() == if r == Added && ms > 0 then Insert(old(wheel.Queue()), wheel.expire, p) else old(wheel.Queue())
    {
      hide Inv, WheelInv, Cat, Insert, Distinct, Books, Registry;
      KeysSame(links.items, links.heads, links.content);
      KeysSame(conds.items, conds.heads, conds.content);
      BooksFacts(links.items, conds.items, active, wheel.expire, waiting, polls, detached, resumed, {});
      ghost var litems, citems, expire := links.items, conds.items, wheel.expire;
      if ms > 0 {
        r := wheel.AddNew(p, now + ms, now);
        if r != Added {
          BooksKept(litems, citems, active, expire, waiting, polls, detached, resumed, links.items, wheel.expire);
          return;
        }
      } else {
        AllocUntimed(p);
        r := Added;
      }
      AddWaiter(c, p);
      BeginWait(p, litems, citems, expire);
    }

    // the new wait goes into the books
    ghost method BeginWait(p: Ptr, litems: Items, citems: Items, expire: Times)
      requires Shape() && Polled() && p !in waiting && p !in resumed && p !in registered && p != NULL
      requires Books(litems, citems, active, expire, waiting, polls, detached, resumed, {})
      requires links.items.Keys == litems.Keys + {p} && wheel.expire.Keys == expire.Keys + {p}
      requires forall q :: q in litems ==> links.items[q].link == litems[q].link
      requires conds.items.Keys == citems.Keys + {p} && conds.items[p].link != NULL
      requires forall q :: q in citems ==> conds.items[q].link == citems[q].link
      modifies this`waiting
      ensures Valid() && waiting == old(waiting) + {p}
    {
      hide Inv, WheelInv, Books, Distinct, Registry, Timeout.Valid, LinkStore.Valid;
      BooksAdd(litems, citems, active, expire, waiting, polls, detached, resumed, p, links.items, conds.items, wheel.expire, false);
      RegistryWait(registered, refused, polls, waiting, p);
      waiting := waiting + {p};
    }

    // the new condition item goes to the end of its queue
    method AddWaiter(c: Ptr, p: Ptr)
      requires conds.Valid() && c in conds.heads && p !in conds.items && p != NULL
      modifies conds
      ensures conds.Valid() && c in old(conds.content) && conds.content == old(conds.content)[c := old(conds.content)[c] + [p]]
      ensures conds.items.Keys == old(conds.items.Keys) + {p} && conds.items[p].link != NULL
      ensures forall q :: q in old(conds.items) ==> conds.items[q].link == old(conds.items)[q].link
    {
      hide Inv;
      KeysSame(conds.items, conds.heads, conds.content);
      conds.Alloc(p);
      conds.AddTail(c, p);
    }

    // an item with no time limit
    method AllocUntimed(p: Ptr)
      requires wheel.store == links && wheel.Valid() && p !in links.items && p != NULL
      modifies links`items, wheel`expire
      ensures wheel.Valid() && wheel.Queue() == old(wheel.Queue())
      ensures links.items == old(links.items)[p := UNLINKED] && wheel.expire == old(wheel.expire)[p := 0]
    {
      hide Inv, WheelInv, Cat;
      KeysSame(links.items, links.heads, links.content);
      WheelFacts(links.content, wheel.slots, wheel.start, wheel.startIdx, wheel.expire);
      links.Alloc(p);
      wheel.SetExpire(p, 0);
    }

    // the part of co_eventloop between the events and the active list
    method TakeTimeouts(now: nat)
      requires Valid() && now > 0 && CountFits(now - wheel.StartAt(now), |wheel.slots|)
      modifies this`timedOut, links, wheel
      ensures Valid()
      ensures active in old(links.content) && active in links.content && wheel.expire == old(wheel.expire)
      ensures wheel.Queue() == Rest(old(wheel.Queue()), wheel.expire, now)
      ensures links.content[active] == old(links.content)[active] + Due(old(wheel.Queue()), wheel.expire, now)
      ensures timedOut == old(timedOut) + Elems(Due(old(wheel.Queue()), wheel.expire, now))
      ensures wheel.start == if now >= old(wheel.StartAt(now)) then now else old(wheel.start)
    {
      hide Inv, WheelInv, Cat, Due, Rest, Distinct, Elems, Books;
      KeysSame(links.items, links.heads, links.content);
      BooksFacts(links.items, conds.items, active, wheel.expire, waiting, polls, detached, resumed, {});
      ghost var litems := links.items;
      ghost var due := Due(wheel.Queue(), wheel.expire, now);
      wheel.TakeAllTimeout(now, timeoutList);
      assert links.content[timeoutList] == due;
      KeysSame(links.items, links.heads, links.content);
      MarkTimeouts();
      ghost var content1 := links.content;
      links.Join(active, timeoutList);
      wheel.Outside(content1);
      BooksTaken(litems, conds.items, active, wheel.expire, waiting, polls, detached, resumed, links.items);
    }

    // the loop that sets bTimeout
    method MarkTimeouts()
      requires links.Valid() && timeoutList in links.heads && timeoutList in links.content
      modifies this`timedOut
      ensures timedOut == old(timedOut) + Elems(links.content[timeoutList])
    {
      hide Inv, IsList;
      ListFacts(links.items, links.heads, links.content, timeoutList);
      ghost var ps, k: nat := links.content[timeoutList], 0;
      ItemsReal(links.items, timeoutList, ps);
      var lp := links.heads[timeoutList].head;
      while lp != NULL
        invariant k <= |ps| && timedOut == old(timedOut) + Elems(ps[..k])
        invariant lp == if k < |ps| then ps[k] else NULL
        decreases |ps| - k
      {
        PlacedFacts(links.items, timeoutList, ps, k);
        assert ps[..k + 1] == ps[..k] + [ps[k]];
        timedOut := timedOut + {lp};
        lp := links.items[lp].next;
        k := k + 1;
      }
      assert ps[..k] == ps;
    }

    // one turn of the loop over the active list: the coroutine of the first item is resumed, and
    // what it does first is to unlink and free its items; a poll returns the number of its events
    method Process() returns (p: Ptr, count: nat)
      requires Valid() && active in links.content && links.content[active] != []
      modifies this, links, conds
      ensures Valid() && active in links.content
      ensures count == (if p in old(raised) then old(raised)[p] else 0) && raised == old(raised) - {p}
      ensures detached == old(detached) - {p} && timedOut == old(timedOut) - {p} && polls == old(polls) - {p}
      ensures registered == old(registered) - {p} && refused == old(refused)
      ensures p == old(links.content)[active][0] && links.content[active] == old(links.content)[active][1..]
      ensures p in old(waiting) && waiting == old(waiting) - {p} && resumed == old(resumed) + [p]
      ensures wheel.Queue() == old(wheel.Queue())
      ensures conds.content.Keys == old(conds.content.Keys)
      ensures forall c :: c in conds.content ==> conds.content[c] == Without(old(conds.content)[c], p)
    {
      hide Inv, WheelInv, Cat, Without, Books, Distinct;
      ListFacts(links.items, links.heads, links.content, active);
      BooksFacts(links.items, conds.items, active, wheel.expire, waiting, polls, detached, resumed, {});
      ghost var litems, citems := links.items, conds.items;
      p := links.heads[active].head;
      PopActive(p);
      FinishWait(p);
      count := Retire(p, litems, citems);
    }

    // the loop over the active list, when the coroutines it resumes add nothing to it
    method Drain()
      requires Valid() && active in links.content
      modifies this, links, conds
      ensures Valid() && active in links.content && links.content[active] == []
      ensures resumed == old(resumed) + old(links.content[active]) && wheel.Queue() == old(wheel.Queue())
    {
      hide *;
      ghost var ps, k: nat := links.content[active], 0;
      assert ps[0..] == ps && ps[..0] == [];
      ReadyAt(this);
      while links.heads[active].head != NULL
        invariant Valid() && wheel.Valid() && active in links.content && k <= |ps| && links.content[active] == ps[k..]
        invariant resumed == old(resumed) + ps[..k] && wheel.Queue() == old(wheel.Queue())
        invariant active in links.heads && (links.heads[active].head != NULL <==> ps[k..] != [])
        decreases |ps| - k
      {
        var p, _ := Process();
        Onward(old(resumed), ps, k);
        k := k + 1;
        ReadyAt(this);
      }
      assert ps[..k] == ps;
    }

    // A wait whose time is up is resumed by the next turn of the loop.
    method Turn(now: nat, ghost p: Ptr)
      requires Valid() && now > 0 && CountFits(now - wheel.StartAt(now), |wheel.slots|)
      requires p in wheel.Queue() && p in wheel.expire && wheel.expire[p] <= now
      modifies this, links, conds, wheel
      ensures Valid() && p in resumed && p !in wheel.Queue()
    {
      hide Inv, WheelInv, Cat, Without, Books, Distinct, Due, Rest, Elems;
      ghost var queue := wheel.Queue();
      QueueSorted(wheel);
      DueExact(queue, wheel.expire, now);
      TakeTimeouts(now);
      Drain();
    }

    // the fields of the items that are freed
    method Retire(p: Ptr, ghost litems: Items, ghost citems: Items) returns (count: nat)
      requires Shape() && Polled() && p in waiting
      requires Books(litems, citems, active, wheel.expire, waiting, polls, detached, resumed, {})
      requires links.items.Keys == litems.Keys - {p} && conds.items.Keys == citems.Keys - {p}
      requires forall q :: q in links.items && q in litems ==> links.items[q].link == litems[q].link
      requires forall q :: q in conds.items && q in citems ==> conds.items[q].link == citems[q].link
      modifies this
      ensures Valid() && waiting == old(waiting) - {p} && resumed == old(resumed) + [p]
      ensures count == (if p in old(raised) then old(raised)[p] else 0) && raised == old(raised) - {p}
      ensures detached == old(detached) - {p} && timedOut == old(timedOut) - {p} && polls == old(polls) - {p}
      ensures registered == old(registered) - {p} && refused == old(refused)
    {
      hide Inv, WheelInv, Books, Distinct, Epoll.Shape, Registry;
      RegistryEnd(registered, refused, polls, waiting, p);
      BooksEnd(litems, citems, active, wheel.expire, waiting, polls, detached, resumed, p, links.items, conds.items);
      count := if p in polls then raised[p] else 0;
      detached, timedOut, raised := detached - {p}, timedOut - {p}, raised - {p};
      waiting, polls, registered, resumed := waiting - {p}, polls - {p}, registered - {p}, resumed + [p];
    }

    method PopActive(p: Ptr)
      requires Shape() && active in links.content && links.content[active] != [] && p == links.heads[active].head && p in links.items
      modifies links
      ensures Shape() && active in links.content && p == old(links.content)[active][0]
      ensures links.content[active] == old(links.content)[active][1..] && wheel.Queue() == old(wheel.Queue())
      ensures links.items.Keys == old(links.items.Keys) - {p}
      ensures forall q :: q in links.items ==> links.items[q].link == old(links.items)[q].link
    {
      hide Inv, WheelInv, Cat;
      ListFacts(links.items, links.heads, links.content, active);
      ghost var content0 := links.content;
      links.PopHead(active);
      wheel.Outside(content0);
      links.Free(p);
    }

    // what a coroutine does when its wait ends
    method FinishWait(p: Ptr)
      requires conds.Valid() && (p in conds.items <==> p !in polls)
      modifies conds
      ensures conds.Valid() && conds.items.Keys == old(conds.items.Keys) - {p} && conds.content.Keys == old(conds.content.Keys)
      ensures forall c :: c in conds.content ==> conds.content[c] == Without(old(conds.content)[c], p)
      ensures forall q :: q in conds.items ==> conds.items[q].link == old(conds.items)[q].link
    {
      hide Inv, Without;
      if p !in polls {
        UnlinkOthers(conds.items, conds.heads, conds.content, p);
        conds.RemoveFromLink(p);
        conds.Free(p);
      } else {
        UnknownTo(conds.items, conds.heads, conds.content, p);
      }
    }
  }

  // Every wait that has begun either has been resumed exactly once, or is still waiting on a list,
  // its timeout item being on one list at most.
  lemma ExactlyOnce(ep: Epoll, p: Ptr)
    requires ep.Valid() && p in Started(ep)
    ensures p in ep.resumed ==> p !in ep.waiting && multiset(ep.resumed)[p] == 1
    ensures p !in ep.resumed ==>
              (exists l :: l in ep.links.content && p in ep.links.content[l])
              || (p !in ep.polls && exists c :: c in ep.conds.content && p in ep.conds.content[c])
    ensures p in ep.polls ==> exists l :: l in ep.links.content && p in ep.links.content[l]
    ensures forall l, k :: l in ep.links.content && k in ep.links.content && p in ep.links.content[l] && p in ep.links.content[k] ==> l == k
  {
    if p in ep.resumed {
      CountOne(ep.resumed, p);
    } else {
      assert p in ep.waiting && !Lost(ep.links.items, ep.conds.items, p);
      if ep.links.items[p].link != NULL {
        OnList(ep.links.items, ep.links.heads, ep.links.content, p);
      } else {
        OnList(ep.conds.items, ep.conds.heads, ep.conds.content, p);
      }
    }
    if p in ep.polls {
      assert !Lost(ep.links.items, ep.conds.items, p);
      OnList(ep.links.items, ep.links.heads, ep.links.content, p);
    }
    forall l, k | l in ep.links.content && k in ep.links.content && p in ep.links.content[l] && p in ep.links.content[k] ensures l == k {
      OnOneList(ep.links.items, ep.links.heads, ep.links.content, l, k, p);
    }
  }

  lemma ReadyAt(ep: Epoll)
    requires ep.Valid() && ep.active in ep.links.content
    ensures ep.wheel.Valid() && ep.active in ep.links.heads
    ensures ep.links.heads[ep.active].head != NULL <==> ep.links.content[ep.active] != []
  {
    hide Inv, WheelInv, Books;
    ListFacts(ep.links.items, ep.links.heads, ep.links.content, ep.active);
  }

  lemma Onward(resumed: seq<Ptr>, ps: seq<Ptr>, k: nat)
    requires k < |ps|
    ensures resumed + ps[..k] + [ps[k..][0]] == resumed + ps[..k + 1] && ps[k..][1..] == ps[k + 1..]
  {
  }

  lemma OnList(items: Items, heads: Heads, content: Content, p: Ptr)
    requires Inv(items, heads, content) && p in items && items[p].link != NULL
    ensures items[p].link in content && p in content[items[p].link]
  {
    assert IsList(items, items[p].link, content[items[p].link]);
  }

  lemma {:induction false} CountOne(ps: seq<Ptr>, p: Ptr)
    requires Distinct(ps)
    ensures multiset(ps)[p] == if p in ps then 1 else 0
  {
    if ps != [] {
      var m, x := ps[..|ps| - 1], ps[|ps| - 1];
      assert ps == m + [x];
      CountOne(m, p);
    }
  }

  // The waits that have begun.
  ghost function Started(ep: Epoll): set<Ptr>
    reads ep
  {
    ep.waiting + Elems(ep.resumed)
  }

  // q without the items of ws
  ghost function Minus(q: seq<Ptr>, ws: seq<Ptr>): seq<Ptr> {
    if ws == [] then q else Without(Minus(q, ws[..|ws| - 1]), ws[|ws| - 1])
  }

  lemma WaitersApart(items: Items, heads: Heads, content: Content, c: Ptr)
    requires Inv(items, heads, content) && c in content
    ensures Distinct(content[c])
  {
    assert IsList(items, c, content[c]);
  }

  lemma MinusNone(q: seq<Ptr>, ws: seq<Ptr>)
    ensures Minus(q, ws[..0]) == q && Minus(q, ws[..0]) + ws[..0] == q && ws[0..] == ws
  {
  }

  lemma MinusNext(q: seq<Ptr>, ws: seq<Ptr>, k: nat)
    requires k < |ws| && Distinct(ws)
    ensures Without(Minus(q, ws[..k]), ws[k]) == Minus(q, ws[..k + 1])
    ensures Without(Minus(q, ws[..k]) + ws[..k], ws[k]) + [ws[k]] == Minus(q, ws[..k + 1]) + ws[..k + 1]
  {
    assert ws[..k + 1][..k] == ws[..k] && ws[..k + 1] == ws[..k] + [ws[k]];
    WithoutSplit(Minus(q, ws[..k]), ws[..k], ws[k]);
    WithoutNone(ws[..k], ws[k]);
  }

  lemma UnlinkOthers(items: Items, heads: Heads, content: Content, p: Ptr)
    requires Inv(items, heads, content) && p in items
    ensures forall k :: k in content && k != items[p].link ==> Without(content[k], p) == content[k]
    ensures NULL !in content
  {
    hide Without;
    forall k | k in content && k != items[p].link ensures Without(content[k], p) == content[k] {
      if p in content[k] { Names(items, heads, content, k, p); }
      WithoutNone(content[k], p);
    }
  }

  lemma UnknownTo(items: Items, heads: Heads, content: Content, p: Ptr)
    requires Inv(items, heads, content) && p !in items
    ensures forall k :: k in content ==> Without(content[k], p) == content[k]
  {
    hide Without;
    forall k | k in content ensures Without(content[k], p) == content[k] {
      if p in content[k] { Names(items, heads, content, k, p); }
      WithoutNone(content[k], p);
    }
  }

  lemma BooksFacts(litems: Items, citems: Items, active: Ptr, expire: Times, waiting: set<Ptr>, polls: set<Ptr>,
                   detached: set<Ptr>, resumed: seq<Ptr>, but: set<Ptr>)
    requires Books(litems, citems, active, expire, waiting, polls, detached, resumed, but)
    ensures litems.Keys == waiting && citems.Keys == waiting - polls && NULL !in waiting && polls <= waiting && detached <= polls
  {
  }

  // A new wait p, a poll or a condition wait.
  lemma BooksAdd(litems: Items, citems: Items, active: Ptr, expire: Times, waiting: set<Ptr>, polls: set<Ptr>,
                 detached: set<Ptr>, resumed: seq<Ptr>, p: Ptr, litems': Items, citems': Items, expire': Times, poll: bool)
    requires Books(litems, citems, active, expire, waiting, polls, detached, resumed, {})
    requires p !in waiting && p !in resumed && p != NULL && litems'.Keys == litems.Keys + {p}
    requires expire'.Keys == expire.Keys + {p}
    requires forall q :: q in litems ==> litems'[q].link == litems[q].link
    requires if poll then citems' == citems && litems'[p].link != NULL
             else citems'.Keys == citems.Keys + {p} && citems'[p].link != NULL && forall q :: q in citems ==> citems'[q].link == citems[q].link
    ensures Books(litems', citems', active, expire', waiting + {p}, if poll then polls + {p} else polls, detached, resumed, {})
  {
  }

  // A new poll, waiting or refused.
  lemma RegistryPoll(registered: set<Ptr>, refused: set<Ptr>, polls: set<Ptr>, waiting: set<Ptr>, p: Ptr, hasFd: bool)
    requires Registry(registered, refused, polls, waiting) && p !in registered && p !in waiting
    ensures var fds := if hasFd then {p} else {};
            && Registry(registered + fds, refused, polls + {p}, waiting + {p})
            && Registry(registered + fds, refused + fds, polls, waiting)
  {
  }

  lemma RegistryWait(registered: set<Ptr>, refused: set<Ptr>, polls: set<Ptr>, waiting: set<Ptr>, p: Ptr)
    requires Registry(registered, refused, polls, waiting) && p !in registered
    ensures Registry(registered, refused, polls, waiting + {p})
  {
  }

  lemma RegistryEnd(registered: set<Ptr>, refused: set<Ptr>, polls: set<Ptr>, waiting: set<Ptr>, p: Ptr)
    requires Registry(registered, refused, polls, waiting) && p in waiting
    ensures Registry(registered - {p}, refused, polls - {p}, waiting - {p})
  {
  }

  // A wait that was refused.
  lemma BooksKept(litems: Items, citems: Items, active: Ptr, expire: Times, waiting: set<Ptr>, polls: set<Ptr>,
                  detached: set<Ptr>, resumed: seq<Ptr>, litems': Items, expire': Times)
    requires Books(litems, citems, active, expire, waiting, polls, detached, resumed, {})
    requires litems'.Keys == litems.Keys && expire.Keys <= expire'.Keys
    requires forall q :: q in litems ==> litems'[q].link == litems[q].link
    ensures Books(litems', citems, active, expire', waiting, polls, detached, resumed, {})
  {
  }

  lemma BooksActive(litems: Items, citems: Items, active: Ptr, expire: Times, waiting: set<Ptr>, polls: set<Ptr>,
                    detached: set<Ptr>, resumed: seq<Ptr>, p: Ptr, litems': Items)
    requires Books(litems, citems, active, expire, waiting, polls, detached, resumed, {p}) && active != NULL
    requires p !in detached && Moved(litems, litems', p, active)
    ensures Books(litems', citems, active, expire, waiting, polls, detached, resumed, {})
  {
  }

  lemma BooksTaken(litems: Items, citems: Items, active: Ptr, expire: Times, waiting: set<Ptr>, polls: set<Ptr>,
                   detached: set<Ptr>, resumed: seq<Ptr>, litems': Items)
    requires Books(litems, citems, active, expire, waiting, polls, detached, resumed, {}) && active != NULL
    requires litems'.Keys == litems.Keys
    requires forall q :: q in litems ==> litems'[q].link == litems[q].link || litems'[q].link == active
    ensures Books(litems', citems, active, expire, waiting, polls, detached, resumed, {})
  {
  }

  lemma BooksEnd(litems: Items, citems: Items, active: Ptr, expire: Times, waiting: set<Ptr>, polls: set<Ptr>,
                 detached: set<Ptr>, resumed: seq<Ptr>, p: Ptr, litems': Items, citems': Items)
    requires Books(litems, citems, active, expire, waiting, polls, detached, resumed, {}) && p in waiting
    requires litems'.Keys == litems.Keys - {p} && citems'.Keys == citems.Keys - {p}
    requires forall q :: q in litems' ==> litems'[q].link == litems[q].link
    requires forall q :: q in citems' ==> citems'[q].link == citems[q].link
    ensures Books(litems', citems', active, expire, waiting - {p}, polls - {p}, detached - {p}, resumed + [p], {})
  {
  }
}
