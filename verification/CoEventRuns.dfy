/** Every run of the event loop of libco/co_routine.cpp, as a state machine over the queue of the
    wheel, the active list and the queues of the condition variables, which the class Epoll follows
    step by step. */
module CoEventRuns {
  import opened Pointers
  import opened CoLinks
  import opened CoTimeout
  import opened CoEventLoop

  // What the coroutines, the kernel and the loop can do next.
  datatype Step =
    | DoPoll(p: Ptr, timeout: int, now: nat, hasFd: bool)
    | DoCondWait(c: Ptr, p: Ptr, ms: int, now: nat)
    | DoSignal(c: Ptr)
    | DoBroadcast(c: Ptr)
    | DoEvent(p: Ptr)
    | DoTimeouts(now: nat)
    | DoResume

  // ----- the state machine -----

  datatype Loop = Loop(size: nat, start: int, expire: Times, queue: seq<Ptr>, active: seq<Ptr>, conds: Content,
                       waiting: set<Ptr>, polls: set<Ptr>, detached: set<Ptr>, raised: map<Ptr, nat>, timedOut: set<Ptr>,
                       registered: set<Ptr>, refused: set<Ptr>, resumed: seq<Ptr>)
  {
    function StartAt(now: int): int {
      if start == 0 then now else start
    }

    // AddTimeout takes an item that expires t milliseconds after now.
    predicate Takes(t: int, now: int) {
      StartAt(now) <= now && 0 <= t && now + t < StartAt(now) + size
    }

    predicate Unused(p: Ptr) {
      p !in waiting && p !in resumed && p !in registered && p != NULL
    }

    // The waits that have begun.
    ghost function Started(): set<Ptr> {
      waiting + Elems(resumed)
    }
  }

  // A step that can be taken: fresh items, known condition variables, events for all that is
  // registered, and a clock whose distances from the start of the wheel an int can hold.
  ghost predicate CanStep(s: Loop, step: Step) {
    match step
    case DoPoll(p, timeout, now, hasFd) => s.Unused(p) && now > 0 && DiffFits(now + Capped(timeout) - s.StartAt(now), s.size)
    case DoCondWait(c, p, ms, now) => c in s.conds && s.Unused(p) && (ms > 0 ==> now > 0 && DiffFits(now + ms - s.StartAt(now), s.size))
    case DoSignal(c) => c in s.conds
    case DoBroadcast(c) => c in s.conds
    case DoEvent(p) => p in s.registered
    case DoTimeouts(now) => now > 0 && CountFits(now - s.StartAt(now), s.size)
    case DoResume => s.active != []
  }

  // The step is an event whose item has been freed.
  ghost predicate Stale(s: Loop, step: Step) {
    step.DoEvent? && step.p !in s.polls
  }

  // The wait leaves the wheel, or its place on the active list, for the end of the active list.
  ghost function Woken(s: Loop, p: Ptr): Loop {
    s.(queue := Without(s.queue, p), active := Without(s.active, p) + [p])
  }

  ghost function Polled(s: Loop, p: Ptr, timeout: int, now: nat, hasFd: bool): Loop {
    var fds := if hasFd then {p} else {};
    var s1 := s.(start := s.StartAt(now), expire := s.expire[p := now + Capped(timeout)], registered := s.registered + fds);
    if s.Takes(Capped(timeout), now) then
      s1.(waiting := s.waiting + {p}, polls := s.polls + {p}, raised := s.raised[p := 0], queue := Insert(s.queue, s1.expire, p))
    else
      s1.(refused := s.refused + fds)
  }

  ghost function Waited(s: Loop, c: Ptr, p: Ptr, ms: int, now: nat): Loop
    requires c in s.conds
  {
    if ms <= 0 then
      s.(expire := s.expire[p := 0], waiting := s.waiting + {p}, conds := s.conds[c := s.conds[c] + [p]])
    else
      var s1 := s.(start := s.StartAt(now), expire := s.expire[p := now + ms]);
      if s.Takes(ms, now) then
        s1.(waiting := s.waiting + {p}, conds := s.conds[c := s.conds[c] + [p]], queue := Insert(s.queue, s1.expire, p))
      else s1
  }

  ghost function Resumed(s: Loop, p: Ptr): Loop
    requires s.active != []
  {
    s.(active := s.active[1..], conds := map c | c in s.conds :: Without(s.conds[c], p),
       waiting := s.waiting - {p}, polls := s.polls - {p}, detached := s.detached - {p}, raised := s.raised - {p},
       timedOut := s.timedOut - {p}, registered := s.registered - {p}, resumed := s.resumed + [p])
  }

  ghost function Next(s: Loop, step: Step): Loop
    requires CanStep(s, step)
  {
    match step
    case DoPoll(p, timeout, now, hasFd) => Polled(s, p, timeout, now, hasFd)
    case DoCondWait(c, p, ms, now) => Waited(s, c, p, ms, now)
    case DoSignal(c) =>
      if s.conds[c] == [] then s else Woken(s, s.conds[c][0]).(conds := s.conds[c := s.conds[c][1..]])
    case DoBroadcast(c) =>
      var ws := s.conds[c];
      s.(queue := Minus(s.queue, ws), active := Minus(s.active, ws) + ws, conds := s.conds[c := []])
    case DoEvent(p) =>
      var s1 := s.(detached := s.detached + {p}, raised := s.raised[p := (if p in s.raised then s.raised[p] else 0) + 1]);
      if p in s.detached then s1 else Woken(s1, p)
    case DoTimeouts(now) =>
      var due := Due(s.queue, s.expire, now);
      s.(queue := Rest(s.queue, s.expire, now), active := s.active + due, timedOut := s.timedOut + Elems(due),
         start := if now >= s.StartAt(now) then now else s.start)
    case DoResume => Resumed(s, s.active[0])
  }

  // A step that cannot be taken changes nothing; an event for a freed item is not followed.
  ghost function After(s: Loop, step: Step): Loop {
    if CanStep(s, step) && !Stale(s, step) then Next(s, step) else s
  }

  ghost function AfterAll(s: Loop, steps: seq<Step>): Loop {
    if steps == [] then s else After(AfterAll(s, steps[..|steps| - 1]), steps[|steps| - 1])
  }

  // ----- the class follows it -----

  ghost function StateOf(ep: Epoll): Loop
    requires ep.Valid()
    reads ep, ep.links, ep.conds, ep.wheel
  {
    Loop(|ep.wheel.slots|, ep.wheel.start, ep.wheel.expire, ep.wheel.Queue(), ep.links.content[ep.active], ep.conds.content,
         ep.waiting, ep.polls, ep.detached, ep.raised, ep.timedOut, ep.registered, ep.refused, ep.resumed)
  }

  predicate CanTake(ep: Epoll, step: Step)
    reads ep, ep.links, ep.conds, ep.wheel
  {
    match step
    case DoPoll(p, timeout, now, hasFd) =>
      && p !in ep.links.items && p !in ep.resumed && p !in ep.registered && p != NULL
      && now > 0 && DiffFits(now + Capped(timeout) - ep.wheel.StartAt(now), |ep.wheel.slots|)
    case DoCondWait(c, p, ms, now) =>
      && c in ep.conds.heads && p !in ep.links.items && p !in ep.resumed && p !in ep.registered && p != NULL
      && (ms > 0 ==> now > 0 && DiffFits(now + ms - ep.wheel.StartAt(now), |ep.wheel.slots|))
    case DoSignal(c) => c in ep.conds.heads
    case DoBroadcast(c) => c in ep.conds.heads
    case DoEvent(p) => p in ep.registered
    case DoTimeouts(now) => now > 0 && CountFits(now - ep.wheel.StartAt(now), |ep.wheel.slots|)
    case DoResume => ep.active in ep.links.heads && ep.links.heads[ep.active].head != NULL
  }

  lemma CanTakeIs(ep: Epoll, step: Step)
    requires ep.Valid()
    ensures CanTake(ep, step) <==> CanStep(StateOf(ep), step)
  {
    hide Books, Inv, WheelInv;
    BooksFacts(ep.links.items, ep.conds.items, ep.active, ep.wheel.expire, ep.waiting, ep.polls, ep.detached, ep.resumed, {});
    KeysSame(ep.links.items, ep.links.heads, ep.links.content);
    KeysSame(ep.conds.items, ep.conds.heads, ep.conds.content);
    ListFacts(ep.links.items, ep.links.heads, ep.links.content, ep.active);
  }

  // Every step of the class is the step of the state machine.
  method Take(ep: Epoll, step: Step)
    requires ep.Valid() && CanStep(StateOf(ep), step) && !Stale(StateOf(ep), step)
    modifies ep, ep.links, ep.conds, ep.wheel
    ensures ep.Valid() && StateOf(ep) == Next(old(StateOf(ep)), step)
  {
    hide Books, Inv, WheelInv, Cat, Insert, Without, Minus, Due, Rest, Elems, Distinct, Registry;
    CanTakeIs(ep, step);
    match step
    case DoPoll(p, timeout, now, hasFd) => TakePoll(ep, p, timeout, now, hasFd);
    case DoCondWait(c, p, ms, now) => TakeCondWait(ep, c, p, ms, now);
    case DoSignal(c) =>
      var p := ep.Signal(c);
    case DoBroadcast(c) => ep.Broadcast(c);
    case DoEvent(p) => ep.Prepare(p);
    case DoTimeouts(now) => ep.TakeTimeouts(now);
    case DoResume => TakeResume(ep);
  }

  method TakePoll(ep: Epoll, p: Ptr, timeout: int, now: nat, hasFd: bool)
    requires ep.Valid() && CanStep(StateOf(ep), DoPoll(p, timeout, now, hasFd))
    modifies ep, ep.links, ep.wheel
    ensures ep.Valid() && StateOf(ep) == Polled(old(StateOf(ep)), p, timeout, now, hasFd)
  {
    hide Books, Inv, WheelInv, Cat, Insert, Registry;
    var _ := ep.PollWait(p, timeout, now, hasFd);
  }

  method TakeCondWait(ep: Epoll, c: Ptr, p: Ptr, ms: int, now: nat)
    requires ep.Valid() && CanStep(StateOf(ep), DoCondWait(c, p, ms, now)) && c in ep.conds.heads
    modifies ep, ep.links, ep.conds, ep.wheel
    ensures ep.Valid() && StateOf(ep) == Waited(old(StateOf(ep)), c, p, ms, now)
  {
    hide Books, Inv, WheelInv, Cat, Insert, Registry;
    var _ := ep.CondWait(c, p, ms, now);
  }

  method TakeResume(ep: Epoll)
    requires ep.Valid() && StateOf(ep).active != []
    modifies ep, ep.links, ep.conds
    ensures ep.Valid() && StateOf(ep) == Resumed(old(StateOf(ep)), old(StateOf(ep)).active[0])
  {
    hide Books, Inv, WheelInv, Cat, Without, Registry;
    KeysSame(ep.links.items, ep.links.heads, ep.links.content);
    ghost var conds := ep.conds.content;
    var p, _ := ep.Process();
    ghost var after := map c | c in conds :: Without(conds[c], p);
    assert ep.conds.content.Keys == after.Keys;
    assert forall c :: c in after ==> ep.conds.content[c] == after[c];
  }

  // Every run: the steps that can be taken are taken, up to the first event whose item has been freed.
  method Run(ep: Epoll, steps: seq<Step>) returns (done: nat)
    requires ep.Valid()
    modifies ep, ep.links, ep.conds, ep.wheel
    ensures ep.Valid() && done <= |steps| && StateOf(ep) == AfterAll(old(StateOf(ep)), steps[..done])
    ensures done < |steps| ==> CanStep(StateOf(ep), steps[done]) && Stale(StateOf(ep), steps[done])
    ensures ep.refused == {} ==> done == |steps|
  {
    hide Books, Inv, WheelInv, Cat, CanStep, CanTake, Next, Registry;
    done := 0;
    assert steps[..0] == [];
    while done < |steps|
      invariant done <= |steps| && ep.Valid() && StateOf(ep) == AfterAll(old(StateOf(ep)), steps[..done])
    {
      assert steps[..done + 1][..done] == steps[..done];
      CanTakeIs(ep, steps[done]);
      if CanTake(ep, steps[done]) {
        if steps[done].DoEvent? && steps[done].p !in ep.polls {
          StaleRefused(ep, steps[done].p);
          return;
        }
        Take(ep, steps[done]);
      }
      done := done + 1;
    }
  }

  lemma StaleRefused(ep: Epoll, p: Ptr)
    requires ep.Valid() && CanStep(StateOf(ep), DoEvent(p))
    ensures Stale(StateOf(ep), DoEvent(p)) <==> p in ep.refused
  {
    hide Books, Inv, WheelInv;
    assert p in ep.registered - ep.polls <==> p !in ep.polls;
  }

  // Every event that epoll can report is for a poll that waits if and only if no poll with a
  // descriptor has been refused.
  lemma EventsLive(ep: Epoll)
    requires ep.Valid()
    ensures (forall p :: CanStep(StateOf(ep), DoEvent(p)) ==> !Stale(StateOf(ep), DoEvent(p))) <==> ep.refused == {}
  {
    hide Books, Inv, WheelInv;
    var s := StateOf(ep);
    forall p | CanStep(s, DoEvent(p)) ensures Stale(s, DoEvent(p)) <==> p in ep.refused {
      StaleRefused(ep, p);
    }
    if ep.refused != {} {
      var p := SomeElem(ep.refused);
      assert p in ep.registered - ep.polls;
      assert CanStep(s, DoEvent(p)) && Stale(s, DoEvent(p));
    }
  }

  // A poll of one descriptor with the timeout -1, in any state: it is refused, and its next event
  // finds a freed item.
  method WaitForever(ep: Epoll, p: Ptr, now: nat)
    requires ep.Valid() && CanStep(StateOf(ep), DoPoll(p, -1, now, true))
    modifies ep, ep.links, ep.wheel
    ensures ep.Valid() && CanStep(StateOf(ep), DoEvent(p)) && Stale(StateOf(ep), DoEvent(p)) && p !in ep.waiting
  {
    hide Books, Inv, WheelInv, Cat, Insert;
    BooksFacts(ep.links.items, ep.conds.items, ep.active, ep.wheel.expire, ep.waiting, ep.polls, ep.detached, ep.resumed, {});
    TakePoll(ep, p, -1, now, true);
  }

  // ----- what holds of every wait -----

  // How often the timeout item of p is on the wheel and on the active list.
  ghost function Listed(s: Loop, p: Ptr): nat {
    multiset(s.queue)[p] + multiset(s.active)[p]
  }

  ghost predicate InCond(s: Loop, p: Ptr) {
    exists c :: c in s.conds && p in s.conds[c]
  }

  ghost predicate CondFine(s: Loop, c: Ptr, p: Ptr)
    requires c in s.conds
  {
    multiset(s.conds[c])[p] <= 1 && (p in s.conds[c] ==> p in s.waiting && p !in s.polls)
  }

  // A wait that is not over is on the wheel, on the active list or, unless it is a poll, on a
  // condition variable; its timeout item is on one list at most; and it has not been resumed.
  ghost predicate Fine(s: Loop, p: Ptr) {
    && Listed(s, p) <= 1 && (Listed(s, p) > 0 ==> p in s.waiting)
    && (forall c :: c in s.conds ==> CondFine(s, c, p))
    && (p in s.waiting ==> p != NULL && (Listed(s, p) > 0 || (p !in s.polls && InCond(s, p))))
    && (p in s.polls ==> p in s.waiting) && (p in s.raised <==> p in s.polls) && (p in s.detached ==> p in s.polls)
    && multiset(s.resumed)[p] <= 1 && (p in s.resumed ==> p !in s.waiting)
    && (p in s.registered <==> p in s.refused || (p in s.polls && p in s.registered)) && (p in s.refused ==> p !in s.waiting)
  }

  // It waits for one condition variable at most.
  ghost predicate OneCond(s: Loop, p: Ptr) {
    forall c, d :: c in s.conds && d in s.conds && p in s.conds[c] && p in s.conds[d] ==> c == d
  }

  ghost predicate Good(s: Loop) {
    forall p :: Fine(s, p) && OneCond(s, p)
  }

  lemma {:induction false} InsertBag(q: seq<Ptr>, expire: Times, p: Ptr)
    ensures multiset(Insert(q, expire, p)) == multiset(q) + multiset{p}
  {
    if q != [] {
      var m, x := q[..|q| - 1], q[|q| - 1];
      assert q == m + [x];
      InsertBag(m, expire, p);
    }
  }

  lemma {:induction false} WithoutBag(q: seq<Ptr>, p: Ptr, x: Ptr)
    ensures multiset(Without(q, p))[x] == if x == p then 0 else multiset(q)[x]
  {
    if q != [] {
      var m, y := q[..|q| - 1], q[|q| - 1];
      assert q == m + [y];
      WithoutBag(m, p, x);
    }
  }

  lemma {:induction false} MinusBag(q: seq<Ptr>, ws: seq<Ptr>, x: Ptr)
    ensures multiset(Minus(q, ws))[x] == if x in ws then 0 else multiset(q)[x]
  {
    if ws != [] {
      var vs, w := ws[..|ws| - 1], ws[|ws| - 1];
      assert ws == vs + [w];
      MinusBag(q, vs, x);
      WithoutBag(Minus(q, vs), w, x);
    }
  }

  lemma {:induction false} DueBag(q: seq<Ptr>, expire: Times, now: int)
    ensures multiset(q) == multiset(Due(q, expire, now)) + multiset(Rest(q, expire, now))
  {
    if q != [] {
      var m, x := q[..|q| - 1], q[|q| - 1];
      assert q == m + [x];
      DueBag(m, expire, now);
    }
  }

  lemma FineNext(s: Loop, step: Step, p: Ptr)
    requires Good(s) && CanStep(s, step) && !Stale(s, step)
    ensures Fine(Next(s, step), p)
  {
    hide Insert, Without, Minus, Due, Rest, Elems, DiffFits, CountFits;
    assert Fine(s, p);
    match step
    case DoPoll(q, timeout, now, hasFd) => FinePolled(s, q, timeout, now, hasFd, p);
    case DoCondWait(c, q, ms, now) => FineWaited(s, c, q, ms, now, p);
    case DoSignal(c) => FineSignal(s, c, p);
    case DoBroadcast(c) => FineBroadcast(s, c, p);
    case DoEvent(q) => FineEvent(s, q, p);
    case DoTimeouts(now) => FineTimeouts(s, now, p);
    case DoResume => FineResumed(s, p);
  }

  lemma FinePolled(s: Loop, q: Ptr, timeout: int, now: nat, hasFd: bool, p: Ptr)
    requires Fine(s, p) && Fine(s, q) && s.Unused(q)
    ensures Fine(Polled(s, q, timeout, now, hasFd), p)
  {
    hide Insert;
    InsertBag(s.queue, s.expire[q := now + Capped(timeout)], q);
    SameConds(s, Polled(s, q, timeout, now, hasFd), p);
  }

  lemma SameConds(s: Loop, t: Loop, p: Ptr)
    requires t.conds == s.conds
    ensures InCond(t, p) <==> InCond(s, p)
  {
  }

  lemma CondsFine(s: Loop, t: Loop, p: Ptr)
    requires Fine(s, p) && t.conds == s.conds && t.waiting == s.waiting && t.polls == s.polls
    ensures forall c :: c in t.conds ==> CondFine(t, c, p)
  {
    forall c | c in t.conds ensures CondFine(t, c, p) {
      assert CondFine(s, c, p);
    }
  }

  lemma FineWaited(s: Loop, c: Ptr, q: Ptr, ms: int, now: nat, p: Ptr)
    requires Fine(s, p) && Fine(s, q) && s.Unused(q) && c in s.conds
    ensures Fine(Waited(s, c, q, ms, now), p)
  {
    hide Insert;
    InsertBag(s.queue, s.expire[q := now + ms], q);
    var t := Waited(s, c, q, ms, now);
    assert CondFine(s, c, p) && CondFine(s, c, q);
    CondGrows(s, t, c, q, p);
  }

  lemma CondGrows(s: Loop, t: Loop, c: Ptr, q: Ptr, p: Ptr)
    requires c in s.conds && (t.conds == s.conds || t.conds == s.conds[c := s.conds[c] + [q]])
    ensures InCond(s, p) ==> InCond(t, p)
    ensures t.conds != s.conds ==> InCond(t, q)
  {
    if InCond(s, p) {
      var d :| d in s.conds && p in s.conds[d];
      assert d in t.conds && p in t.conds[d];
    }
    if t.conds != s.conds {
      assert q in t.conds[c];
    }
  }

  lemma FineSignal(s: Loop, c: Ptr, p: Ptr)
    requires Good(s) && c in s.conds && Fine(s, p)
    ensures Fine(Next(s, DoSignal(c)), p)
  {
    hide Without, Good;
    var ws := s.conds[c];
    if ws != [] {
      var w := ws[0];
      assert Fine(s, w) by { GoodAt(s, w); }
      assert ws == [w] + ws[1..];
      assert CondFine(s, c, p) && CondFine(s, c, w);
      WithoutBag(s.queue, w, p);
      WithoutBag(s.active, w, p);
      CondShrinks(s, Next(s, DoSignal(c)), c, p);
    }
  }

  lemma GoodAt(s: Loop, p: Ptr)
    requires Good(s)
    ensures Fine(s, p) && OneCond(s, p)
  {
  }

  // The waits taken off a condition variable become active; the others stay where they are.
  lemma CondShrinks(s: Loop, t: Loop, c: Ptr, p: Ptr)
    requires c in s.conds && c in t.conds && t.conds == s.conds[c := t.conds[c]]
    ensures InCond(s, p) && (p in s.conds[c] ==> p in t.conds[c]) ==> InCond(t, p)
  {
    if InCond(s, p) && (p in s.conds[c] ==> p in t.conds[c]) {
      var d :| d in s.conds && p in s.conds[d];
      assert d in t.conds && p in t.conds[d];
    }
  }

  lemma FineBroadcast(s: Loop, c: Ptr, p: Ptr)
    requires c in s.conds && Fine(s, p)
    ensures Fine(Next(s, DoBroadcast(c)), p)
  {
    hide Minus;
    var ws := s.conds[c];
    assert CondFine(s, c, p);
    MinusBag(s.queue, ws, p);
    MinusBag(s.active, ws, p);
    CondShrinks(s, Next(s, DoBroadcast(c)), c, p);
  }

  lemma FineEvent(s: Loop, q: Ptr, p: Ptr)
    requires Fine(s, q) && Fine(s, p) && q in s.registered && q in s.polls
    ensures Fine(Next(s, DoEvent(q)), p)
  {
    hide Without;
    var t := Next(s, DoEvent(q));
    WithoutBag(s.queue, q, p);
    WithoutBag(s.active, q, p);
    assert Listed(t, p) == if p == q && q !in s.detached then 1 else Listed(s, p);
    SameConds(s, t, p);
    CondsFine(s, t, p);
    hide Listed, InCond, CondFine;
  }

  lemma FineTimeouts(s: Loop, now: nat, p: Ptr)
    requires Fine(s, p) && CanStep(s, DoTimeouts(now))
    ensures Fine(Next(s, DoTimeouts(now)), p)
  {
    hide Due, Rest, Elems, CountFits;
    DueBag(s.queue, s.expire, now);
    SameConds(s, Next(s, DoTimeouts(now)), p);
  }

  lemma FineResumed(s: Loop, p: Ptr)
    requires s.active != [] && Fine(s, p) && Fine(s, s.active[0])
    ensures Fine(Resumed(s, s.active[0]), p)
  {
    hide Without;
    var q, t := s.active[0], Resumed(s, s.active[0]);
    assert s.active == [q] + s.active[1..];
    forall c | c in t.conds ensures CondFine(t, c, p) && (p != q ==> (p in t.conds[c] <==> p in s.conds[c])) {
      assert CondFine(s, c, p);
      WithoutBag(s.conds[c], q, p);
    }
    if p != q && InCond(s, p) {
      var d :| d in s.conds && p in s.conds[d];
      assert d in t.conds && p in t.conds[d];
    }
  }

  lemma OneCondNext(s: Loop, step: Step, p: Ptr)
    requires Good(s) && CanStep(s, step)
    ensures OneCond(Next(s, step), p)
  {
    hide Insert, Without, Minus, Due, Rest, Elems, DiffFits, CountFits, Fine, OneCond;
    GoodAt(s, p);
    if step.DoCondWait? {
      OneCondWaited(s, step.c, step.p, step.ms, step.now, p);
    } else {
      forall c | c in Next(s, step).conds ensures c in s.conds && (p in Next(s, step).conds[c] ==> p in s.conds[c]) {
        if step.DoResume? {
          WithoutBag(s.conds[c], s.active[0], p);
          assert p in multiset(Without(s.conds[c], s.active[0])) ==> p in multiset(s.conds[c]);
        }
      }
      OneCondLess(s, Next(s, step), p);
    }
  }

  lemma OneCondLess(s: Loop, t: Loop, p: Ptr)
    requires OneCond(s, p) && forall c :: c in t.conds ==> c in s.conds && (p in t.conds[c] ==> p in s.conds[c])
    ensures OneCond(t, p)
  {
  }

  lemma OneCondWaited(s: Loop, c: Ptr, q: Ptr, ms: int, now: nat, p: Ptr)
    requires OneCond(s, p) && Fine(s, p) && c in s.conds && s.Unused(q)
    ensures OneCond(Waited(s, c, q, ms, now), p)
  {
    hide Insert;
    if p == q {
      assert forall d :: d in s.conds ==> CondFine(s, d, p);
    }
  }

  // Every state of every run is good.
  lemma {:induction false} RunGood(s: Loop, steps: seq<Step>)
    requires Good(s)
    ensures Good(AfterAll(s, steps))
  {
    hide Fine, OneCond, CanStep, Next;
    if steps != [] {
      var t, step := AfterAll(s, steps[..|steps| - 1]), steps[|steps| - 1];
      RunGood(s, steps[..|steps| - 1]);
      if CanStep(t, step) && !Stale(t, step) {
        forall p ensures Fine(Next(t, step), p) && OneCond(Next(t, step), p) {
          FineNext(t, step, p);
          OneCondNext(t, step, p);
        }
      }
    }
  }

  // A loop in which no wait has begun yet is good.
  lemma NewGood(ep: Epoll)
    requires ep.Valid() && ep.waiting == {} && ep.registered == {} && ep.resumed == []
    ensures Good(StateOf(ep))
  {
    hide WheelInv;
    var s := StateOf(ep);
    NoItems(ep.links.items, ep.links.heads, ep.links.content);
    NoItems(ep.conds.items, ep.conds.heads, ep.conds.content);
    WheelFacts(ep.links.content, ep.wheel.slots, ep.wheel.start, ep.wheel.startIdx, ep.wheel.expire);
    CatEmpty(ep.links.content, ep.wheel.slots, ep.wheel.startIdx, |ep.wheel.slots|);
    hide Inv, Books;
    BooksFacts(ep.links.items, ep.conds.items, ep.active, ep.wheel.expire, ep.waiting, ep.polls, ep.detached, ep.resumed, {});
    assert s.queue == [] && s.active == [] && s.polls == {} && s.raised.Keys == {} && s.refused == {};
  }

  lemma NoItems(items: Items, heads: Heads, content: Content)
    requires Inv(items, heads, content) && items.Keys == {}
    ensures forall l :: l in content ==> content[l] == []
  {
    forall l | l in content ensures content[l] == [] {
      ItemsOf(items, l, content[l]);
    }
  }

  lemma ItemsOf(items: Items, l: Ptr, ps: seq<Ptr>)
    requires IsList(items, l, ps)
    ensures ps != [] ==> ps[0] in items.Keys
  {
  }

  // ----- what a run has done -----

  // The step begins the wait p, and AddTimeout takes it.
  ghost predicate Accepts(s: Loop, step: Step, p: Ptr) {
    CanStep(s, step) &&
    match step
    case DoPoll(q, timeout, now, hasFd) => q == p && s.Takes(Capped(timeout), now)
    case DoCondWait(c, q, ms, now) => q == p && (ms > 0 ==> s.Takes(ms, now))
    case _ => false
  }

  // The step begins a poll with a descriptor, and AddTimeout refuses it.
  ghost predicate Refuses(s: Loop, step: Step, p: Ptr) {
    CanStep(s, step) && step.DoPoll? && step.p == p && step.hasFd && !s.Takes(Capped(step.timeout), step.now)
  }

  // The waits that the steps resume, in order.
  ghost function Resumes(s: Loop, steps: seq<Step>): seq<Ptr> {
    if steps == [] then []
    else
      var t, step := AfterAll(s, steps[..|steps| - 1]), steps[|steps| - 1];
      Resumes(s, steps[..|steps| - 1]) + if step.DoResume? && t.active != [] then [t.active[0]] else []
  }

  lemma AfterStarted(s: Loop, step: Step, p: Ptr)
    requires Good(s)
    ensures p in After(s, step).Started() <==> p in s.Started() || Accepts(s, step, p)
    ensures p in After(s, step).refused <==> p in s.refused || Refuses(s, step, p)
  {
    hide Insert, Without, Minus, Due, Rest, DiffFits, CountFits;
    if step.DoResume? && s.active != [] {
      assert Fine(s, s.active[0]);
    }
  }

  // Some step of the run has begun the wait p, or refused it with a descriptor.
  ghost predicate Accepted(s: Loop, steps: seq<Step>, p: Ptr) {
    exists i :: 0 <= i < |steps| && Accepts(AfterAll(s, steps[..i]), steps[i], p)
  }

  ghost predicate Refused(s: Loop, steps: seq<Step>, p: Ptr) {
    exists i :: 0 <= i < |steps| && Refuses(AfterAll(s, steps[..i]), steps[i], p)
  }

  lemma AcceptedLast(s: Loop, steps: seq<Step>, p: Ptr)
    requires steps != []
    ensures var m := |steps| - 1;
            Accepted(s, steps, p) <==> Accepted(s, steps[..m], p) || Accepts(AfterAll(s, steps[..m]), steps[m], p)
  {
    hide Accepts, AfterAll;
    var m := |steps| - 1;
    assert forall i :: 0 <= i < m ==> steps[..m][..i] == steps[..i] && steps[..m][i] == steps[i];
    if Accepted(s, steps[..m], p) {
      var i :| 0 <= i < m && Accepts(AfterAll(s, steps[..m][..i]), steps[..m][i], p);
      assert Accepts(AfterAll(s, steps[..i]), steps[i], p);
    }
    if Accepted(s, steps, p) {
      var i :| 0 <= i < |steps| && Accepts(AfterAll(s, steps[..i]), steps[i], p);
      assert i < m ==> Accepts(AfterAll(s, steps[..m][..i]), steps[..m][i], p);
    }
  }

  lemma RefusedLast(s: Loop, steps: seq<Step>, p: Ptr)
    requires steps != []
    ensures var m := |steps| - 1;
            Refused(s, steps, p) <==> Refused(s, steps[..m], p) || Refuses(AfterAll(s, steps[..m]), steps[m], p)
  {
    hide Refuses, AfterAll;
    var m := |steps| - 1;
    assert forall i :: 0 <= i < m ==> steps[..m][..i] == steps[..i] && steps[..m][i] == steps[i];
    if Refused(s, steps[..m], p) {
      var i :| 0 <= i < m && Refuses(AfterAll(s, steps[..m][..i]), steps[..m][i], p);
      assert Refuses(AfterAll(s, steps[..i]), steps[i], p);
    }
    if Refused(s, steps, p) {
      var i :| 0 <= i < |steps| && Refuses(AfterAll(s, steps[..i]), steps[i], p);
      assert i < m ==> Refuses(AfterAll(s, steps[..m][..i]), steps[..m][i], p);
    }
  }

  // Over every run, the waits that have begun are exactly those that had begun and those that a step
  // of the run has begun; and the polls refused with a descriptor are exactly those so refused.
  lemma {:induction false} RunStarted(s: Loop, steps: seq<Step>, p: Ptr)
    requires Good(s)
    ensures p in AfterAll(s, steps).Started() <==> p in s.Started() || Accepted(s, steps, p)
    ensures p in AfterAll(s, steps).refused <==> p in s.refused || Refused(s, steps, p)
  {
    hide Good, After, Accepts, Refuses, Loop.Started, Accepted, Refused;
    if steps == [] {
      NothingYet(s, p);
    } else {
      var m := |steps| - 1;
      RunStarted(s, steps[..m], p);
      RunGood(s, steps[..m]);
      AfterStarted(AfterAll(s, steps[..m]), steps[m], p);
      AcceptedLast(s, steps, p);
      RefusedLast(s, steps, p);
    }
  }

  lemma NothingYet(s: Loop, p: Ptr)
    ensures !Accepted(s, [], p) && !Refused(s, [], p)
  {
  }

  // Over every run, exactly the resuming steps resume, each the wait that is first on the active list.
  lemma {:induction false} RunResumed(s: Loop, steps: seq<Step>)
    ensures AfterAll(s, steps).resumed == s.resumed + Resumes(s, steps)
  {
    hide After;
    if steps != [] {
      RunResumed(s, steps[..|steps| - 1]);
      AfterResumed(AfterAll(s, steps[..|steps| - 1]), steps[|steps| - 1]);
    }
  }

  lemma AfterResumed(s: Loop, step: Step)
    ensures After(s, step).resumed == s.resumed + if step.DoResume? && s.active != [] then [s.active[0]] else []
  {
    hide Insert, Without, Minus, Due, Rest, DiffFits, CountFits, Elems;
  }

  // After every run, a wait that has begun has been resumed exactly once and is on no list; or it has
  // not been resumed, and is on the wheel or on the active list, or without a time limit on a
  // condition variable.
  lemma EveryWait(s: Loop, steps: seq<Step>, p: Ptr)
    requires Good(s) && p in AfterAll(s, steps).Started()
    ensures var t := AfterAll(s, steps);
            if p in t.waiting then p !in t.resumed && (Listed(t, p) == 1 || (Listed(t, p) == 0 && p !in t.polls && InCond(t, p)))
            else multiset(t.resumed)[p] == 1 && Listed(t, p) == 0 && !InCond(t, p)
  {
    hide Listed;
    RunGood(s, steps);
    var t := AfterAll(s, steps);
    assert Fine(t, p);
  }

  // ----- first come, first served -----

  // The step moves p to the end of the active list.
  ghost predicate Moves(s: Loop, step: Step, p: Ptr) {
    CanStep(s, step) &&
    match step
    case DoEvent(q) => q == p && p !in s.detached
    case DoSignal(c) => s.conds[c] != [] && s.conds[c][0] == p
    case DoBroadcast(c) => p in s.conds[c]
    case _ => false
  }

  lemma {:induction false} WithoutIndex(q: seq<Ptr>, x: Ptr, k: nat) returns (j: nat)
    requires k < |q| && q[k] != x
    ensures j <= k && j < |Without(q, x)| && Without(q, x)[j] == q[k]
  {
    var m := |q| - 1;
    if k == m {
      j := |Without(q[..m], x)|;
      WithoutShorter(q[..m], x);
    } else {
      j := WithoutIndex(q[..m], x, k);
    }
  }

  lemma {:induction false} WithoutShorter(q: seq<Ptr>, x: Ptr)
    ensures |Without(q, x)| <= |q|
  {
    if q != [] {
      WithoutShorter(q[..|q| - 1], x);
    }
  }

  lemma {:induction false} MinusIndex(q: seq<Ptr>, ws: seq<Ptr>, k: nat) returns (j: nat)
    requires k < |q| && q[k] !in ws
    ensures j <= k && j < |Minus(q, ws)| && Minus(q, ws)[j] == q[k]
  {
    if ws == [] {
      j := k;
    } else {
      var vs, w := ws[..|ws| - 1], ws[|ws| - 1];
      assert ws == vs + [w];
      var i := MinusIndex(q, vs, k);
      j := WithoutIndex(Minus(q, vs), w, i);
    }
  }

  // A step that does not move p brings it no further back, and one that resumes brings it forward.
  lemma AfterIndex(s: Loop, step: Step, k: nat) returns (j: int)
    requires k < |s.active| && !Moves(s, step, s.active[k])
    ensures var t, p := After(s, step), s.active[k];
            && j <= (if step.DoResume? then k - 1 else k)
            && (j < 0 ==> p in t.resumed) && (j >= 0 ==> j < |t.active| && t.active[j] == p)
  {
    hide Insert, Without, Minus, Due, Rest, DiffFits, CountFits, Elems;
    j := if step.DoResume? then k - 1 else k;
    if CanStep(s, step) && !Stale(s, step) {
      if step.DoSignal? && s.conds[step.c] != [] {
        j := WithoutIndex(s.active, s.conds[step.c][0], k);
      } else if step.DoBroadcast? {
        j := MinusIndex(s.active, s.conds[step.c], k);
      } else if step.DoEvent? && step.p !in s.detached {
        j := WithoutIndex(s.active, step.p, k);
      }
    }
  }

  lemma ResumedStays(s: Loop, step: Step, p: Ptr)
    requires p in s.resumed
    ensures p in After(s, step).resumed
  {
    hide Insert, Without, Minus, Due, Rest, DiffFits, CountFits, Elems;
  }

  // Whatever else the coroutines, the kernel and the loop do, the wait at place k of the active list
  // is resumed by the first k + 1 resuming steps, unless a step moves it to the end.
  lemma {:induction false} FirstComeFirstServed(s: Loop, steps: seq<Step>, k: nat) returns (j: int)
    requires k < |s.active| && forall i :: 0 <= i < |steps| ==> !Moves(AfterAll(s, steps[..i]), steps[i], s.active[k])
    ensures var t, p := AfterAll(s, steps), s.active[k];
            && (p in t.resumed || (0 <= j < |t.active| && t.active[j] == p && j + |Resumes(s, steps)| <= k))
            && (|Resumes(s, steps)| > k ==> p in t.resumed)
  {
    hide After, Moves;
    var p := s.active[k];
    j := k;
    if steps != [] {
      var m := |steps| - 1;
      var t, step := AfterAll(s, steps[..m]), steps[m];
      assert forall i :: 0 <= i < m ==> steps[..m][..i] == steps[..i] && steps[..m][i] == steps[i];
      j := FirstComeFirstServed(s, steps[..m], k);
      if p in t.resumed {
        ResumedStays(t, step, p);
      } else {
        j := AfterIndex(t, step, j);
      }
    }
  }

  // A wait whose time is up becomes active, if it is not yet.
  lemma TimedOutActive(s: Loop, now: nat, p: Ptr)
    requires CanStep(s, DoTimeouts(now)) && p in s.queue && p in s.expire && s.expire[p] <= now
    ensures p in After(s, DoTimeouts(now)).active && p in After(s, DoTimeouts(now)).timedOut
  {
    hide CountFits;
    InDue(s.queue, s.expire, now, p);
  }

  lemma {:induction false} InDue(q: seq<Ptr>, expire: Times, now: int, p: Ptr)
    requires p in q && p in expire && expire[p] <= now
    ensures p in Due(q, expire, now)
  {
    var m, x := q[..|q| - 1], q[|q| - 1];
    assert q == m + [x];
    if p != x {
      InDue(m, expire, now, p);
    }
  }

  // An active wait that no step can move any more: its event has come, or nobody can signal it.
  ghost predicate Settled(s: Loop, p: Ptr) {
    p in s.active && (p in s.polls ==> p in s.detached) && !InCond(s, p)
  }

  // So an event, a signal or a broadcast that moves a wait is the last to do so.
  lemma WokenSettled(s: Loop, step: Step, p: Ptr)
    requires Good(s) && Moves(s, step, p) && !Stale(s, step)
    ensures Settled(After(s, step), p)
  {
    hide Insert, Without, Minus, Due, Rest, DiffFits, CountFits, Elems;
    assert Fine(s, p) && OneCond(s, p);
    var t := After(s, step);
    forall c | c in t.conds ensures p !in t.conds[c] {
      assert CondFine(s, c, p);
      if step.DoSignal? && c == step.c {
        assert s.conds[c] == [p] + s.conds[c][1..];
      }
    }
  }

  lemma SettledStays(s: Loop, step: Step, p: Ptr)
    requires Good(s) && Settled(s, p)
    ensures !Moves(s, step, p) && (Settled(After(s, step), p) || p in After(s, step).resumed)
  {
    hide Insert, Without, Minus, Due, Rest, DiffFits, CountFits, Elems;
    assert Fine(s, p);
    NoCondAfter(s, step, p);
    hide InCond;
    var k :| 0 <= k < |s.active| && s.active[k] == p;
    assert !Moves(s, step, p) by { NotMoved(s, step, p); }
    var j := AfterIndex(s, step, k);
  }

  lemma NotMoved(s: Loop, step: Step, p: Ptr)
    requires Fine(s, p) && Settled(s, p)
    ensures !Moves(s, step, p)
  {
    assert p in s.waiting;
    if CanStep(s, step) && step.DoSignal? && s.conds[step.c] != [] {
      assert s.conds[step.c][0] in s.conds[step.c];
    }
  }

  lemma NoCondAfter(s: Loop, step: Step, p: Ptr)
    requires !InCond(s, p) && p in s.waiting
    ensures !InCond(After(s, step), p)
  {
    hide Insert, Without, Minus, Due, Rest, DiffFits, CountFits, Elems;
    var t := After(s, step);
    forall c | c in t.conds ensures p !in t.conds[c] {
      assert c in s.conds && p !in s.conds[c];
      if step.DoResume? && s.active != [] {
        WithoutBag(s.conds[c], s.active[0], p);
        assert multiset(s.conds[c])[p] == 0;
      }
    }
  }
}
