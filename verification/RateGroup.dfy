/** The suspension protocol of a rate-limit group, libevent/bufferevent_ratelim.c, for one direction.
    The group lock nests inside the bufferevent locks, so a loop over the members that holds the
    group lock can only try their locks; a bufferevent that is being added learns that the group is
    suspended under the group lock and acts on it after releasing it.  The threads are modelled as a
    state machine whose steps are what one thread does between two points where another can act. */
module RateGroup {
  import opened Pointers

  type Id = int
  type Thread = int

  // Where the holder of the group lock is: in no loop, or in a loop with these members still to visit.
  datatype Loop =
    | Idle
    | Suspending(thread: Thread, todo: seq<Id>)
    | Unsuspending(thread: Thread, todo: seq<Id>, again: bool)

  datatype State = State(
    members: seq<Id>,            // the list of the group
    suspended: bool,             // read_suspended
    pending: bool,               // pending_unsuspend_read
    held: set<Id>,               // the bufferevents with BEV_SUSPEND_BW_GROUP set
    adding: set<Id>,             // members that will set it when they get to the end of their addition
    removing: set<Id>,           // former members that will clear it at the end of their removal
    locks: map<Id, Thread>,      // the bufferevent locks
    loop: Loop)

  // A try-lock succeeds on a free lock, or on one of the same thread, the locks being recursive.
  predicate CanLock(s: State, t: Thread, b: Id) {
    b in s.locks ==> s.locks[b] == t
  }

  // Thread t is in the middle of an addition.
  ghost predicate InAddition(s: State, t: Thread) {
    exists b :: b in s.adding && b in s.locks && s.locks[b] == t
  }

  // The members from a random start on, and then the others.
  function Rotated(members: seq<Id>, which: nat): seq<Id>
    requires which <= |members|
  {
    members[which..] + members[..which]
  }

  datatype Step =
    | Lock(t: Thread, b: Id)
    | Unlock(t: Thread, b: Id)
    | Add(t: Thread, b: Id)
    | FinishAdd(t: Thread, b: Id)
    | Remove(t: Thread, b: Id)
    | FinishRemove(t: Thread, b: Id)
    | GetMax(t: Thread, b: Id)
    | Suspend(t: Thread)
    | Unsuspend(t: Thread, which: nat)
    | Visit(success: bool)
    | Leave

  ghost predicate Enabled(s: State, step: Step) {
    match step
    case Lock(t, b) => b !in s.locks
    case Unlock(t, b) => b in s.locks && s.locks[b] == t && b !in s.adding && b !in s.removing
    case Add(t, b) => b in s.locks && s.locks[b] == t && b !in s.members && b !in s.removing && s.loop.Idle? && !InAddition(s, t)
    case FinishAdd(t, b) => b in s.adding && b in s.locks && s.locks[b] == t
    case Remove(t, b) => b in s.locks && s.locks[b] == t && b in s.members && b !in s.adding && s.loop.Idle?
    case FinishRemove(t, b) => b in s.removing && b in s.locks && s.locks[b] == t
    case GetMax(t, b) => b in s.locks && s.locks[b] == t && b in s.members && b !in s.adding && s.loop.Idle?
    case Suspend(t) => s.loop.Idle?
    case Unsuspend(t, which) => s.loop.Idle? && !InAddition(s, t) && which <= |s.members|
    case Visit(success) => !s.loop.Idle? && s.loop.todo != [] && (success ==> CanLock(s, s.loop.thread, s.loop.todo[0]))
    case Leave => !s.loop.Idle? && s.loop.todo == []
  }

  function Next(s: State, step: Step): State {
    match step
    case Lock(t, b) => s.(locks := s.locks[b := t])
    case Unlock(t, b) => s.(locks := s.locks - {b})
    // bufferevent_add_to_rate_limit_group, under the group lock, and then after it
    case Add(t, b) => s.(members := [b] + s.members, adding := if s.suspended then s.adding + {b} else s.adding)
    case FinishAdd(t, b) => s.(held := s.held + {b}, adding := s.adding - {b})
    // bufferevent_remove_from_rate_limit_group, likewise
    case Remove(t, b) => s.(members := Without(s.members, b), removing := s.removing + {b})
    case FinishRemove(t, b) => s.(held := s.held - {b}, removing := s.removing - {b})
    // bufferevent_get_rlim_max_
    case GetMax(t, b) => if s.suspended then s.(held := s.held + {b}) else s
    // bev_group_suspend_reading_
    case Suspend(t) => s.(suspended := true, pending := false, loop := Suspending(t, s.members))
    // bev_group_unsuspend_reading_
    case Unsuspend(t, which) =>
      if which <= |s.members| then s.(suspended := false, loop := Unsuspending(t, Rotated(s.members, which), false)) else s
    // one turn of either loop
    case Visit(success) =>
      if s.loop.Idle? || s.loop.todo == [] then s
      else
        var b, rest := s.loop.todo[0], s.loop.todo[1..];
        if s.loop.Suspending? then
          s.(held := if success then s.held + {b} else s.held, loop := Suspending(s.loop.thread, rest))
        else
          s.(held := if success then s.held - {b} else s.held, loop := Unsuspending(s.loop.thread, rest, s.loop.again || !success))
    // the end of either loop, and the release of the group lock
    case Leave => if s.loop.Unsuspending? then s.(pending := s.loop.again, loop := Idle) else s.(loop := Idle)
  }

  // A member that is held, or is about to be, will be looked at again.
  ghost predicate Watched(s: State, b: Id) {
    if s.loop.Unsuspending? then s.loop.again || b in s.loop.todo else s.suspended || s.pending
  }

  ghost predicate Inv(s: State) {
    && (forall b :: b in s.adding ==> b in s.members && b in s.locks)
    && (forall b :: b in s.removing ==> b !in s.members)
    // nobody is held without a reason
    && (forall b :: b in s.held ==> b in s.members || b in s.removing)
    && (forall b :: b in s.members && (b in s.held || b in s.adding) ==> Watched(s, b))
    && (s.loop.Suspending? ==> s.suspended)
    && (s.loop.Unsuspending? ==> !InAddition(s, s.loop.thread))
    && (!s.loop.Idle? ==> forall b :: b in s.loop.todo ==> b in s.members)
  }

  lemma RotatedElems(members: seq<Id>, which: nat)
    requires which <= |members|
    ensures multiset(Rotated(members, which)) == multiset(members)
    ensures forall b :: b in Rotated(members, which) <==> b in members
  {
    assert members == members[..which] + members[which..];
  }

  // A visit that gets the lock does not meet an addition under way.
  lemma NotAdding(s: State)
    requires Inv(s) && s.loop.Unsuspending? && s.loop.todo != [] && CanLock(s, s.loop.thread, s.loop.todo[0])
    ensures s.loop.todo[0] !in s.adding
  {
  }

  // Every step of every thread keeps the invariant.
  lemma StepKeeps(s: State, step: Step)
    requires Inv(s) && Enabled(s, step)
    ensures Inv(Next(s, step))
  {
    var s' := Next(s, step);
    match step
    case Lock(t, b) =>
    case Unlock(t, b) =>
    case Add(t, b) => assert forall c :: c in s'.members <==> c == b || c in s.members;
    case FinishAdd(t, b) => assert Watched(s, b);
    case Remove(t, b) => WithoutElems(s.members, b);
    case FinishRemove(t, b) =>
    case GetMax(t, b) =>
    case Suspend(t) =>
    case Unsuspend(t, which) => RotatedElems(s.members, which);
    case Visit(success) => VisitKeeps(s, success);
    case Leave =>
  }

  lemma VisitKeeps(s: State, success: bool)
    requires Inv(s) && Enabled(s, Visit(success))
    ensures Inv(Next(s, Visit(success)))
  {
    var s', b, rest := Next(s, Visit(success)), s.loop.todo[0], s.loop.todo[1..];
    assert s.loop.todo == [b] + rest;
    assert forall c :: c in s.loop.todo <==> c == b || c in rest;
    if s.loop.Unsuspending? && success { NotAdding(s); }
    if InAddition(s', s.loop.thread) {
      assert InAddition(s, s.loop.thread);
    }
  }

  // ----- every run -----

  // A run: the steps the threads take from a group without members.
  ghost predicate Start(s: State) {
    s.members == [] && s.held == {} && s.adding == {} && s.removing == {} && s.loop.Idle? && !s.suspended && !s.pending
  }

  ghost predicate IsRun(run: seq<State>, steps: seq<Step>) {
    && |run| == |steps| + 1 && Start(run[0])
    && forall i :: 0 <= i < |steps| ==> Enabled(run[i], steps[i]) && run[i + 1] == Next(run[i], steps[i])
  }

  lemma {:induction false} RunKeeps(run: seq<State>, steps: seq<Step>, i: nat)
    requires IsRun(run, steps) && i < |run|
    ensures Inv(run[i])
  {
    if i > 0 {
      RunKeeps(run, steps, i - 1);
      assert run[i - 1 + 1] == Next(run[i - 1], steps[i - 1]);
      StepKeeps(run[i - 1], steps[i - 1]);
    }
  }

  // No interleaving strands a member: whenever the group lock is free, a member that is held, or
  // is about to be, is in a group that is suspended or that the next refill callback will go over again.
  lemma NeverStranded(run: seq<State>, steps: seq<Step>, i: nat, b: Id)
    requires IsRun(run, steps) && i < |run| && run[i].loop.Idle?
    requires b in run[i].held || b in run[i].adding
    ensures run[i].suspended || run[i].pending || b in run[i].removing
  {
    RunKeeps(run, steps, i);
    assert b in run[i].members ==> b in run[i].members && (b in run[i].held || b in run[i].adding) && Watched(run[i], b);
  }

  // bev_group_refill_callback_ with this many tokens in the group's bucket.
  function RefillCallback(s: State, t: Thread, limit: int, minShare: int, which: nat): State {
    if s.pending || (s.suspended && limit >= minShare) then Next(s, Unsuspend(t, which)) else s
  }

  // In every run, once the bucket holds the minimal share, the callback goes over all members again
  // as long as one of them is held.
  lemma RefillRetries(run: seq<State>, steps: seq<Step>, i: nat, b: Id, t: Thread, limit: int, minShare: int, which: nat)
    requires IsRun(run, steps) && i < |run| && run[i].loop.Idle? && b in run[i].held && b in run[i].members
    requires limit >= minShare && which <= |run[i].members|
    ensures var s := RefillCallback(run[i], t, limit, minShare, which);
            s.loop == Unsuspending(t, Rotated(run[i].members, which), false) && b in s.loop.todo
  {
    RunKeeps(run, steps, i);
    NeverStranded(run, steps, i, b);
    RotatedElems(run[i].members, which);
  }

  // ----- the loop on its own -----

  // The loop of bev_group_unsuspend_reading_ as two passes over the list from a random start.
  method VisitOrder(members: seq<Id>, which: nat) returns (visited: seq<Id>)
    requires members == [] || which < |members|
    ensures members != [] ==> visited == Rotated(members, which)
    ensures multiset(visited) == multiset(members)
  {
    visited := [];
    if members == [] {
      return;
    }
    var i := which;
    while i < |members|
      invariant which <= i <= |members| && visited == members[which..i]
    {
      visited := visited + [members[i]];
      i := i + 1;
    }
    i := 0;
    while i != which
      invariant 0 <= i <= which && visited == members[which..] + members[..i]
    {
      visited := visited + [members[i]];
      i := i + 1;
    }
    RotatedElems(members, which);
  }

  // The visits of the rest of the loop when every lock is got.
  ghost function AllVisited(s: State): State
    decreases if s.loop.Idle? then 0 else |s.loop.todo|
  {
    if s.loop.Idle? || s.loop.todo == [] then s else AllVisited(Next(s, Visit(true)))
  }

  lemma {:induction false} AllVisitedClears(s: State)
    requires s.loop.Unsuspending?
    ensures var s' := AllVisited(s);
            && s'.loop.Unsuspending? && s'.loop.todo == [] && s'.loop.again == s.loop.again
            && s'.members == s.members && s'.suspended == s.suspended
            && s'.held == s.held - (set b | b in s.loop.todo)
    decreases |s.loop.todo|
  {
    if s.loop.todo != [] {
      AllVisitedClears(Next(s, Visit(true)));
      assert s.loop.todo == [s.loop.todo[0]] + s.loop.todo[1..];
    }
  }

  // A refill that gets every lock leaves no member held and nothing pending.
  lemma RefillFrees(s: State, t: Thread, which: nat)
    requires Inv(s) && Enabled(s, Unsuspend(t, which))
    ensures var s' := Next(AllVisited(Next(s, Unsuspend(t, which))), Leave);
            && !s'.suspended && !s'.pending && s'.loop.Idle? && forall b :: b in s'.members ==> b !in s'.held
  {
    var s1 := Next(s, Unsuspend(t, which));
    AllVisitedClears(s1);
    RotatedElems(s.members, which);
  }
}
