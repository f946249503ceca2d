/** Coroutine switching with copied shared stacks, libco/co_routine.cpp: co_resume, co_yield_env,
    co_swap and save_stack_buffer.  Several coroutines may run on one stack buffer; the bytes of the
    one that is displaced are copied out and copied back later.  Every run is proved to give each
    coroutine the bytes it would see on a stack of its own. */
module CoStack {
  import opened Bytes
  import opened Pointers

  type Id = Ptr
  const CALL_STACK_SIZE := 128

  // The buffer of a stack runs from its lowest address to stack_bp.
  datatype Stack = Stack(occupy: Id, mem: seq<Byte>)

  datatype Save = NoSave | Saved(bytes: seq<Byte>)

  // sp is stack_sp, and ctxSp the stack pointer kept in ctx, both as offsets in the buffer; atEntry
  // says that ctx leads to the start of the coroutine's function and not back into co_swap.
  datatype Co = Co(stack: Id, shared: bool, started: bool, sp: nat, ctxSp: nat, atEntry: bool, save: Save)

  type Stacks = map<Id, Stack>
  type Cos = map<Id, Co>
  type View = map<Id, seq<Byte>>

  // The bytes from offset sp up are those that coroutine c has put there.
  ghost predicate Intact(mem: seq<Byte>, sp: nat, bytes: seq<Byte>) {
    sp <= |mem| && mem[sp..] == bytes
  }

  // A suspended coroutine finds its bytes in place, or in its save buffer if it was displaced.
  ghost predicate Suspended(stack: Stack, co: Co, c: Id, bytes: seq<Byte>) {
    && !co.atEntry && co.ctxSp == co.sp && co.sp + |bytes| == |stack.mem| && (co.shared ==> stack.occupy != NULL)
    && (if co.shared && stack.occupy != c then co.save == Saved(bytes) else Intact(stack.mem, co.sp, bytes))
  }

  ghost predicate CoInv(stacks: Stacks, co: Co, c: Id, bytes: seq<Byte>, running: Id, sp: nat) {
    && c != NULL && co.stack in stacks
    && if !co.started then c != running && stacks[co.stack].occupy != c && bytes == []
       else if c == running then Intact(stacks[co.stack].mem, sp, bytes) && (co.shared ==> stacks[co.stack].occupy == c)
       else Suspended(stacks[co.stack], co, c, bytes)
  }

  // A stack that is not shared has one user, and the occupant of a stack uses it.
  ghost predicate Users(stacks: Stacks, cos: Cos) {
    && (forall c, d :: c in cos && d in cos && c != d && cos[c].stack == cos[d].stack ==> cos[c].shared)
    && (forall s :: s in stacks && stacks[s].occupy != NULL ==>
          stacks[s].occupy in cos && cos[stacks[s].occupy].stack == s && cos[stacks[s].occupy].started)
  }

  // Every coroutine but one has its bytes.
  ghost predicate AllBut(stacks: Stacks, cos: Cos, view: View, running: Id) {
    && view.Keys == cos.Keys && Users(stacks, cos)
    && forall c :: c in cos && c != running ==> CoInv(stacks, cos[c], c, view[c], running, 0)
  }

  ghost predicate Inv(stacks: Stacks, cos: Cos, view: View, running: Id, sp: nat) {
    && AllBut(stacks, cos, view, running) && running in cos && cos[running].started
    && CoInv(stacks, cos[running], running, view[running], running, sp)
  }

  // co_swap records stack_sp, and coctx_swap the stack pointer, of the current coroutine.
  function Recorded(cos: Cos, curr: Id, sp: nat): Cos
    requires curr in cos
  {
    cos[curr := cos[curr].(sp := sp, ctxSp := sp, atEntry := false)]
  }

  lemma Record(stacks: Stacks, cos: Cos, view: View, curr: Id, sp: nat)
    requires Inv(stacks, cos, view, curr, sp)
    ensures AllBut(stacks, Recorded(cos, curr, sp), view, NULL)
  {
  }

  // What save_stack_buffer leaves.
  function SavedOut(stacks: Stacks, cos: Cos, c: Id): Cos
    requires c in cos && cos[c].stack in stacks && cos[c].sp <= |stacks[cos[c].stack].mem|
  {
    cos[c := cos[c].(save := Saved(stacks[cos[c].stack].mem[cos[c].sp..]))]
  }

  // The occupant of stack s, if there is one other than p, can be saved.
  ghost predicate OccupantOk(stacks: Stacks, cos: Cos, s: Id, p: Id)
    requires s in stacks
  {
    var occ := stacks[s].occupy;
    occ != NULL && occ != p ==> occ in cos && cos[occ].stack == s && cos[occ].sp <= |stacks[s].mem|
  }

  // The coroutines after the stack of p has been given to p.
  function Displaced(stacks: Stacks, cos: Cos, p: Id): Cos
    requires p in cos && cos[p].stack in stacks && OccupantOk(stacks, cos, cos[p].stack, p)
  {
    var occ := stacks[cos[p].stack].occupy;
    if occ == NULL || occ == p then cos else SavedOut(stacks, cos, occ)
  }

  lemma GiveStack(stacks: Stacks, cos: Cos, view: View, p: Id)
    requires AllBut(stacks, cos, view, p) && p in cos && cos[p].shared && cos[p].started && p != NULL
    requires cos[p].stack in stacks && OccupantOk(stacks, cos, cos[p].stack, p)
    ensures AllBut(stacks[cos[p].stack := stacks[cos[p].stack].(occupy := p)], Displaced(stacks, cos, p), view, p)
  {
    var s := cos[p].stack;
    var stacks', cos' := stacks[s := stacks[s].(occupy := p)], Displaced(stacks, cos, p);
    forall c | c in cos && c != p ensures CoInv(stacks', cos'[c], c, view[c], p, 0) {
      assert CoInv(stacks, cos[c], c, view[c], p, 0);
      assert cos[c].stack == cos[p].stack ==> cos[c].shared;
    }
  }

  // Recording the context of curr after the stack has changed hands is the same as before.
  lemma GiveRecorded(stacks: Stacks, cos: Cos, curr: Id, sp: nat, p: Id)
    requires curr in cos && p in cos && cos[p].stack in stacks
    requires OccupantOk(stacks, Recorded(cos, curr, sp), cos[p].stack, p)
    ensures OccupantOk(stacks, cos[curr := cos[curr].(sp := sp)], cos[p].stack, p)
    ensures var cos1 := cos[curr := cos[curr].(sp := sp)];
            var cos2 := Displaced(stacks, cos1, p);
            && curr in cos2 && cos2[curr := cos2[curr].(ctxSp := sp, atEntry := false)] == Displaced(stacks, Recorded(cos, curr, sp), p)
            && cos2[p].ctxSp == cos[p].ctxSp && (curr != p ==> cos2[p] == cos[p])
  {
  }

  // Nobody's stack, and no stack's size, has changed.
  ghost predicate SameSizes(stacks: Stacks, cos: Cos, stacks': Stacks, cos': Cos) {
    && cos'.Keys == cos.Keys && (forall c :: c in cos ==> cos'[c].stack == cos[c].stack)
    && stacks'.Keys == stacks.Keys && (forall s :: s in stacks ==> |stacks'[s].mem| == |stacks[s].mem|)
  }

  ghost predicate SameStarts(cos: Cos, cos': Cos) {
    cos'.Keys == cos.Keys && forall c :: c in cos ==> cos'[c].started == cos[c].started
  }

  lemma RecordKeeps(stacks: Stacks, cos: Cos, curr: Id, sp: nat)
    requires curr in cos
    ensures SameSizes(stacks, cos, stacks, Recorded(cos, curr, sp)) && SameStarts(cos, Recorded(cos, curr, sp))
  {
  }

  // Nothing but the save buffer of the occupant changes.
  lemma GiveKeeps(stacks: Stacks, cos0: Cos, cos: Cos, p: Id)
    requires p in cos && cos[p].stack in stacks && OccupantOk(stacks, cos, cos[p].stack, p)
    requires SameSizes(stacks, cos0, stacks, cos) && SameStarts(cos0, cos)
    ensures var cos' := Displaced(stacks, cos, p);
            && p in cos' && cos'[p] == cos[p] && SameStarts(cos0, cos')
            && SameSizes(stacks, cos0, stacks[cos[p].stack := stacks[cos[p].stack].(occupy := p)], cos')
  {
  }

  // What p regains: the bytes it left are in place, or in its save buffer if another occupied its stack.
  lemma Regain(stacks: Stacks, cos: Cos, view: View, p: Id)
    requires AllBut(stacks, cos, view, NULL) && p in cos && cos[p].started && p != NULL
    ensures cos[p].stack in stacks && cos[p].ctxSp == cos[p].sp && !cos[p].atEntry && cos[p].sp + |view[p]| == |stacks[cos[p].stack].mem|
    ensures var occ := stacks[cos[p].stack].occupy;
            if !cos[p].shared || occ == p then Intact(stacks[cos[p].stack].mem, cos[p].sp, view[p])
            else occ != NULL && cos[p].save == Saved(view[p])
  {
    assert CoInv(stacks, cos[p], p, view[p], NULL, 0);
  }

  // Writing to the stack that p occupies touches no other coroutine.
  lemma WriteStack(stacks: Stacks, cos: Cos, view: View, p: Id, mem: seq<Byte>)
    requires AllBut(stacks, cos, view, p) && p in cos && cos[p].stack in stacks && p != NULL
    requires |mem| == |stacks[cos[p].stack].mem| && (cos[p].shared ==> stacks[cos[p].stack].occupy == p)
    ensures AllBut(stacks[cos[p].stack := stacks[cos[p].stack].(mem := mem)], cos, view, p)
  {
    var stacks' := stacks[cos[p].stack := stacks[cos[p].stack].(mem := mem)];
    forall c | c in cos && c != p ensures CoInv(stacks', cos[c], c, view[c], p, 0) {
      assert CoInv(stacks, cos[c], c, view[c], p, 0);
      assert cos[c].stack == cos[p].stack ==> cos[c].shared && cos[p].shared;
    }
  }

  // The same invariant, whichever coroutine is left out.
  lemma Leave(stacks: Stacks, cos: Cos, view: View, p: Id)
    requires AllBut(stacks, cos, view, NULL) && NULL !in cos
    ensures AllBut(stacks, cos, view, p)
  {
    forall c | c in cos && c != p ensures CoInv(stacks, cos[c], c, view[c], p, 0) {
      assert CoInv(stacks, cos[c], c, view[c], NULL, 0);
    }
  }

  // Starting p changes nothing for the others.
  lemma Start(stacks: Stacks, cos: Cos, view: View, p: Id, co: Co)
    requires AllBut(stacks, cos, view, p) && p in cos && co.stack == cos[p].stack && co.shared == cos[p].shared
    requires co.started || !cos[p].started
    ensures AllBut(stacks, cos[p := co], view, p)
  {
    var cos' := cos[p := co];
    forall c | c in cos' && c != p ensures CoInv(stacks, cos'[c], c, view[c], p, 0) {
      assert CoInv(stacks, cos[c], c, view[c], p, 0);
    }
  }

  // All contexts are recorded, and that of p leads to its start or back to where it left off.
  ghost predicate Ready(stacks: Stacks, cos: Cos, view: View, p: Id) {
    && AllBut(stacks, cos, view, p) && p in cos && p != NULL && cos[p].started && cos[p].stack in stacks
    && var mem, occ := stacks[cos[p].stack].mem, stacks[cos[p].stack].occupy;
       if cos[p].atEntry then cos[p].ctxSp == |mem| && view[p] == []
       else
         && cos[p].ctxSp == cos[p].sp && cos[p].sp + |view[p]| == |mem|
         && if !cos[p].shared || occ == p then Intact(mem, cos[p].sp, view[p]) else occ != NULL && cos[p].save == Saved(view[p])
  }

  lemma StackOf(stacks: Stacks, cos: Cos, view: View, curr: Id, sp: nat, p: Id)
    requires Inv(stacks, cos, view, curr, sp) && p in cos
    ensures cos[p].stack in stacks && curr in cos && cos[curr].started
  {
    assert p != curr ==> CoInv(stacks, cos[p], p, view[p], curr, 0);
  }

  // A coroutine that has run before.
  lemma AgainReady(stacks: Stacks, cos: Cos, view: View, curr: Id, sp: nat, p: Id)
    requires Inv(stacks, cos, view, curr, sp) && p in cos && cos[p].started && NULL !in cos
    ensures Ready(stacks, Recorded(cos, curr, sp), view, p)
  {
    hide CoInv, Users;
    Record(stacks, cos, view, curr, sp);
    Leave(stacks, Recorded(cos, curr, sp), view, p);
    Regain(stacks, Recorded(cos, curr, sp), view, p);
  }

  // A coroutine that starts, with the context that coctx_make gives it.
  lemma StartReady(stacks: Stacks, cos: Cos, view: View, curr: Id, sp: nat, p: Id)
    requires Inv(stacks, cos, view, curr, sp) && p in cos && !cos[p].started && NULL !in cos && cos[p].stack in stacks
    ensures curr in cos && p != curr
    ensures var cos' := cos[p := cos[p].(ctxSp := |stacks[cos[p].stack].mem|, atEntry := true, started := true)];
            Ready(stacks, Recorded(cos', curr, sp), view, p)
  {
    var co := cos[p].(ctxSp := |stacks[cos[p].stack].mem|, atEntry := true, started := true);
    assert CoInv(stacks, cos[p], p, view[p], curr, 0);
    hide CoInv, Users;
    var cos1 := Recorded(cos, curr, sp);
    Record(stacks, cos, view, curr, sp);
    Leave(stacks, cos1, view, p);
    Start(stacks, cos1, view, p, co);
    assert Recorded(cos[p := co], curr, sp) == cos1[p := co];
  }

  // A coroutine that starts has put nothing on its stack.
  lemma Enter(stacks: Stacks, cos: Cos, view: View, p: Id, sp: nat)
    requires AllBut(stacks, cos, view, p) && p in cos && p != NULL && cos[p].started && cos[p].stack in stacks
    requires view[p] == [] && sp == |stacks[cos[p].stack].mem| && (cos[p].shared ==> stacks[cos[p].stack].occupy == p)
    ensures Inv(stacks, cos, view, p, sp)
  {
    hide AllBut;
  }

  class Env {
    var stacks: Stacks
    var cos: Cos
    var callStack: seq<Id>
    var pendingCo: Id
    var occupyCo: Id
    var sp: nat            // the stack pointer of the processor
    ghost var view: View   // the stacks the coroutines would have if each had its own

    function Running(): Id
      requires callStack != []
      reads this
    {
      callStack[|callStack| - 1]
    }

    ghost predicate Valid()
      reads this
    {
      && 0 < |callStack| <= CALL_STACK_SIZE && NULL !in cos
      && (forall i :: 0 <= i < |callStack| ==> callStack[i] in cos && cos[callStack[i]].started)
      && Inv(stacks, cos, view, Running(), sp)
    }

    // co_init_curr_thread_env: the main coroutine, on the stack of the thread
    constructor (main: Id, s: Id, mem: seq<Byte>)
      requires main != NULL
      ensures Valid() && callStack == [main] && view == map[main := []]
    {
      stacks := map[s := Stack(NULL, mem)];
      cos := map[main := Co(s, false, true, |mem|, |mem|, false, NoSave)];
      callStack, pendingCo, occupyCo, sp := [main], NULL, NULL, |mem|;
      view := map[main := []];
    }

    // co_alloc_stackmem
    method AllocStack(s: Id, mem: seq<Byte>)
      requires Valid() && s !in stacks
      modifies this`stacks
      ensures Valid() && stacks == old(stacks)[s := Stack(NULL, mem)]
    {
      NewStack(stacks, cos, view, Running(), sp, s, mem);
      stacks := stacks[s := Stack(NULL, mem)];
    }

    // co_create_env: a coroutine on stack s, which it has to itself unless all its users share it
    method Create(c: Id, s: Id, shared: bool)
      requires Valid() && c !in cos && c != NULL && s in stacks
      requires forall d :: d in cos && cos[d].stack == s ==> shared && cos[d].shared
      modifies this`cos, this`view
      ensures Valid() && cos == old(cos)[c := Co(s, shared, false, 0, 0, false, NoSave)] && view == old(view)[c := []]
    {
      hide Inv;
      NewCo(stacks, cos, view, Running(), sp, c, s, shared);
      cos := cos[c := Co(s, shared, false, 0, 0, false, NoSave)];
      view := view[c := []];
    }

    // co_swap up to coctx_swap, which saves the context of curr and loads that of pending
    method SwapOut(curr: Id, pending: Id)
      requires NULL !in cos && curr in cos && pending in cos && cos[pending].started && cos[pending].stack in stacks
      requires AllBut(stacks, Recorded(cos, curr, sp), view, pending)
      modifies this`cos, this`stacks, this`pendingCo, this`occupyCo, this`sp
      ensures AllBut(stacks, cos, view, pending)
      ensures SameStarts(old(cos), cos) && cos.Keys == old(cos.Keys)
      ensures cos[pending] == Recorded(old(cos), curr, old(sp))[pending] && sp == cos[pending].ctxSp
      ensures var s := cos[pending].stack;
              && SameSizes(old(stacks), old(cos), stacks, cos) && stacks[s].mem == old(stacks)[s].mem
              && (if cos[pending].shared then pendingCo == pending && occupyCo == old(stacks)[s].occupy && stacks[s].occupy == pending
                  else pendingCo == NULL && occupyCo == NULL)
    {
      hide CoInv, Users, AllBut, Displaced, OccupantOk, SavedOut, SameSizes, SameStarts;
      ghost var cos0, stacks0, cos1 := cos, stacks, Recorded(cos, curr, sp);
      Occupant(stacks, cos1, view, pending);
      RecordKeeps(stacks, cos, curr, sp);
      cos := cos[curr := cos[curr].(sp := sp)];
      if !cos[pending].shared {
        pendingCo, occupyCo := NULL, NULL;
        assert cos[curr := cos[curr].(ctxSp := sp, atEntry := false)] == cos1;
      } else {
        GiveRecorded(stacks0, cos0, curr, sp, pending);
        GiveKeeps(stacks0, cos0, cos1, pending);
        GiveTo(pending);
        GiveStack(stacks0, cos1, view, pending);
      }
      cos := cos[curr := cos[curr].(ctxSp := sp, atEntry := false)];
      sp := cos[pending].ctxSp;
    }

    // the part of co_swap for a pending coroutine on a shared stack
    method GiveTo(pending: Id)
      requires pending in cos && cos[pending].stack in stacks && OccupantOk(stacks, cos, cos[pending].stack, pending)
      modifies this`cos, this`stacks, this`pendingCo, this`occupyCo
      ensures pendingCo == pending && occupyCo == old(stacks)[old(cos)[pending].stack].occupy
      ensures stacks == old(stacks)[old(cos)[pending].stack := old(stacks)[old(cos)[pending].stack].(occupy := pending)]
      ensures cos == Displaced(old(stacks), old(cos), pending)
    {
      pendingCo := pending;
      var s := cos[pending].stack;
      var occ := stacks[s].occupy;
      stacks := stacks[s := stacks[s].(occupy := pending)];
      occupyCo := occ;
      if occ != NULL && occ != pending {
        SaveStackBuffer(occ);
      }
    }

    // co_swap after coctx_swap, in the coroutine that runs again; a coroutine that starts does not get here
    method SwapIn(ghost p: Id)
      requires AllBut(stacks, cos, view, p) && p in cos && p != NULL && cos[p].started && cos[p].stack in stacks && NULL !in cos
      requires sp == cos[p].sp && sp + |view[p]| == |stacks[cos[p].stack].mem|
      requires cos[p].shared ==> pendingCo == p && occupyCo != NULL && stacks[cos[p].stack].occupy == p
      requires !cos[p].shared ==> pendingCo == NULL && occupyCo == NULL
      requires if !cos[p].shared || occupyCo == p then Intact(stacks[cos[p].stack].mem, sp, view[p]) else cos[p].save == Saved(view[p])
      modifies this`stacks
      ensures Inv(stacks, cos, view, p, sp) && SameSizes(old(stacks), cos, stacks, cos)
    {
      hide AllBut;
      if occupyCo != NULL && pendingCo != NULL && occupyCo != pendingCo {
        if cos[pendingCo].save.Saved? && |cos[pendingCo].save.bytes| > 0 {
          var s := cos[pendingCo].stack;
          var mem := stacks[s].mem[..cos[pendingCo].sp] + cos[pendingCo].save.bytes;
          WriteStack(stacks, cos, view, p, mem);
          stacks := stacks[s := stacks[s].(mem := mem)];
        }
      }
    }

    // save_stack_buffer
    method SaveStackBuffer(occ: Id)
      requires occ in cos && cos[occ].stack in stacks && cos[occ].sp <= |stacks[cos[occ].stack].mem|
      modifies this`cos
      ensures cos == SavedOut(stacks, old(cos), occ)
    {
      var mem := stacks[cos[occ].stack].mem;
      cos := cos[occ := cos[occ].(save := Saved(mem[cos[occ].sp..]))];
    }

    // co_swap
    method Swap(curr: Id, pending: Id)
      requires NULL !in cos && curr in cos && pending in cos && Ready(stacks, Recorded(cos, curr, sp), view, pending)
      modifies this`cos, this`stacks, this`pendingCo, this`occupyCo, this`sp
      ensures Inv(stacks, cos, view, pending, sp)
      ensures cos.Keys == old(cos.Keys) && NULL !in cos && SameSizes(old(stacks), old(cos), stacks, cos)
      ensures forall c :: c in old(cos) ==> c in cos && cos[c].started == old(cos)[c].started
    {
      hide CoInv, AllBut, Users;
      SwapOut(curr, pending);
      if cos[pending].atEntry {
        Enter(stacks, cos, view, pending, sp);
      } else {
        SwapIn(pending);
      }
    }

    // co_resume
    method Resume(co: Id)
      requires Valid() && co in cos && |callStack| < CALL_STACK_SIZE
      modifies this
      ensures Valid() && callStack == old(callStack) + [co] && view == old(view)
      ensures SameSizes(old(stacks), old(cos), stacks, cos)
    {
      hide CoInv, AllBut, Users, Ready, Recorded;
      var curr := Running();
      StackOf(stacks, cos, view, curr, sp, co);
      if !cos[co].started {
        StartReady(stacks, cos, view, curr, sp, co);
        var mem := stacks[cos[co].stack].mem;
        cos := cos[co := cos[co].(ctxSp := |mem|, atEntry := true, started := true)];
      } else {
        AgainReady(stacks, cos, view, curr, sp, co);
      }
      callStack := callStack + [co];
      ghost var cos1 := cos;
      assert forall i :: 0 <= i < |callStack| ==> callStack[i] in cos && cos[callStack[i]].started;
      Swap(curr, co);
      forall i | 0 <= i < |callStack| ensures callStack[i] in cos && cos[callStack[i]].started {
        var c := callStack[i];
        assert c in cos1 && cos1[c].started;
      }
    }

    // co_yield_env
    method Yield()
      requires Valid() && |callStack| >= 2
      modifies this
      ensures Valid() && callStack == old(callStack)[..|old(callStack)| - 1] && view == old(view)
      ensures SameSizes(old(stacks), old(cos), stacks, cos)
    {
      hide CoInv, AllBut, Users, Ready, Recorded;
      var last := callStack[|callStack| - 2];
      var curr := callStack[|callStack| - 1];
      AgainReady(stacks, cos, view, curr, sp, last);
      callStack := callStack[..|callStack| - 1];
      ghost var cos1 := cos;
      assert forall i :: 0 <= i < |callStack| ==> callStack[i] in cos && cos[callStack[i]].started;
      Swap(curr, last);
      forall i | 0 <= i < |callStack| ensures callStack[i] in cos && cos[callStack[i]].started {
        var c := callStack[i];
        assert c in cos1 && cos1[c].started;
      }
    }

    // The running coroutine sees on its stack what it would see on a stack of its own.
    method Live() returns (bytes: seq<Byte>)
      requires Valid()
      ensures Running() in view && bytes == view[Running()]
    {
      bytes := stacks[cos[Running()].stack].mem[sp..];
    }

    // The running coroutine computes: it replaces its bytes by others, and may scribble below them.
    method Work(bytes: seq<Byte>, below: seq<Byte>)
      requires Valid() && cos[Running()].stack in stacks && |below| + |bytes| == |stacks[cos[Running()].stack].mem|
      modifies this`stacks, this`sp, this`view
      ensures Valid() && view == old(view)[Running() := bytes]
      ensures SameSizes(old(stacks), cos, stacks, cos)
    {
      hide AllBut, Users;
      var s := cos[Running()].stack;
      InvNull(stacks, cos, view, Running(), sp);
      WriteStack(stacks, cos, view, Running(), below + bytes);
      stacks := stacks[s := stacks[s].(mem := below + bytes)];
      sp := |below|;
      Rewritten(stacks, cos, view, Running(), bytes);
      view := view[Running() := bytes];
    }
  }

  lemma Occupant(stacks: Stacks, cos: Cos, view: View, p: Id)
    requires AllBut(stacks, cos, view, p) && p in cos && cos[p].stack in stacks
    ensures OccupantOk(stacks, cos, cos[p].stack, p)
  {
    var occ := stacks[cos[p].stack].occupy;
    if occ != NULL && occ != p {
      assert occ in cos && CoInv(stacks, cos[occ], occ, view[occ], p, 0);
    }
  }

  lemma InvNull(stacks: Stacks, cos: Cos, view: View, p: Id, sp: nat)
    requires Inv(stacks, cos, view, p, sp)
    ensures p != NULL && AllBut(stacks, cos, view, p) && cos[p].stack in stacks && (cos[p].shared ==> stacks[cos[p].stack].occupy == p)
  {
  }

  // The view of the coroutine left out does not matter to the others.
  lemma Rewritten(stacks: Stacks, cos: Cos, view: View, p: Id, bytes: seq<Byte>)
    requires AllBut(stacks, cos, view, p) && p in cos
    ensures AllBut(stacks, cos, view[p := bytes], p)
  {
    hide Users;
    forall c | c in cos && c != p ensures CoInv(stacks, cos[c], c, view[p := bytes][c], p, 0) {
      assert CoInv(stacks, cos[c], c, view[c], p, 0);
    }
  }

  lemma NewStack(stacks: Stacks, cos: Cos, view: View, running: Id, sp: nat, s: Id, mem: seq<Byte>)
    requires Inv(stacks, cos, view, running, sp) && s !in stacks
    ensures Inv(stacks[s := Stack(NULL, mem)], cos, view, running, sp)
  {
    var stacks' := stacks[s := Stack(NULL, mem)];
    forall c | c in cos && c != running ensures CoInv(stacks', cos[c], c, view[c], running, 0) {
      assert CoInv(stacks, cos[c], c, view[c], running, 0);
    }
  }

  lemma NewCo(stacks: Stacks, cos: Cos, view: View, running: Id, sp: nat, c: Id, s: Id, shared: bool)
    requires Inv(stacks, cos, view, running, sp) && c !in cos && c != NULL && s in stacks
    requires forall d :: d in cos && cos[d].stack == s ==> shared && cos[d].shared
    ensures Inv(stacks, cos[c := Co(s, shared, false, 0, 0, false, NoSave)], view[c := []], running, sp)
  {
    var co := Co(s, shared, false, 0, 0, false, NoSave);
    var cos', view' := cos[c := co], view[c := []];
    assert stacks[s].occupy != c;
    forall d | d in cos' && d != running ensures CoInv(stacks, cos'[d], d, view'[d], running, 0) {
      assert d != c ==> CoInv(stacks, cos[d], d, view[d], running, 0);
    }
  }

  // ----- every run -----

  // The same machine with a stack for each coroutine and no copying.
  datatype Private = Private(live: map<Id, seq<Byte>>, calls: seq<Id>)

  // What the running coroutine does: compute from what it sees, resume another, or yield.
  datatype Op =
    | Compute(f: seq<Byte> -> seq<Byte>, scribble: nat -> Byte)
    | ResumeCo(co: Id)
    | YieldCo

  function Step(m: Private, sizes: map<Id, nat>, op: Op): Private {
    if m.calls == [] || m.calls[|m.calls| - 1] !in m.live || m.calls[|m.calls| - 1] !in sizes then m
    else
      var running := m.calls[|m.calls| - 1];
      match op
      case Compute(f, _) =>
        if |f(m.live[running])| <= sizes[running] then m.(live := m.live[running := f(m.live[running])]) else m
      case ResumeCo(c) => if c in m.live && |m.calls| < CALL_STACK_SIZE then m.(calls := m.calls + [c]) else m
      case YieldCo => if |m.calls| >= 2 then m.(calls := m.calls[..|m.calls| - 1]) else m
  }

  function Steps(m: Private, sizes: map<Id, nat>, ops: seq<Op>): Private {
    if ops == [] then m else Step(Steps(m, sizes, ops[..|ops| - 1]), sizes, ops[|ops| - 1])
  }

  ghost function Sizes(stacks: Stacks, cos: Cos): map<Id, nat> {
    map c | c in cos && cos[c].stack in stacks :: |stacks[cos[c].stack].mem|
  }

  lemma SizesSame(stacks: Stacks, cos: Cos, stacks': Stacks, cos': Cos)
    requires SameSizes(stacks, cos, stacks', cos')
    ensures Sizes(stacks', cos') == Sizes(stacks, cos)
  {
    var a, b := Sizes(stacks', cos'), Sizes(stacks, cos);
    forall c ensures c in a <==> c in b ensures c in a ==> a[c] == b[c] {
      assert c in cos' <==> c in cos;
    }
    assert a.Keys == b.Keys;
  }

  // One step on shared stacks does what the same step does on private ones.
  method RunOne(env: Env, op: Op)
    requires env.Valid()
    modifies env
    ensures env.Valid() && Sizes(env.stacks, env.cos) == old(Sizes(env.stacks, env.cos))
    ensures Private(env.view, env.callStack) == Step(old(Private(env.view, env.callStack)), Sizes(env.stacks, env.cos), op)
  {
    hide Inv, Sizes;
    StackOf(env.stacks, env.cos, env.view, env.Running(), env.sp, env.Running());
    KeysOf(env.stacks, env.cos, env.view, env.Running(), env.sp);
    SizeAt(env.stacks, env.cos, env.Running());
    ghost var stacks, cos, m := env.stacks, env.cos, Private(env.view, env.callStack);
    match op
    case Compute(f, scribble) =>
      var bytes := env.Live();
      var bytes' := f(bytes);
      var size := |env.stacks[env.cos[env.Running()].stack].mem|;
      if |bytes'| <= size {
        env.Work(bytes', seq(size - |bytes'|, scribble));
        SizesSame(stacks, cos, env.stacks, env.cos);
      }
    case ResumeCo(c) =>
      if c in env.cos && |env.callStack| < CALL_STACK_SIZE {
        env.Resume(c);
        SizesSame(stacks, cos, env.stacks, env.cos);
      }
    case YieldCo =>
      if |env.callStack| >= 2 {
        env.Yield();
        SizesSame(stacks, cos, env.stacks, env.cos);
      }
  }

  lemma SizeAt(stacks: Stacks, cos: Cos, c: Id)
    requires c in cos && cos[c].stack in stacks
    ensures c in Sizes(stacks, cos) && Sizes(stacks, cos)[c] == |stacks[cos[c].stack].mem|
  {
  }

  lemma KeysOf(stacks: Stacks, cos: Cos, view: View, p: Id, sp: nat)
    requires Inv(stacks, cos, view, p, sp)
    ensures view.Keys == cos.Keys
  {
  }

  // Every run: whatever the coroutines compute, and whoever they resume, each sees the bytes it
  // would see on a stack of its own.
  method Run(env: Env, ops: seq<Op>) returns (bytes: seq<Byte>)
    requires env.Valid()
    modifies env
    ensures env.Valid()
    ensures Private(env.view, env.callStack) == Steps(old(Private(env.view, env.callStack)), old(Sizes(env.stacks, env.cos)), ops)
    ensures env.Running() in env.view && bytes == env.view[env.Running()]
  {
    hide Inv, Step, Sizes;
    ghost var m, sizes := Private(env.view, env.callStack), Sizes(env.stacks, env.cos);
    var i := 0;
    while i < |ops|
      invariant i <= |ops| && env.Valid() && Sizes(env.stacks, env.cos) == sizes
      invariant Private(env.view, env.callStack) == Steps(m, sizes, ops[..i])
    {
      assert ops[..i + 1][..i] == ops[..i];
      RunOne(env, ops[i]);
      i := i + 1;
    }
    assert ops[..i] == ops;
    bytes := env.Live();
  }
}
