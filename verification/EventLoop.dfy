/** `eloop_hisi_rtos.c` as it is: a linked list of timeout nodes edited at a cursor. A cursor `**cursor`
    of the source is the pair of the node it points at and the node (or the list head) that holds the
    pointer. Every operation is proved to act on the list as `TimerQueue` says. */
module EventLoop {
  import opened Bytes
  import opened TimerQueue
  import opened TimerTheorems
  import opened NoStarvation

  class Timeout {
    var next: Timeout?
    var deadline: U64
    var handler: Pointer
    var eloopData: Pointer
    var userData: Pointer
    ghost var serial: nat

    constructor (deadline: U64, what: Pattern, ghost serial: nat)
      ensures next == null && View() == Timer(deadline, what.handler, what.eloopData, what.userData, serial)
    {
      this.next := null;
      this.deadline := deadline;
      this.handler := what.handler;
      this.eloopData := what.eloopData;
      this.userData := what.userData;
      this.serial := serial;
    }

    ghost function View(): Timer
      reads this
    {
      Timer(deadline, handler, eloopData, userData, serial)
    }

    predicate IsMatch(p: Pattern)
      reads this
      ensures IsMatch(p) == Matches(View(), p)
    {
      handler == p.handler && ContextMatches(eloopData, p.eloopData) && ContextMatches(userData, p.userData)
    }
  }

  ghost function NodeAt(nodes: seq<Timeout>, i: nat): Timeout? {
    if i < |nodes| then nodes[i] else null
  }

  /** `nodes` is the list that starts at `head`. */
  ghost predicate Linked(head: Timeout?, nodes: seq<Timeout>)
    reads nodes
  {
    && head == NodeAt(nodes, 0)
    && (forall i, j :: 0 <= i < j < |nodes| ==> nodes[i] != nodes[j])
    && (forall i {:trigger nodes[i].next} :: 0 <= i < |nodes| ==> nodes[i].next == NodeAt(nodes, i + 1))
  }

  ghost function Inserted(nodes: seq<Timeout>, k: nat, t: Timeout): (r: seq<Timeout>)
    requires k <= |nodes|
    ensures |r| == |nodes| + 1
    ensures forall i {:trigger r[i]} :: 0 <= i < |r| ==>
              r[i] == if i < k then nodes[i] else if i == k then t else nodes[i - 1]
  {
    nodes[..k] + [t] + nodes[k..]
  }

  ghost function Removed(nodes: seq<Timeout>, k: nat): (r: seq<Timeout>)
    requires k < |nodes|
    ensures |r| == |nodes| - 1
    ensures forall i {:trigger r[i]} :: 0 <= i < |r| ==> r[i] == if i < k then nodes[i] else nodes[i + 1]
  {
    nodes[..k] + nodes[k + 1..]
  }

  ghost function Views(nodes: seq<Timeout>): seq<Timer>
    reads nodes
  {
    seq(|nodes|, i requires 0 <= i < |nodes| reads nodes => nodes[i].View())
  }

  class Eloop {
    var head: Timeout?
    var initialized: bool
    var terminate: bool
    var registrations: U32
    var failures: U32
    var executions: U32
    var ticks: nat
    var allocs: nat
    var calls: nat
    const env: Env
    ghost var wakes: nat
    ghost var serial: nat
    ghost var log: seq<Event>
    ghost var nodes: seq<Timeout>

    ghost predicate Valid()
      reads this, nodes
    {
      Linked(head, nodes)
    }

    ghost function View(): Loop
      reads this, nodes
    {
      Loop(Views(nodes), initialized, terminate, registrations, failures, executions, wakes, ticks, allocs, calls,
           serial, log)
    }

    constructor (env: Env)
      ensures Valid() && View() == FRESH && this.env == env && fresh(nodes)
    {
      this.env := env;
      head, nodes := null, [];
      initialized, terminate := false, false;
      registrations, failures, executions := 0, 0, 0;
      ticks, allocs, calls := 0, 0, 0;
      wakes, serial, log := 0, 0, [];
    }

    method WakeRunner()
      modifies this`wakes
      ensures wakes == old(wakes) + 1
    {
      wakes := wakes + 1;
    }

    method NowUs() returns (current: Option<U64>)
      modifies this`ticks
      ensures current == env.clock(old(ticks)) && ticks == old(ticks) + 1
    {
      current := env.clock(ticks);
      ticks := ticks + 1;
    }

    // ----- cursor steps -----

    /** `prev` and `cur` are a cursor at position `k`. */
    ghost predicate Cursor(prev: Timeout?, cur: Timeout?, k: nat)
      reads this
    {
      && k <= |nodes| && cur == NodeAt(nodes, k)
      && prev == if k == 0 then null else nodes[k - 1]
    }

    /** `timeout->next = *cursor; *cursor = timeout;` */
    method Splice(prev: Timeout?, cur: Timeout?, t: Timeout, ghost k: nat)
      requires Valid() && Cursor(prev, cur, k) && t !in nodes
      modifies this`head, this`nodes, t`next, nodes`next
      ensures Valid() && nodes == Inserted(old(nodes), k, t)
      ensures Views(nodes) == Spliced(old(Views(nodes)), k, t.View())
    {
      hide Inserted;
      t.next := cur;
      if prev == null { head := t; } else { prev.next := t; }
      nodes := Inserted(nodes, k, t);
    }

    /** `*cursor = timeout->next;` */
    method Unlink(prev: Timeout?, cur: Timeout, ghost k: nat)
      requires Valid() && Cursor(prev, cur, k)
      modifies this`head, this`nodes, nodes`next
      ensures Valid() && k < |old(nodes)| && nodes == Removed(old(nodes), k)
      ensures forall i :: 0 <= i < |nodes| ==> nodes[i] in old(nodes)
      ensures Views(nodes) == Drop(old(Views(nodes)), k)
    {
      hide Removed, Views;
      ghost var was := nodes;
      if prev == null { head := cur.next; } else { prev.next := cur.next; }
      SameViews(was);
      ViewsRemoved(was, k);
      nodes := Removed(nodes, k);
    }

    /** The loop of `insert_timeout`: the cursor behind all deadlines that are not later. */
    method Seek(deadline: U64) returns (prev: Timeout?, cur: Timeout?, ghost k: nat)
      requires Valid()
      ensures Cursor(prev, cur, k)
      ensures forall i :: 0 <= i < k ==> nodes[i].deadline <= deadline
      ensures k < |nodes| ==> nodes[k].deadline > deadline
    {
      prev, cur, k := null, head, 0;
      while cur != null && cur.deadline <= deadline
        invariant Cursor(prev, cur, k)
        invariant forall i :: 0 <= i < k ==> nodes[i].deadline <= deadline
        decreases |nodes| - k
      {
        prev, cur := cur, cur.next;
        k := k + 1;
      }
    }

    /** `insert_timeout`. */
    method InsertTimeout(t: Timeout)
      requires Valid() && t !in nodes
      modifies this`head, this`nodes, nodes`next, t`next
      ensures Valid() && Views(nodes) == Insert(old(Views(nodes)), t.View())
      ensures forall i :: 0 <= i < |nodes| ==> nodes[i] == t || nodes[i] in old(nodes)
    {
      hide Insert, Linked;
      var prev, cur, k := Seek(t.deadline);
      InsertIndexIs(Views(nodes), t.View(), k);
      Splice(prev, cur, t, k);
    }

    /** The cursor at the earliest match, or at the end. */
    method Find(what: Pattern) returns (prev: Timeout?, cur: Timeout?, ghost k: nat)
      requires Valid()
      ensures Cursor(prev, cur, k) && k == FirstMatch(Views(nodes), what)
    {
      prev, cur, k := null, head, 0;
      while cur != null && !cur.IsMatch(what)
        invariant Cursor(prev, cur, k)
        invariant forall i :: 0 <= i < k ==> !Matches(nodes[i].View(), what)
        decreases |nodes| - k
      {
        prev, cur := cur, cur.next;
        k := k + 1;
      }
      FirstMatchIs(Views(nodes), what, k);
    }

    // ----- the public operations -----

    method Init(inTask: bool) returns (r: int)
      requires Valid()
      modifies this
      ensures Valid() && (View(), r) == DoInit(old(View()), inTask)
      ensures forall i :: 0 <= i < |nodes| ==> nodes[i] in old(nodes)
    {
      if !inTask || initialized { return -1; }
      head, nodes := null, [];
      assert Views([]) == [];
      terminate := false;
      registrations, failures, executions := 0, 0, 0;
      initialized := true;
      return 0;
    }

    method RegisterTimeout(seconds: U32, microseconds: U32, what: Pattern) returns (r: int)
      requires Valid()
      modifies this, nodes`next
      ensures Valid() && (View(), r) == DoRegister(old(View()), env, seconds, microseconds, what)
      ensures forall i :: 0 <= i < |nodes| ==> nodes[i] in old(nodes) || fresh(nodes[i])
    {
      hide Linked, Views, Insert, Delta, SaturatingAdd;
      if !initialized || what.handler == NULL { return -1; }
      var current := NowUs();
      if current.None? { return -1; }
      var granted := env.alloc(allocs);
      allocs := allocs + 1;
      if !granted {
        failures := Mod32(failures + 1);
        return -1;
      }
      var t := new Timeout(SaturatingAdd(current.value, Delta(seconds, microseconds)), what, serial);
      Enqueue(t);
      return 0;
    }

    /** The last steps of `eloop_register_timeout`, for a node that has just been filled in. */
    method Enqueue(t: Timeout)
      requires Valid() && t !in nodes && t.View().serial == serial
      modifies this, nodes`next, t`next
      ensures Valid()
      ensures View() == old(View()).(queue := Insert(old(View()).queue, t.View()),
                                     registrations := Mod32(old(registrations) + 1),
                                     wakes := old(wakes) + 1, serial := old(serial) + 1,
                                         log := old(log) + [Registered(t.View())])
      ensures forall i :: 0 <= i < |nodes| ==> nodes[i] == t || nodes[i] in old(nodes)
    {
      hide Linked, Views, Insert;
      InsertTimeout(t);
      registrations := Mod32(registrations + 1);
      serial := serial + 1;
      log := log + [Registered(t.View())];
      WakeRunner();
    }

    method CancelTimeout(what: Pattern) returns (cancelled: nat)
      requires Valid()
      modifies this, nodes`next
      ensures Valid() && (View(), cancelled) == DoCancel(old(View()), what)
      ensures forall i :: 0 <= i < |nodes| ==> nodes[i] in old(nodes)
    {
      hide Linked, Views, Without;
      ghost var queue := Views(nodes);
      cancelled := CancelMatches(what);
      log := log + AllCancelled(Matching(queue, what));
      if cancelled != 0 { WakeRunner(); }
    }

    /** The loop of `eloop_cancel_timeout`: unlink every match. */
    method CancelMatches(what: Pattern) returns (cancelled: nat)
      requires Valid()
      modifies this`head, this`nodes, nodes`next
      ensures Valid() && Views(nodes) == Without(old(Views(nodes)), what)
      ensures cancelled == |Matching(old(Views(nodes)), what)|
      ensures forall i :: 0 <= i < |nodes| ==> nodes[i] in old(nodes)
    {
      hide Linked, Removed, Views, Swept, Inserted;
      ghost var queue := Views(nodes);
      var prev: Timeout?, cur := null, head;
      ghost var j, k := 0, 0;
      cancelled := 0;
      HeadCursor();
      SweptNothing(queue, what);
      while cur != null
        invariant Valid() && Cursor(prev, cur, k)
        invariant forall i :: 0 <= i < |nodes| ==> nodes[i] in old(nodes)
        invariant Swept(queue, what, j, k, Views(nodes), cancelled) && k <= |nodes|
        decreases |nodes| - k
      {
        NextCursor(k);
        SweepOne(queue, what, j, k, Views(nodes), cancelled);
        if !cur.IsMatch(what) {
          prev, cur := cur, cur.next;
          k := k + 1;
        } else {
          var rest := cur.next;
          Unlink(prev, cur, k);
          cur := rest;
          cancelled := cancelled + 1;
        }
        j := j + 1;
      }
      ViewsAt(nodes);
      SweptAll(queue, what, j, k, Views(nodes), cancelled);
    }

    method CancelTimeoutOne(what: Pattern) returns (remaining: Option<Remaining>)
      requires Valid()
      modifies this, nodes`next
      ensures Valid() && (View(), remaining) == DoCancelOne(old(View()), env, what)
      ensures forall i :: 0 <= i < |nodes| ==> nodes[i] in old(nodes)
    {
      hide Linked, Views, Inserted, Removed, Drop, FirstMatch;
      var reading := NowUs();
      var current := if reading.Some? then reading.value else 0;
      var prev, cur, k := Find(what);
      LengthOfViews();
      if cur == null { return None; }
      NextCursor(k);
      var left: U64 := if cur.deadline > current then cur.deadline - current else 0;
      TakeOut(prev, cur, k);
      return Some(RemainingOf(left));
    }

    method TakeOut(prev: Timeout?, cur: Timeout, ghost k: nat)
      requires Valid() && Cursor(prev, cur, k) && k < |nodes|
      modifies this, nodes`next
      ensures Valid() && k < |old(View()).queue|
      ensures View() == old(View()).(queue := Drop(old(View()).queue, k), wakes := old(wakes) + 1,
                                     log := old(log) + [Cancelled(old(View()).queue[k])])
      ensures forall i :: 0 <= i < |nodes| ==> nodes[i] in old(nodes)
    {
      hide Linked, Views, Inserted, Removed, Drop;
      NextCursor(k);
      log := log + [Cancelled(cur.View())];
      Detach(prev, cur, k);
      WakeRunner();
    }

    method IsTimeoutRegistered(what: Pattern) returns (found: bool)
      requires Valid()
      ensures found <==> exists i :: 0 <= i < |nodes| && Matches(nodes[i].View(), what)
    {
      var prev, cur, k := Find(what);
      ViewsAt(nodes);
      assert cur != null ==> Matches(nodes[k].View(), what);
      assert cur == null ==> forall i :: 0 <= i < |nodes| ==> !Matches(Views(nodes)[i], what);
      return cur != null;
    }

    /** `update_timeout`: take the earliest match out and put it back at its new deadline. */
    method UpdateTimeout(seconds: U32, microseconds: U32, what: Pattern, deplete: bool) returns (r: int)
      requires Valid()
      modifies this, nodes
      ensures Valid() && (View(), r) == DoUpdate(old(View()), env, seconds, microseconds, what, deplete)
      ensures forall i :: 0 <= i < |nodes| ==> nodes[i] in old(nodes)
    {
      hide Linked, Views, Inserted, Removed, Drop, FirstMatch, Insert, Delta, SaturatingAdd;
      var current := NowUs();
      if current.None? { return -1; }
      var requested := SaturatingAdd(current.value, Delta(seconds, microseconds));
      var prev, cur, k := Find(what);
      LengthOfViews();
      if cur == null { return -1; }
      NextCursor(k);
      var change := if deplete then cur.deadline > requested else cur.deadline < requested;
      if !change { return 0; }
      PutBack(prev, cur, k, requested);
      return 1;
    }

    method PutBack(prev: Timeout?, cur: Timeout, ghost k: nat, requested: U64)
      requires Valid() && Cursor(prev, cur, k) && k < |nodes|
      modifies this, nodes
      ensures Valid() && k < |old(View()).queue|
      ensures var t := old(View()).queue[k];
              View() == old(View()).(queue := Insert(Drop(old(View()).queue, k), t.(deadline := requested)),
                                     wakes := old(wakes) + 1, log := old(log) + [Moved(t, requested)])
      ensures forall i :: 0 <= i < |nodes| ==> nodes[i] in old(nodes)
    {
      hide Linked, Views, Inserted, Removed, Drop, Insert;
      NextCursor(k);
      log := log + [Moved(cur.View(), requested)];
      Requeue(prev, cur, k, requested);
      WakeRunner();
    }

    method Requeue(prev: Timeout?, cur: Timeout, ghost k: nat, requested: U64)
      requires Valid() && Cursor(prev, cur, k) && k < |nodes|
      modifies this`head, this`nodes, nodes
      ensures Valid() && k < |old(Views(nodes))|
      ensures Views(nodes) == Insert(Drop(old(Views(nodes)), k), old(cur.View()).(deadline := requested))
      ensures forall i :: 0 <= i < |nodes| ==> nodes[i] in old(nodes)
    {
      hide Inserted, Removed, Drop, Insert, Linked;
      assert cur == nodes[k];
      Detach(prev, cur, k);
      ghost var rest := Views(nodes);
      cur.deadline := requested;
      assert Views(nodes) == rest;
      InsertTimeout(cur);
    }

    method Detach(prev: Timeout?, cur: Timeout, ghost k: nat)
      requires Valid() && Cursor(prev, cur, k) && k < |nodes|
      modifies this`head, this`nodes, nodes`next
      ensures Valid() && cur !in nodes && k < |old(Views(nodes))| && Views(nodes) == Drop(old(Views(nodes)), k)
      ensures forall i :: 0 <= i < |nodes| ==> nodes[i] in old(nodes)
    {
      hide Inserted, Removed, Drop, Views;
      LengthOfViews();
      NotAfterRemoval(nodes, k);
      Unlink(prev, cur, k);
    }

    method Terminate()
      requires Valid()
      modifies this`terminate, this`wakes
      ensures Valid() && View() == old(View()).(terminate := true, wakes := old(wakes) + 1)
    {
      terminate := true;
      WakeRunner();
    }

    /** `eloop_destroy`: unlink from the front until the list is empty. */
    method Destroy()
      requires Valid()
      modifies this
      ensures Valid() && View() == DoDestroy(old(View())) && nodes == []
    {
      hide Linked, Views;
      ghost var queue := Views(nodes);
      while head != null
        invariant Valid()
        modifies this`head, this`nodes
        decreases |nodes|
      {
        LengthOfViews();
        PopFront();
      }
      LengthOfViews();
      log := log + AllDestroyed(queue);
      initialized := false;
      terminate := false;
      LengthOfViews();
    }

    /** `hisi_wpa_eloop_next_deadline_us`. */
    method NextDeadline() returns (deadline: U64)
      requires Valid()
      ensures deadline == NextDeadlineOf(View().queue)
    {
      LengthOfViews();
      return if head == null then U64_MAX else head.deadline;
    }

    // ----- running handlers -----

    method Perform(op: Op)
      requires Valid()
      modifies this, nodes
      ensures Valid() && View() == Apply(old(View()), env, op)
      ensures forall i :: 0 <= i < |nodes| ==> nodes[i] in old(nodes) || fresh(nodes[i])
    {
      hide Linked, Views, DoInit, DoRegister, DoCancel, DoCancelOne, DoUpdate, DoDestroy;
      match op
      case Init(inTask) => var _ := Init(inTask);
      case Register(seconds, microseconds, what) => var _ := RegisterTimeout(seconds, microseconds, what);
      case Cancel(what) => var _ := CancelTimeout(what);
      case CancelOne(what) => var _ := CancelTimeoutOne(what);
      case Deplete(seconds, microseconds, what) => var _ := UpdateTimeout(seconds, microseconds, what, true);
      case Replenish(seconds, microseconds, what) => var _ := UpdateTimeout(seconds, microseconds, what, false);
      case Terminate => Terminate();
      case Destroy => Destroy();
    }

    /** A handler's body: whatever it does to the loop. */
    method Handle(ops: seq<Op>)
      requires Valid()
      modifies this, nodes
      ensures Valid() && View() == ApplyAll(old(View()), env, ops)
      ensures forall i :: 0 <= i < |nodes| ==> nodes[i] in old(nodes) || fresh(nodes[i])
    {
      hide Linked, Views, Apply;
      for i := 0 to |ops|
        invariant Valid() && ApplyAll(old(View()), env, ops) == ApplyAll(View(), env, ops[i..])
        invariant forall i :: 0 <= i < |nodes| ==> nodes[i] in old(nodes) || fresh(nodes[i])
      {
        assert ops[i..][1..] == ops[i + 1..];
        Perform(ops[i]);
      }
    }

    /** Take the front timeout off and run its handler. */
    method FireFront()
      requires Valid() && head != null
      modifies this, nodes
      ensures Valid() && old(View()).queue != [] && View() == Fire(old(View()), env)
      ensures forall i :: 0 <= i < |nodes| ==> nodes[i] in old(nodes) || fresh(nodes[i])
    {
      hide Linked, Views, ApplyAll;
      var call := calls;
      var what := TakeFront();
      Handle(env.react(call, what));
      CountExecution();
    }

    /** Take the front timeout off and return the handler and its arguments. */
    method TakeFront() returns (what: Pattern)
      requires Valid() && head != null
      modifies this`head, this`nodes, this`log, this`calls
      ensures Valid() && old(View()).queue != [] && View() == Popped(old(View()))
              && what == CallOf(old(View()).queue[0])
      ensures forall i :: 0 <= i < |nodes| ==> nodes[i] in old(nodes)
    {
      hide Linked, Views;
      var timeout := head;
      ghost var t := timeout.View();
      PopFront();
      what := Pattern(timeout.handler, timeout.eloopData, timeout.userData);
      log := log + [Executed(t)];
      calls := calls + 1;
    }

    method CountExecution()
      requires Valid()
      modifies this`executions
      ensures Valid() && View() == old(View()).(executions := Mod32(old(View()).executions + 1))
    {
      executions := Mod32(executions + 1);
    }

    method PopFront()
      requires Valid() && head != null
      modifies this`head, this`nodes
      ensures Valid() && nodes == old(nodes)[1..] && old(nodes) != [] && old(head) == old(nodes)[0]
      ensures old(Views(nodes)) != [] && Views(nodes) == old(Views(nodes))[1..]
              && old(Views(nodes))[0] == old(head.View())
    {
      NextCursor(0);
      head := head.next;
      nodes := nodes[1..];
    }

    /** `hisi_wpa_eloop_run_once`. */
    method RunOnceNow(budget: U32) returns (completed: nat)
      requires Valid()
      modifies this, nodes
      ensures Valid() && (View(), completed) == RunOnce(old(View()), env, budget)
      ensures forall i :: 0 <= i < |nodes| ==> nodes[i] in old(nodes) || fresh(nodes[i])
    {
      hide Linked, Views, Fire;
      completed := 0;
      if !initialized || budget == 0 { return 0; }
      var running := true;
      while running && completed < budget && head != null
        invariant Valid() && completed <= budget
        invariant running ==> RunLoop(old(View()), env, budget, 0) == RunLoop(View(), env, budget, completed)
        invariant !running ==> RunLoop(old(View()), env, budget, 0) == (View(), completed)
        invariant forall i :: 0 <= i < |nodes| ==> nodes[i] in old(nodes) || fresh(nodes[i])
        decreases running, budget - completed
      {
        LengthOfViews();
        NextCursor(0);
        ghost var before := View();
        var current := NowUs();
        if current.None? || head.deadline > current.value {
          running := false;
        } else {
          RunUnfolds(before, env, budget, completed);
          FireFront();
          completed := completed + 1;
        }
      }
      LengthOfViews();
    }

    lemma LengthOfViews()
      requires Valid()
      ensures |Views(nodes)| == |nodes| && head == NodeAt(nodes, 0)
    {
    }

    lemma HeadCursor()
      requires Valid()
      ensures Cursor(null, head, 0)
    {
    }

    lemma NextCursor(k: nat)
      requires Valid() && k < |nodes|
      ensures nodes[k].next == NodeAt(nodes, k + 1)
      ensures |Views(nodes)| == |nodes| && Views(nodes)[k] == nodes[k].View()
    {
    }
  }

  /** What a node's fields say does not depend on its link. */
  twostate lemma SameViews(nodes: seq<Timeout>)
    requires forall i :: 0 <= i < |nodes| ==> nodes[i].View() == old(nodes[i].View())
    ensures Views(nodes) == old(Views(nodes))
  {
  }

  lemma ViewsRemoved(nodes: seq<Timeout>, k: nat)
    requires k < |nodes|
    ensures Views(Removed(nodes, k)) == Drop(Views(nodes), k)
  {
    hide Removed;
  }

  lemma NotAfterRemoval(nodes: seq<Timeout>, k: nat)
    requires k < |nodes| && forall i, j :: 0 <= i < j < |nodes| ==> nodes[i] != nodes[j]
    ensures nodes[k] !in Removed(nodes, k)
  {
  }

  lemma ViewsAt(nodes: seq<Timeout>)
    ensures |Views(nodes)| == |nodes| && forall i :: 0 <= i < |nodes| ==> Views(nodes)[i] == nodes[i].View()
  {
  }

  /** `j` timers of `queue` have been looked at, and `k` of them are left in front of the rest. */
  ghost predicate Swept(queue: seq<Timer>, what: Pattern, j: nat, k: nat, views: seq<Timer>, cancelled: nat) {
    && j <= |queue| && k <= |views|
    && views[..k] == Without(queue[..j], what) && views[k..] == queue[j..]
    && cancelled == |Matching(queue[..j], what)|
  }

  lemma SweptNothing(queue: seq<Timer>, what: Pattern)
    ensures Swept(queue, what, 0, 0, queue, 0)
  {
    assert queue[..0] == [];
  }

  lemma SweepOne(queue: seq<Timer>, what: Pattern, j: nat, k: nat, views: seq<Timer>, cancelled: nat)
    requires Swept(queue, what, j, k, views, cancelled) && k < |views|
    ensures !Matches(views[k], what) ==> Swept(queue, what, j + 1, k + 1, views, cancelled)
    ensures Matches(views[k], what) ==> Swept(queue, what, j + 1, k, Drop(views, k), cancelled + 1)
  {
    hide Matches, Without, Matching;
    assert queue[j] == queue[j..][0] == views[k..][0] == views[k];
    SnocMatches(queue, j, what);
    assert queue[j + 1..] == views[k + 1..];
    if !Matches(views[k], what) {
      assert views[..k + 1] == views[..k] + [views[k]];
    } else {
      assert Drop(views, k)[..k] == views[..k] && Drop(views, k)[k..] == views[k + 1..];
    }
  }

  lemma SweptAll(queue: seq<Timer>, what: Pattern, j: nat, k: nat, views: seq<Timer>, cancelled: nat)
    requires Swept(queue, what, j, k, views, cancelled) && k == |views|
    ensures views == Without(queue, what) && cancelled == |Matching(queue, what)|
  {
    assert views[..k] == views;
    assert queue[j..] == [] && queue[..j] == queue;
  }

  lemma SnocMatches(queue: seq<Timer>, j: nat, what: Pattern)
    requires j < |queue|
    ensures Without(queue[..j + 1], what) == Without(queue[..j], what) +
            if Matches(queue[j], what) then [] else [queue[j]]
    ensures |Matching(queue[..j + 1], what)| == |Matching(queue[..j], what)| + if Matches(queue[j], what) then 1 else 0
  {
    assert queue[..j + 1] == queue[..j] + [queue[j]];
    WithoutSplit(queue[..j], [queue[j]], what);
    WithoutMembers(queue[..j + 1], what);
    WithoutMembers(queue[..j], what);
  }

  lemma FirstMatchIs(queue: seq<Timer>, what: Pattern, k: nat)
    requires k <= |queue| && forall i :: 0 <= i < k ==> !Matches(queue[i], what)
    requires k < |queue| ==> Matches(queue[k], what)
    ensures FirstMatch(queue, what) == k
  {
  }

  lemma {:induction false} InsertIndexIs(queue: seq<Timer>, t: Timer, k: nat)
    requires k <= |queue| && forall i :: 0 <= i < k ==> queue[i].deadline <= t.deadline
    requires k < |queue| ==> queue[k].deadline > t.deadline
    ensures Insert(queue, t) == Spliced(queue, k, t)
  {
    InsertPosition(queue, t);
    InsertBound(queue, t.deadline);
    assert InsertIndex(queue, t.deadline) == k;
  }
}
