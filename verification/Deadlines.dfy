/** What the operations on timers mean in the caller's own terms: the time asked for, in seconds and
    microseconds; the handler and arguments named, wildcards included; when the runner is woken; what is counted;
    and that no timer runs before its time. The arithmetic is written out. */
module Deadlines {
  import opened Bytes
  import opened TimerQueue
  import opened TimerTheorems
  import opened NoStarvation

  /** The largest deadline is 2^64 - 1. */
  function Capped(time: nat): (r: U64)
    ensures r == time || (r == 0xffff_ffff_ffff_ffff && time > r)
  {
    if time <= 0xffff_ffff_ffff_ffff then time else 0xffff_ffff_ffff_ffff
  }

  /** So many seconds and microseconds after `now`. */
  function Asked(now: U64, seconds: U32, microseconds: U32): U64 { Capped(now + 1_000_000 * seconds + microseconds) }

  lemma AskedFor(now: U64, seconds: U32, microseconds: U32)
    ensures SaturatingAdd(now, Delta(seconds, microseconds)) == Asked(now, seconds, microseconds)
  {
  }

  /** The timer is for this handler, and for these arguments wherever they are not the wildcard -1. */
  predicate Fits(t: Timer, what: Pattern) {
    && t.handler == what.handler
    && (what.eloopData != -1 ==> t.eloopData == what.eloopData)
    && (what.userData != -1 ==> t.userData == what.userData)
  }

  lemma FitsMatches(t: Timer, what: Pattern)
    ensures Fits(t, what) <==> Matches(t, what)
  {
  }

  // ----- single operations -----

  /** A registration is granted exactly if the loop is initialized, there is a handler, the clock can be read
      and the allocation succeeds. Granted at the time `c`, it adds one timer, with the deadline asked for
      counted from `c`. */
  lemma RegisterMeaning(s: Loop, env: Env, seconds: U32, microseconds: U32, what: Pattern)
    requires Valid(s)
    ensures var (after, r) := DoRegister(s, env, seconds, microseconds, what);
            && (r == 0 || r == -1)
            && (r == 0 <==> s.initialized && what.handler != 0 && env.clock(s.ticks).Some? && env.alloc(s.allocs))
            && (r != 0 ==> after.queue == s.queue && after.log == s.log && after.registrations == s.registrations)
            && (r == 0 ==>
                  var t := Timer(Asked(env.clock(s.ticks).value, seconds, microseconds), what.handler, what.eloopData,
                                 what.userData, s.serial);
                  && after.log == s.log + [Registered(t)] && |after.queue| == |s.queue| + 1
                  && (forall x :: x in after.queue <==> x == t || x in s.queue) && t !in s.queue
                  && after.registrations == (s.registrations + 1) % 0x1_0000_0000)
            && after.failures == (if r != 0 && s.initialized && what.handler != 0 && env.clock(s.ticks).Some?
                                  then (s.failures + 1) % 0x1_0000_0000 else s.failures)
  {
    hide Insert, Delta, SaturatingAdd, Balanced, TiesInOrder, Sorted, Distinct;
    if env.clock(s.ticks).Some? {
      AskedFor(env.clock(s.ticks).value, seconds, microseconds);
      var t := Timer(Asked(env.clock(s.ticks).value, seconds, microseconds), what.handler, what.eloopData,
                     what.userData,
                     s.serial);
      InsertKeeps(s.queue, t);
    }
  }

  /** Cancelling takes away exactly the timers that fit, wildcards included, and returns how many. */
  lemma CancelMeaning(s: Loop, what: Pattern)
    requires Valid(s)
    ensures var (after, r) := DoCancel(s, what);
            && (forall x :: x in after.queue <==> x in s.queue && !Fits(x, what))
            && r == |s.queue| - |after.queue|
            && (forall x, y :: Precedes(after.queue, x, y) <==>
                 Precedes(s.queue, x, y) && !Fits(x, what) && !Fits(y, what))
  {
    hide Matches, Precedes, Without, Matching, Fits, Sorted, Distinct, Balanced, TiesInOrder;
    WithoutKeeps(s.queue, what);
    forall x {
      FitsMatches(x, what);
    }
  }

  /** The earliest timer that fits, or the length of the queue. */
  lemma FirstFit(queue: seq<Timer>, what: Pattern)
    ensures var k := FirstMatch(queue, what);
            && (k < |queue| ==> Fits(queue[k], what)) && forall i :: 0 <= i < k ==> !Fits(queue[i], what)
  {
    hide Fits, Matches;
    forall x {
      FitsMatches(x, what);
    }
  }

  /** Cancel-one takes away the earliest timer that fits, if there is one. */
  lemma CancelOneFits(s: Loop, env: Env, what: Pattern)
    requires Valid(s)
    ensures var (after, r) := DoCancelOne(s, env, what);
            && (r.None? ==> after.queue == s.queue && forall x :: x in s.queue ==> !Fits(x, what))
            && (r.Some? ==>
                  exists k ::
                    && 0 <= k < |s.queue| && Fits(s.queue[k], what)
                       && (forall i :: 0 <= i < k ==> !Fits(s.queue[i], what))
                    && after.queue == s.queue[..k] + s.queue[k + 1..])
  {
    hide Fits, Valid;
    FirstFit(s.queue, what);
  }

  /** Deplete and replenish ask for the same time as a registration would. They fail exactly if the clock cannot be
      read or no timer fits; they move the earliest that does exactly if that is earlier, or later, than its
      deadline; and they return 1 then and 0 otherwise. */
  lemma UpdateDeadline(s: Loop, env: Env, seconds: U32, microseconds: U32, what: Pattern, deplete: bool)
    requires Valid(s)
    ensures var (after, r) := DoUpdate(s, env, seconds, microseconds, what, deplete);
            var k := FirstMatch(s.queue, what);
            && (r == -1 <==> env.clock(s.ticks).None? || k == |s.queue|)
            && (r == -1 ==> after.queue == s.queue && after.log == s.log)
            && (r != -1 ==>
                  var t, asked := s.queue[k], Asked(env.clock(s.ticks).value, seconds, microseconds);
                  && Fits(t, what) && (forall i :: 0 <= i < k ==> !Fits(s.queue[i], what))
                  && r == (if (if deplete then asked < t.deadline else asked > t.deadline) then 1 else 0)
                  && (r == 0 ==> after.queue == s.queue && after.log == s.log)
                  && (r == 1 ==> && after.log == s.log + [Moved(t, asked)]
                                 && forall x :: x in after.queue <==>
                                      x == t.(deadline := asked) || (x in s.queue && x.serial != t.serial)))
  {
    hide Fits, Insert, Drop, Delta, SaturatingAdd, Valid, Precedes;
    FirstFit(s.queue, what);
    ValidOrder(s);
    if env.clock(s.ticks).Some? && FirstMatch(s.queue, what) < |s.queue| {
      AskedFor(env.clock(s.ticks).value, seconds, microseconds);
      MoveMeaning(s.queue, FirstMatch(s.queue, what), Asked(env.clock(s.ticks).value, seconds, microseconds));
    }
  }

  // ----- when the runner is woken -----

  lemma CancelWakes(s: Loop, what: Pattern)
    ensures var after := DoCancel(s, what).0;
            after.wakes == s.wakes + if after.queue != s.queue then 1 else 0
  {
    hide Without, Matching;
    WithoutMembers(s.queue, what);
    if Matching(s.queue, what) == [] {
      NothingWithout(s.queue, what);
    }
  }

  lemma {:induction false} NothingWithout(queue: seq<Timer>, p: Pattern)
    requires Matching(queue, p) == []
    ensures Without(queue, p) == queue
  {
    hide Matches;
    if queue != [] {
      NothingWithout(queue[1..], p);
      assert queue == [queue[0]] + queue[1..];
    }
  }

  /** The runner is woken exactly when the queue changes, and when it is to stop; destruction alone, which ends the
      loop, changes the queue without it. */
  lemma WokenOnChange(s: Loop, env: Env, op: Op)
    requires Valid(s)
    ensures var after := Apply(s, env, op);
            !op.Destroy? ==> after.wakes == s.wakes + if op.Terminate? || after.queue != s.queue then 1 else 0
    ensures op.Destroy? ==> Apply(s, env, op).wakes == s.wakes
  {
    hide Without, Matching, Insert, Drop, Delta, SaturatingAdd, Matches, Precedes;
    match op {
      case Register(seconds, microseconds, what) =>
        hide Valid;
        RegisterMeaning(s, env, seconds, microseconds, what);
      case Cancel(what) => CancelWakes(s, what);
      case CancelOne(what) => CancelOneWakes(s, env, what);
      case Deplete(seconds, microseconds, what) => UpdateWakes(s, env, seconds, microseconds, what, true);
      case Replenish(seconds, microseconds, what) => UpdateWakes(s, env, seconds, microseconds, what, false);
      case _ =>
    }
  }

  lemma CancelOneWakes(s: Loop, env: Env, what: Pattern)
    ensures var after := DoCancelOne(s, env, what).0;
            after.wakes == s.wakes + if after.queue != s.queue then 1 else 0
  {
    var k := FirstMatch(s.queue, what);
    if k < |s.queue| {
      assert |Drop(s.queue, k)| == |s.queue| - 1;
    }
  }

  lemma UpdateWakes(s: Loop, env: Env, seconds: U32, microseconds: U32, what: Pattern, deplete: bool)
    requires Valid(s)
    ensures var after := DoUpdate(s, env, seconds, microseconds, what, deplete).0;
            after.wakes == s.wakes + if after.queue != s.queue then 1 else 0
  {
    UpdateDeadline(s, env, seconds, microseconds, what, deplete);
    ValidOrder(s);
    hide Insert, Drop, Delta, SaturatingAdd, Valid, Fits, Sorted, TiesInOrder;
    var (after, r) := DoUpdate(s, env, seconds, microseconds, what, deplete);
    if r == 1 {
      var k := FirstMatch(s.queue, what);
      var asked := Asked(env.clock(s.ticks).value, seconds, microseconds);
      assert s.queue[k].(deadline := asked) in after.queue;
      MovedIsNew(s.queue, k, asked);
    }
  }

  lemma MovedIsNew(queue: seq<Timer>, k: nat, deadline: U64)
    requires Distinct(queue) && k < |queue| && queue[k].deadline != deadline
    ensures queue[k].(deadline := deadline) !in queue
  {
    forall i | 0 <= i < |queue|
      ensures queue[i] != queue[k].(deadline := deadline)
    {
      assert i != k ==> queue[i].serial != queue[k].serial;
    }
  }

  // ----- no timer runs before its time -----

  lemma RunUnfoldsTicked(s: Loop, env: Env, budget: U32, completed: nat)
    requires completed < budget && FrontDue(s, env)
    ensures RunLoop(s, env, budget, completed) == RunLoop(Fire(Ticked(s), env), env, budget, completed + 1)
  {
    RunUnfolds(s, env, budget, completed);
  }

  lemma RunStops(s: Loop, env: Env, budget: U32, completed: nat)
    requires completed <= budget && !(completed < budget && FrontDue(s, env))
    ensures RunLoop(s, env, budget, completed).1 == completed
    ensures RunLoop(s, env, budget, completed).0 == s || RunLoop(s, env, budget, completed).0 == Ticked(s)
  {
  }

  /** From reading `from` on, the clock never shows `time` or later. */
  ghost predicate Before(env: Env, from: nat, time: U64) {
    forall n: nat :: n >= from && env.clock(n).Some? ==> env.clock(n).value < time
  }

  /** No event moves the timer of this serial, and none executes it. */
  ghost predicate Unmoved(log: seq<Event>, serial: nat) {
    forall i :: 0 <= i < |log| && log[i].timer.serial == serial ==> !log[i].Moved?
  }

  ghost predicate Unexecuted(log: seq<Event>, serial: nat) {
    forall i :: 0 <= i < |log| && log[i].timer.serial == serial ==> !log[i].Executed?
  }

  /** If the timer is in the queue, it is there as `t`. */
  ghost predicate OnlyAs(s: Loop, t: Timer) {
    t.serial < s.serial && forall x :: x in s.queue && x.serial == t.serial ==> x == t
  }

  /** Unless something moves `t`, it is not executed, and it is as it was or gone. */
  ghost predicate Waits(s: Loop, after: Loop, t: Timer) {
    && s.log <= after.log && s.ticks <= after.ticks
    && (Unmoved(Suffix(s, after), t.serial) ==> OnlyAs(after, t) && Unexecuted(Suffix(s, after), t.serial))
  }

  lemma UnmovedAppend(first: seq<Event>, second: seq<Event>, serial: nat)
    ensures Unmoved(first + second, serial) <==> Unmoved(first, serial) && Unmoved(second, serial)
    ensures Unexecuted(first + second, serial) <==> Unexecuted(first, serial) && Unexecuted(second, serial)
  {
    var all := first + second;
    assert forall i :: 0 <= i < |first| ==> all[i] == first[i];
    assert forall i :: 0 <= i < |second| ==> all[|first| + i] == second[i];
    forall i | 0 <= i < |all|
      ensures all[i] == if i < |first| then first[i] else second[i - |first|]
    {
    }
  }

  lemma WaitsTwice(a: Loop, b: Loop, c: Loop, t: Timer)
    requires Waits(a, b, t) && b.log <= c.log && b.ticks <= c.ticks && (OnlyAs(b, t) ==> Waits(b, c, t))
    ensures Waits(a, c, t)
  {
    hide Unmoved, Unexecuted, OnlyAs;
    SuffixTwo(a, b, c);
    UnmovedAppend(Suffix(a, b), Suffix(b, c), t.serial);
  }

  lemma ApplyWaits(s: Loop, env: Env, op: Op, t: Timer)
    requires Valid(s) && OnlyAs(s, t)
    ensures Waits(s, Apply(s, env, op), t)
  {
    var after := Apply(s, env, op);
    hide Valid, Insert, Without, Matching, Drop, Delta, SaturatingAdd, Matches, FirstMatch;
    match op {
      case Register(seconds, microseconds, what) =>
        RegisterMeaning(s, env, seconds, microseconds, what);
        assert Suffix(s, after) == if after.log == s.log then [] else [after.log[|s.log|]];
      case Cancel(what) =>
        WithoutMembers(s.queue, what);
        assert Suffix(s, after) == AllCancelled(Matching(s.queue, what));
      case CancelOne(what) =>
        ValidOrder(s);
        if FirstMatch(s.queue, what) < |s.queue| { DropKeeps(s.queue, FirstMatch(s.queue, what)); }
        assert Suffix(s, after) == if after.log == s.log then [] else [after.log[|s.log|]];
      case Deplete(seconds, microseconds, what) => UpdateWaits(s, env, seconds, microseconds, what, true, t);
      case Replenish(seconds, microseconds, what) => UpdateWaits(s, env, seconds, microseconds, what, false, t);
      case Destroy => assert Suffix(s, after) == AllDestroyed(s.queue);
      case _ => assert Suffix(s, after) == [];
    }
  }

  lemma UpdateWaits(s: Loop, env: Env, seconds: U32, microseconds: U32, what: Pattern, deplete: bool, t: Timer)
    requires Valid(s) && OnlyAs(s, t)
    ensures Waits(s, DoUpdate(s, env, seconds, microseconds, what, deplete).0, t)
  {
    UpdateDeadline(s, env, seconds, microseconds, what, deplete);
    hide Insert, Drop, Delta, SaturatingAdd, Valid, Fits, FirstMatch;
    var after := DoUpdate(s, env, seconds, microseconds, what, deplete).0;
    assert Suffix(s, after) == if after.log == s.log then [] else [after.log[|s.log|]];
    var k := FirstMatch(s.queue, what);
    if after.log != s.log {
      assert s.queue[k] in s.queue;
    }
  }

  lemma {:induction false} ApplyAllWaits(s: Loop, env: Env, ops: seq<Op>, t: Timer)
    requires Valid(s) && OnlyAs(s, t)
    ensures Waits(s, ApplyAll(s, env, ops), t)
    decreases |ops|
  {
    hide Apply, Valid, OnlyAs, Unmoved, Unexecuted;
    if ops == [] {
      NothingWaits(s, t);
    } else {
      var next := Apply(s, env, ops[0]);
      ApplyWaits(s, env, ops[0], t);
      ApplyKeepsValid(s, env, ops[0]);
      AllGrows(next, env, ops[1..]);
      if OnlyAs(next, t) {
        ApplyAllWaits(next, env, ops[1..], t);
      }
      WaitsTwice(s, next, ApplyAll(next, env, ops[1..]), t);
    }
  }

  lemma NothingWaits(s: Loop, t: Timer)
    requires OnlyAs(s, t)
    ensures Waits(s, s, t)
  {
    assert Suffix(s, s) == [];
  }

  lemma ApplyTicks(s: Loop, env: Env, op: Op)
    ensures s.ticks <= Apply(s, env, op).ticks
  {
    hide Insert, Without, Matching, Drop, Delta, SaturatingAdd, Matches, FirstMatch;
  }

  lemma {:induction false} AllGrows(s: Loop, env: Env, ops: seq<Op>)
    ensures s.log <= ApplyAll(s, env, ops).log && s.ticks <= ApplyAll(s, env, ops).ticks
    decreases |ops|
  {
    hide Apply;
    if ops != [] {
      ApplyLogGrows(s, env, ops[0]);
      ApplyTicks(s, env, ops[0]);
      AllGrows(Apply(s, env, ops[0]), env, ops[1..]);
    }
  }

  /** A timer that fires is not `t`, if `t` is not due. */
  lemma FireWaits(s: Loop, env: Env, t: Timer)
    requires Valid(s) && s.queue != [] && OnlyAs(s, t) && s.queue[0].deadline < t.deadline
    ensures Waits(s, Fire(s, env), t)
  {
    var s1 := Popped(s);
    var ops := env.react(s.calls, CallOf(s.queue[0]));
    PoppedValid(s);
    assert s.queue[0] in s.queue;
    assert Suffix(s, s1) == [Executed(s.queue[0])];
    assert Waits(s, s1, t) && OnlyAs(s1, t);
    hide Valid, ApplyAll, OnlyAs, Unmoved, Unexecuted;
    ApplyAllWaits(s1, env, ops, t);
    AllGrows(s1, env, ops);
    WaitsTwice(s, s1, ApplyAll(s1, env, ops), t);
    CountedWaits(s, ApplyAll(s1, env, ops), Fire(s, env), t);
  }

  lemma CountedWaits(s: Loop, after: Loop, counted: Loop, t: Timer)
    requires Waits(s, after, t) && counted.queue == after.queue && counted.log == after.log
    requires counted.ticks == after.ticks && counted.serial == after.serial
    ensures Waits(s, counted, t)
  {
  }

  lemma {:induction false} RunGrows(s: Loop, env: Env, budget: U32, completed: nat)
    requires completed <= budget
    ensures s.log <= RunLoop(s, env, budget, completed).0.log && s.ticks <= RunLoop(s, env, budget, completed).0.ticks
    decreases budget - completed
  {
    hide Fire;
    if completed < budget && s.queue != [] {
      var s1 := s.(ticks := s.ticks + 1);
      if env.clock(s.ticks).Some? && s.queue[0].deadline <= env.clock(s.ticks).value {
        AllGrows(Popped(s1), env, env.react(s.calls, CallOf(s.queue[0])));
        assert Fire(s1, env).ticks == ApplyAll(Popped(s1), env, env.react(s.calls, CallOf(s.queue[0]))).ticks by {
          FiredIs(s1, env);
        }
        FireLogGrows(s1, env);
        RunGrows(Fire(s1, env), env, budget, completed + 1);
      }
    }
  }

  lemma FiredIs(s: Loop, env: Env)
    requires s.queue != []
    ensures var after := ApplyAll(Popped(s), env, env.react(s.calls, CallOf(s.queue[0])));
            Fire(s, env) == after.(executions := (after.executions + 1) % 0x1_0000_0000)
  {
  }

  lemma TickWaits(s: Loop, t: Timer)
    requires Valid(s) && OnlyAs(s, t)
    ensures var s1 := s.(ticks := s.ticks + 1); Valid(s1) && Waits(s, s1, t) && OnlyAs(s1, t)
  {
    TickValid(s);
    hide Valid;
    assert Suffix(s, s.(ticks := s.ticks + 1)) == [];
  }

  lemma {:induction false} RunWaits(s: Loop, env: Env, budget: U32, completed: nat, t: Timer)
    requires Valid(s) && OnlyAs(s, t) && Before(env, s.ticks, t.deadline) && completed <= budget
    ensures Waits(s, RunLoop(s, env, budget, completed).0, t)
    decreases budget - completed
  {
    hide RunLoop, Fire, Valid, OnlyAs, Unmoved, Unexecuted;
    var s1 := Ticked(s);
    TickWaits(s, t);
    if completed < budget && FrontDue(s, env) {
      RunUnfoldsTicked(s, env, budget, completed);
      var fired := Fire(s1, env);
      FireWaits(s1, env, t);
      FireKeepsValid(s1, env);
      RunGrows(fired, env, budget, completed + 1);
      var after := RunLoop(fired, env, budget, completed + 1).0;
      if OnlyAs(fired, t) {
        RunWaits(fired, env, budget, completed + 1, t);
      }
      WaitsTwice(s1, fired, after, t);
      WaitsTwice(s, s1, after, t);
    } else {
      RunStops(s, env, budget, completed);
      NothingWaits(s, t);
    }
  }

  /** Never early: while the clock stays below its deadline, no call of `run_once` executes a timer, whatever the
      handlers do, unless one of them moves it. */
  lemma NeverEarly(s: Loop, env: Env, budget: U32, t: Timer)
    requires Valid(s) && t in s.queue && Before(env, s.ticks, t.deadline)
    ensures var after := RunOnce(s, env, budget).0;
            && s.log <= after.log
            && (Unmoved(Suffix(s, after), t.serial) ==> Unexecuted(Suffix(s, after), t.serial))
  {
    hide RunLoop, Unmoved, Unexecuted;
    QueuedOnly(s, t);
    if s.initialized && budget != 0 {
      RunWaits(s, env, budget, 0, t);
    } else {
      NothingWaits(s, t);
    }
  }

  lemma QueuedOnly(s: Loop, t: Timer)
    requires Valid(s) && t in s.queue
    ensures OnlyAs(s, t)
  {
    var i :| 0 <= i < |s.queue| && s.queue[i] == t;
    hide Sorted, TiesInOrder, Balanced;
  }

  /** So for a registration: granted at the time `c` for so many seconds and microseconds, the timer is not executed
      by a call of `run_once` in which the clock stays below that time, counted from `c`. */
  lemma RegisteredNeverEarly(s: Loop, env: Env, seconds: U32, microseconds: U32, what: Pattern, budget: U32)
    requires Valid(s) && s.initialized && what.handler != 0 && env.clock(s.ticks).Some? && env.alloc(s.allocs)
    requires var due := env.clock(s.ticks).value + 1_000_000 * seconds + microseconds;
             due < 0x1_0000_0000_0000_0000
             && Before(env, s.ticks + 1, due)
    ensures var registered := DoRegister(s, env, seconds, microseconds, what).0;
            var after := RunOnce(registered, env, budget).0;
            && registered.log <= after.log
            && (Unmoved(Suffix(registered, after), s.serial) ==> Unexecuted(Suffix(registered, after), s.serial))
  {
    hide Valid, Unmoved, Unexecuted, RunOnce;
    RegisterMeaning(s, env, seconds, microseconds, what);
    RegisterKeepsValid(s, env, seconds, microseconds, what);
    RegisterTicks(s, env, seconds, microseconds, what);
    var t := Timer(Asked(env.clock(s.ticks).value, seconds, microseconds), what.handler, what.eloopData, what.userData,
                   s.serial);
    NeverEarly(DoRegister(s, env, seconds, microseconds, what).0, env, budget, t);
  }

  lemma RegisterTicks(s: Loop, env: Env, seconds: U32, microseconds: U32, what: Pattern)
    requires s.initialized && what.handler != 0
    ensures DoRegister(s, env, seconds, microseconds, what).0.ticks == s.ticks + 1
  {
    hide Insert, Delta, SaturatingAdd;
  }

  // ----- what a call of the loop counts -----

  lemma ApplyExecutesNothing(s: Loop, env: Env, op: Op)
    ensures s.log <= Apply(s, env, op).log && ExecutedIn(Suffix(s, Apply(s, env, op))) == []
  {
    ApplyLogGrows(s, env, op);
    var log := Suffix(s, Apply(s, env, op));
    hide Insert, Without, Matching, Drop, Delta, SaturatingAdd, Matches, FirstMatch, ExecutedIn;
    NoneExecuted(log);
  }

  lemma {:induction false} ApplyAllExecutesNothing(s: Loop, env: Env, ops: seq<Op>)
    ensures s.log <= ApplyAll(s, env, ops).log && ExecutedIn(Suffix(s, ApplyAll(s, env, ops))) == []
    decreases |ops|
  {
    hide Apply, ExecutedIn;
    if ops == [] {
      assert Suffix(s, s) == [];
      NoneExecuted([]);
    } else {
      var next := Apply(s, env, ops[0]);
      ApplyExecutesNothing(s, env, ops[0]);
      ApplyAllExecutesNothing(next, env, ops[1..]);
      SuffixTwo(s, next, ApplyAll(next, env, ops[1..]));
      ExecutedAppend(Suffix(s, next), Suffix(next, ApplyAll(next, env, ops[1..])));
    }
  }

  lemma FireExecutesOne(s: Loop, env: Env)
    requires s.queue != []
    ensures s.log <= Fire(s, env).log && ExecutedIn(Suffix(s, Fire(s, env))) == [s.queue[0]]
  {
    var s1 := Popped(s);
    var after := ApplyAll(s1, env, env.react(s.calls, CallOf(s.queue[0])));
    FiredIs(s, env);
    ApplyAllExecutesNothing(s1, env, env.react(s.calls, CallOf(s.queue[0])));
    var own := [Executed(s.queue[0])];
    assert Suffix(s, s1) == own;
    assert ExecutedIn(own) == [s.queue[0]];
    hide ExecutedIn, ApplyAll, Fire;
    SuffixTwo(s, s1, after);
    ExecutedAppend(own, Suffix(s1, after));
  }

  lemma {:induction false} RunCounts(s: Loop, env: Env, budget: U32, completed: nat)
    requires completed <= budget
    ensures var (after, n) := RunLoop(s, env, budget, completed);
            s.log <= after.log && n == completed + |ExecutedIn(Suffix(s, after))|
    decreases budget - completed
  {
    hide RunLoop, Fire, ExecutedIn;
    if completed < budget && FrontDue(s, env) {
      var s1 := Ticked(s);
      RunUnfoldsTicked(s, env, budget, completed);
      FireExecutesOne(s1, env);
      RunCounts(Fire(s1, env), env, budget, completed + 1);
      var after := RunLoop(Fire(s1, env), env, budget, completed + 1).0;
      SuffixTwo(s1, Fire(s1, env), after);
      ExecutedAppend(Suffix(s1, Fire(s1, env)), Suffix(Fire(s1, env), after));
    } else {
      RunStops(s, env, budget, completed);
      assert Suffix(s, RunLoop(s, env, budget, completed).0) == [];
      NoneExecuted([]);
    }
  }

  /** What `run_once` returns is the number of handlers it has run, at most its budget. */
  lemma ReturnsWork(s: Loop, env: Env, budget: U32)
    ensures var (after, n) := RunOnce(s, env, budget);
            s.log <= after.log && n == |ExecutedIn(Suffix(s, after))| <= budget
  {
    hide RunLoop;
    if s.initialized && budget != 0 {
      RunCounts(s, env, budget, 0);
      WithinBudget(s, env, budget, 0);
    } else {
      assert Suffix(s, s) == [];
    }
  }

  lemma {:induction false} WithinBudget(s: Loop, env: Env, budget: U32, completed: nat)
    requires completed <= budget
    ensures RunLoop(s, env, budget, completed).1 <= budget
    decreases budget - completed
  {
    hide Fire;
    if completed < budget && s.queue != [] && env.clock(s.ticks).Some?
        && s.queue[0].deadline <= env.clock(s.ticks).value {
      WithinBudget(Fire(s.(ticks := s.ticks + 1), env), env, budget, completed + 1);
    }
  }

  /** No handler initializes the loop again. */
  ghost predicate NoneInitializes(env: Env) {
    forall n: nat, call: Pattern {:trigger env.react(n, call)} ::
      forall i :: 0 <= i < |env.react(n, call)| ==> !env.react(n, call)[i].Init?
  }

  lemma {:induction false} ApplyAllExecutions(s: Loop, env: Env, ops: seq<Op>)
    requires forall i :: 0 <= i < |ops| ==> !ops[i].Init?
    ensures ApplyAll(s, env, ops).executions == s.executions
    decreases |ops|
  {
    if ops != [] {
      ApplyExecutions(s, env, ops[0]);
      hide Apply;
      ApplyAllExecutions(Apply(s, env, ops[0]), env, ops[1..]);
    }
  }

  lemma ApplyExecutions(s: Loop, env: Env, op: Op)
    requires !op.Init?
    ensures Apply(s, env, op).executions == s.executions
  {
    hide Insert, Without, Matching, Drop, Delta, SaturatingAdd, Matches, FirstMatch;
  }

  lemma FireExecutions(s: Loop, env: Env)
    requires s.queue != [] && NoneInitializes(env)
    ensures Fire(s, env).executions == (s.executions + 1) % 0x1_0000_0000
  {
    var ops := env.react(s.calls, CallOf(s.queue[0]));
    assert forall i :: 0 <= i < |ops| ==> !ops[i].Init?;
    FiredIs(s, env);
    hide Fire, ApplyAll;
    ApplyAllExecutions(Popped(s), env, ops);
  }

  lemma {:induction false} RunExecutions(s: Loop, env: Env, budget: U32, completed: nat)
    requires completed <= budget && NoneInitializes(env)
    ensures var (after, n) := RunLoop(s, env, budget, completed);
            n >= completed && after.executions == (s.executions + (n - completed)) % 0x1_0000_0000
    decreases budget - completed
  {
    hide RunLoop, Fire, NoneInitializes;
    if completed < budget && FrontDue(s, env) {
      RunUnfoldsTicked(s, env, budget, completed);
      FireExecutions(Ticked(s), env);
      RunExecutions(Fire(Ticked(s), env), env, budget, completed + 1);
    } else {
      RunStops(s, env, budget, completed);
    }
  }

  /** The executions counter grows by what `run_once` returns, modulo 2^32. */
  lemma ExecutionsTell(s: Loop, env: Env, budget: U32)
    requires NoneInitializes(env)
    ensures var (after, n) := RunOnce(s, env, budget); after.executions == (s.executions + n) % 0x1_0000_0000
  {
    hide RunLoop;
    if s.initialized && budget != 0 {
      RunExecutions(s, env, budget, 0);
    }
  }

  /** Initialization succeeds once, from the task that runs the loop, and then nothing is left of before. */
  lemma InitMeaning(s: Loop, inTask: bool)
    ensures var (after, r) := DoInit(s, inTask);
            && (r == 0 <==> inTask && !s.initialized) && (r == 0 || r == -1)
            && (r == -1 ==> after == s)
            && (r == 0 ==> && after.initialized && !after.terminate && after.queue == []
                           && after.registrations == after.failures == after.executions == 0)
  {
  }

  /** Destruction empties the queue, tells every timer of it, and lets the loop be initialized again. */
  lemma DestroyMeaning(s: Loop)
    ensures var after := DoDestroy(s);
            && after.queue == [] && !after.initialized && !after.terminate && DoInit(after, true).1 == 0
            && s.log <= after.log && |Suffix(s, after)| == |s.queue|
            && forall i :: 0 <= i < |s.queue| ==> Suffix(s, after)[i] == Destroyed(s.queue[i])
  {
    assert Suffix(s, DoDestroy(s)) == AllDestroyed(s.queue);
  }
}
