/** With a working clock, every timer that is due when `run_once` starts and fits the budget runs in that
    call, ahead of everything else and in queue order, unless a handler cancels, moves or destroys it. */
module NoStarvation {
  import opened Bytes
  import opened TimerQueue
  import opened TimerTheorems

  /** From reading `from` on, the clock works and never shows less than `now`. */
  ghost predicate ClockFrom(env: Env, from: nat, now: U64) {
    forall n: nat :: n >= from ==> env.clock(n).Some? && env.clock(n).value >= now
  }

  predicate AllDue(queue: seq<Timer>, now: U64) {
    forall i :: 0 <= i < |queue| ==> queue[i].deadline <= now
  }

  /** The timer `t`, with this deadline, was cancelled, moved or destroyed. */
  ghost predicate Gone(log: seq<Event>, t: Timer) {
    exists i :: 0 <= i < |log| && log[i].timer == t && (log[i].Cancelled? || log[i].Moved? || log[i].Destroyed?)
  }

  /** The timers of `front` that `log` left alone, in order. */
  ghost function Kept(front: seq<Timer>, log: seq<Event>): seq<Timer> {
    if front == [] then []
    else (if Gone(log, front[0]) then [] else [front[0]]) + Kept(front[1..], log)
  }

  function ExecutedIn(log: seq<Event>): seq<Timer> {
    if log == [] then []
    else (if log[0].Executed? then [log[0].timer] else []) + ExecutedIn(log[1..])
  }

  /** The front timer is due at the next reading of the clock. */
  predicate FrontDue(s: Loop, env: Env) {
    s.queue != [] && env.clock(s.ticks).Some? && s.queue[0].deadline <= env.clock(s.ticks).value
  }

  function Ticked(s: Loop): (s1: Loop)
    ensures s1.queue == s.queue && s1.calls == s.calls && s1.log == s.log && s1.ticks == s.ticks + 1
  {
    s.(ticks := s.ticks + 1)
  }

  function Suffix(before: Loop, after: Loop): seq<Event>
    requires before.log <= after.log
  {
    after.log[|before.log|..]
  }

  // ----- sequences -----

  lemma {:induction false} InsertBehind(front: seq<Timer>, back: seq<Timer>, t: Timer)
    requires forall i :: 0 <= i < |front| ==> front[i].deadline <= t.deadline
    ensures Insert(front + back, t) == front + Insert(back, t)
  {
    if front == [] {
      assert front + back == back;
    } else {
      assert (front + back)[1..] == front[1..] + back;
      InsertBehind(front[1..], back, t);
    }
  }

  lemma {:induction false} WithoutSplit(front: seq<Timer>, back: seq<Timer>, p: Pattern)
    ensures Without(front + back, p) == Without(front, p) + Without(back, p)
  {
    if front == [] {
      assert front + back == back;
    } else {
      assert (front + back)[1..] == front[1..] + back;
      WithoutSplit(front[1..], back, p);
    }
  }

  lemma {:induction false} KeptAll(front: seq<Timer>, log: seq<Event>)
    requires forall i :: 0 <= i < |front| ==> !Gone(log, front[i])
    ensures Kept(front, log) == front
  {
    if front != [] {
      assert forall i :: 0 <= i < |front[1..]| ==> front[1..][i] == front[i + 1];
      KeptAll(front[1..], log);
    }
  }

  lemma {:induction false} KeptNone(front: seq<Timer>, log: seq<Event>)
    requires forall i :: 0 <= i < |front| ==> Gone(log, front[i])
    ensures Kept(front, log) == []
  {
    if front != [] {
      assert forall i :: 0 <= i < |front[1..]| ==> front[1..][i] == front[i + 1];
      KeptNone(front[1..], log);
    }
  }

  lemma {:induction false} KeptWithout(front: seq<Timer>, log: seq<Event>, p: Pattern)
    requires forall i :: 0 <= i < |front| ==> (Gone(log, front[i]) <==> Matches(front[i], p))
    ensures Kept(front, log) == Without(front, p)
  {
    hide Matches, Gone;
    if front != [] {
      assert forall i :: 0 <= i < |front[1..]| ==> front[1..][i] == front[i + 1];
      KeptWithout(front[1..], log, p);
    }
  }

  lemma {:induction false} KeptDrop(front: seq<Timer>, log: seq<Event>, k: nat)
    requires k < |front|
    requires forall i :: 0 <= i < |front| ==> (Gone(log, front[i]) <==> i == k)
    ensures Kept(front, log) == Drop(front, k)
  {
    hide Gone;
    assert forall i :: 0 <= i < |front[1..]| ==> front[1..][i] == front[i + 1];
    if k == 0 {
      KeptAll(front[1..], log);
      assert Drop(front, 0) == front[1..];
    } else {
      KeptDrop(front[1..], log, k - 1);
      assert Drop(front, k) == [front[0]] + Drop(front[1..], k - 1);
    }
  }

  lemma GoneAppend(first: seq<Event>, second: seq<Event>, t: Timer)
    ensures Gone(first + second, t) <==> Gone(first, t) || Gone(second, t)
  {
    var all := first + second;
    if Gone(second, t) {
      var i :| 0 <= i < |second| && second[i].timer == t
          && (second[i].Cancelled? || second[i].Moved? || second[i].Destroyed?);
      assert all[|first| + i] == second[i];
    }
    if Gone(first, t) {
      var i :| 0 <= i < |first| && first[i].timer == t
          && (first[i].Cancelled? || first[i].Moved? || first[i].Destroyed?);
      assert all[i] == first[i];
    }
  }

  lemma {:induction false} KeptTwice(front: seq<Timer>, first: seq<Event>, second: seq<Event>)
    ensures Kept(Kept(front, first), second) == Kept(front, first + second)
  {
    hide Gone;
    if front != [] {
      KeptTwice(front[1..], first, second);
      GoneAppend(first, second, front[0]);
      if !Gone(first, front[0]) {
        assert Kept(front, first) == [front[0]] + Kept(front[1..], first);
        assert Kept(front, first)[1..] == Kept(front[1..], first);
      } else {
        assert Kept(front, first) == Kept(front[1..], first);
      }
    }
  }

  lemma {:induction false} KeptShrinks(front: seq<Timer>, log: seq<Event>)
    ensures |Kept(front, log)| <= |front|
    ensures forall i :: 0 <= i < |Kept(front, log)| ==> Kept(front, log)[i] in front
  {
    hide Gone;
    if front != [] {
      KeptShrinks(front[1..], log);
    }
  }

  lemma {:induction false} ExecutedAppend(first: seq<Event>, second: seq<Event>)
    ensures ExecutedIn(first + second) == ExecutedIn(first) + ExecutedIn(second)
  {
    if first == [] {
      assert first + second == second;
    } else {
      var head := if first[0].Executed? then [first[0].timer] else [];
      assert (first + second)[1..] == first[1..] + second;
      ExecutedAppend(first[1..], second);
      var rest, others := ExecutedIn(first[1..]), ExecutedIn(second);
      assert ExecutedIn(first + second) == head + (rest + others);
      assert head + (rest + others) == (head + rest) + others;
    }
  }

  lemma {:induction false} NoneExecuted(log: seq<Event>)
    requires forall i :: 0 <= i < |log| ==> !log[i].Executed?
    ensures ExecutedIn(log) == []
  {
    if log != [] {
      NoneExecuted(log[1..]);
    }
  }

  // ----- one operation by a handler -----

  /** What an operation does to the due timers at the front: it can only take some of them away. */
  ghost predicate FrontKept(s: Loop, after: Loop, front: seq<Timer>) {
    && s.log <= after.log && s.ticks <= after.ticks
    && Kept(front, Suffix(s, after)) <= after.queue
    && ExecutedIn(Suffix(s, after)) == []
  }

  lemma SameFront(s: Loop, after: Loop, front: seq<Timer>)
    requires front <= s.queue && after.log == s.log && s.ticks <= after.ticks && front <= after.queue
    ensures FrontKept(s, after, front)
  {
    assert Suffix(s, after) == [];
    KeptAll(front, []);
  }

  lemma RegisterFront(s: Loop, env: Env, seconds: U32, microseconds: U32, what: Pattern, front: seq<Timer>, now: U64)
    requires front <= s.queue && AllDue(front, now) && ClockFrom(env, s.ticks, now)
    ensures FrontKept(s, DoRegister(s, env, seconds, microseconds, what).0, front)
  {
    var after := DoRegister(s, env, seconds, microseconds, what).0;
    if after.log == s.log {
      SameFront(s, after, front);
    } else {
      var t := after.log[|s.log|].timer;
      var back := s.queue[|front|..];
      assert s.queue == front + back;
      InsertBehind(front, back, t);
      assert Suffix(s, after) == [Registered(t)];
      KeptAll(front, Suffix(s, after));
      NoneExecuted(Suffix(s, after));
    }
  }

  lemma CancelFront(s: Loop, what: Pattern, front: seq<Timer>)
    requires front <= s.queue
    ensures FrontKept(s, DoCancel(s, what).0, front)
  {
    var after := DoCancel(s, what).0;
    var gone := Matching(s.queue, what);
    var log := AllCancelled(gone);
    assert Suffix(s, after) == log;
    WithoutMembers(s.queue, what);
    forall i | 0 <= i < |front|
      ensures Gone(log, front[i]) <==> Matches(front[i], what)
    {
      assert front[i] == s.queue[i] && front[i] in s.queue;
      if Matches(front[i], what) {
        var j :| 0 <= j < |gone| && gone[j] == front[i];
        assert log[j] == Cancelled(front[i]);
      }
    }
    KeptWithout(front, log, what);
    var back := s.queue[|front|..];
    assert s.queue == front + back;
    WithoutSplit(front, back, what);
    NoneExecuted(log);
  }

  lemma DestroyFront(s: Loop, front: seq<Timer>)
    requires front <= s.queue
    ensures FrontKept(s, DoDestroy(s), front)
  {
    var log := AllDestroyed(s.queue);
    assert Suffix(s, DoDestroy(s)) == log;
    forall i | 0 <= i < |front|
      ensures Gone(log, front[i])
    {
      assert log[i] == Destroyed(front[i]);
    }
    KeptNone(front, log);
    NoneExecuted(log);
  }

  lemma DropPrefix(queue: seq<Timer>, front: seq<Timer>, k: nat)
    requires front <= queue && k < |queue|
    ensures (if k < |front| then Drop(front, k) else front) <= Drop(queue, k)
  {
    assert queue == front + queue[|front|..];
  }

  lemma OneGone(queue: seq<Timer>, k: nat, i: nat, e: Event)
    requires k < |queue| && i < |queue| && Distinct(queue)
    requires e.timer == queue[k] && (e.Cancelled? || e.Moved?)
    ensures Gone([e], queue[i]) <==> i == k
  {
    if i == k {
      assert [e][0].timer == queue[i];
    } else {
      assert queue[i].serial != queue[k].serial;
    }
  }

  /** One timer is taken out of the queue; of the front, at most that one is gone. */
  lemma TakenFront(queue: seq<Timer>, front: seq<Timer>, k: nat, e: Event)
    requires front <= queue && k < |queue| && Distinct(queue)
    requires e.timer == queue[k] && (e.Cancelled? || e.Moved?)
    ensures Kept(front, [e]) <= Drop(queue, k) && ExecutedIn([e]) == []
  {
    hide Gone, Distinct, Drop;
    forall i | 0 <= i < |front|
      ensures Gone([e], front[i]) <==> i == k
    {
      assert front[i] == queue[i];
      OneGone(queue, k, i, e);
    }
    if k < |front| {
      KeptDrop(front, [e], k);
    } else {
      KeptAll(front, [e]);
    }
    DropPrefix(queue, front, k);
    NoneExecuted([e]);
  }

  lemma CancelOneFront(s: Loop, env: Env, what: Pattern, front: seq<Timer>)
    requires front <= s.queue && Distinct(s.queue)
    ensures FrontKept(s, DoCancelOne(s, env, what).0, front)
  {
    var after := DoCancelOne(s, env, what).0;
    var k := FirstMatch(s.queue, what);
    if k == |s.queue| {
      SameFront(s, after, front);
    } else {
      assert Suffix(s, after) == [Cancelled(s.queue[k])];
      TakenFront(s.queue, front, k, Cancelled(s.queue[k]));
    }
  }

  lemma UpdateFront(s: Loop, env: Env, seconds: U32, microseconds: U32, what: Pattern, deplete: bool, front: seq<Timer>,
                    now: U64)
    requires front <= s.queue && Distinct(s.queue) && AllDue(front, now) && ClockFrom(env, s.ticks, now)
    ensures FrontKept(s, DoUpdate(s, env, seconds, microseconds, what, deplete).0, front)
  {
    hide Insert, Delta, Distinct, Kept, Gone, Drop, ExecutedIn;
    var after := DoUpdate(s, env, seconds, microseconds, what, deplete).0;
    var k := FirstMatch(s.queue, what);
    if after.log == s.log {
      SameFront(s, after, front);
    } else {
      var requested := SaturatingAdd(env.clock(s.ticks).value, Delta(seconds, microseconds));
      assert requested >= now;
      var e := Moved(s.queue[k], requested);
      assert Suffix(s, after) == [e];
      TakenFront(s.queue, front, k, e);
      var kept := Kept(front, [e]);
      KeptShrinks(front, [e]);
      var rest := Drop(s.queue, k);
      assert rest == kept + rest[|kept|..];
      InsertBehind(kept, rest[|kept|..], s.queue[k].(deadline := requested));
    }
  }

  lemma ApplyFront(s: Loop, env: Env, op: Op, front: seq<Timer>, now: U64)
    requires Valid(s) && front <= s.queue && AllDue(front, now) && ClockFrom(env, s.ticks, now)
    ensures FrontKept(s, Apply(s, env, op), front)
  {
    hide FrontKept, Sorted, Balanced, ClockFrom, AllDue;
    match op
    case Init(inTask) => SameFront(s, Apply(s, env, op), front);
    case Register(seconds, microseconds, what) => RegisterFront(s, env, seconds, microseconds, what, front, now);
    case Cancel(what) => CancelFront(s, what, front);
    case CancelOne(what) => CancelOneFront(s, env, what, front);
    case Deplete(seconds, microseconds, what) => UpdateFront(s, env, seconds, microseconds, what, true, front, now);
    case Replenish(seconds, microseconds, what) => UpdateFront(s, env, seconds, microseconds, what, false, front, now);
    case Terminate => SameFront(s, Apply(s, env, op), front);
    case Destroy => DestroyFront(s, front);
  }

  lemma SuffixTwo(a: Loop, b: Loop, c: Loop)
    requires a.log <= b.log <= c.log
    ensures a.log <= c.log && Suffix(a, c) == Suffix(a, b) + Suffix(b, c)
  {
  }

  lemma {:induction false} ApplyAllFront(s: Loop, env: Env, ops: seq<Op>, front: seq<Timer>, now: U64)
    requires Valid(s) && front <= s.queue && AllDue(front, now) && ClockFrom(env, s.ticks, now)
    ensures FrontKept(s, ApplyAll(s, env, ops), front)
    decreases |ops|
  {
    hide Valid, Apply, Gone;
    if ops == [] {
      SameFront(s, s, front);
    } else {
      var next := Apply(s, env, ops[0]);
      var after := ApplyAll(next, env, ops[1..]);
      ApplyFront(s, env, ops[0], front, now);
      ApplyKeepsValid(s, env, ops[0]);
      var kept := Kept(front, Suffix(s, next));
      KeptShrinks(front, Suffix(s, next));
      ApplyAllFront(next, env, ops[1..], kept, now);
      SuffixTwo(s, next, after);
      KeptTwice(front, Suffix(s, next), Suffix(next, after));
      ExecutedAppend(Suffix(s, next), Suffix(next, after));
    }
  }

  // ----- a timer that has left the queue does not come back -----

  ghost predicate Absent(s: Loop, serial: nat) {
    serial < s.serial && forall i :: 0 <= i < |s.queue| ==> s.queue[i].serial != serial
  }

  ghost predicate Silent(log: seq<Event>, serial: nat) {
    forall i :: 0 <= i < |log| ==> log[i].timer.serial != serial
  }

  /** Nothing about that timer is logged, and it stays away. */
  ghost predicate StaysAbsent(s: Loop, after: Loop, serial: nat) {
    s.log <= after.log && Absent(after, serial) && Silent(Suffix(s, after), serial)
  }

  lemma MembersAbsent(queue: seq<Timer>, more: seq<Timer>, serial: nat)
    requires forall x :: x in queue ==> x.serial != serial
    requires forall x :: x in more ==> x in queue
    ensures forall i :: 0 <= i < |more| ==> more[i].serial != serial
  {
    assert forall i :: 0 <= i < |more| ==> more[i] in more;
  }

  lemma RegisterAbsent(s: Loop, env: Env, seconds: U32, microseconds: U32, what: Pattern, serial: nat)
    requires Valid(s) && Absent(s, serial)
    ensures StaysAbsent(s, DoRegister(s, env, seconds, microseconds, what).0, serial)
  {
    hide Insert, Sorted, Distinct, Balanced, Delta, SaturatingAdd;
    var after := DoRegister(s, env, seconds, microseconds, what).0;
    if after.log != s.log {
      var t := after.log[|s.log|].timer;
      assert Suffix(s, after) == [Registered(t)];
      InsertKeeps(s.queue, t);
      var queue := after.queue;
      assert forall i :: 0 <= i < |queue| ==> queue[i] in queue;
    }
  }

  lemma CancelAbsent(s: Loop, what: Pattern, serial: nat)
    requires Valid(s) && Absent(s, serial)
    ensures StaysAbsent(s, DoCancel(s, what).0, serial)
  {
    hide Without, Matching, Sorted, Distinct, Balanced, Matches;
    var gone := Matching(s.queue, what);
    WithoutMembers(s.queue, what);
    MembersAbsent(s.queue, Without(s.queue, what), serial);
    MembersAbsent(s.queue, gone, serial);
    assert Suffix(s, DoCancel(s, what).0) == AllCancelled(gone);
  }

  lemma UpdateAbsent(s: Loop, env: Env, seconds: U32, microseconds: U32, what: Pattern, deplete: bool, serial: nat)
    requires Valid(s) && Absent(s, serial)
    ensures StaysAbsent(s, DoUpdate(s, env, seconds, microseconds, what, deplete).0, serial)
  {
    hide Insert, Drop, Sorted, Distinct, Balanced, Delta, SaturatingAdd;
    var after := DoUpdate(s, env, seconds, microseconds, what, deplete).0;
    if after.log != s.log {
      var k := FirstMatch(s.queue, what);
      var t := s.queue[k].(deadline := after.log[|s.log|].to);
      assert Suffix(s, after) == [Moved(s.queue[k], t.deadline)];
      DropKeeps(s.queue, k);
      var rest := Drop(s.queue, k);
      assert forall i :: 0 <= i < |rest| ==> rest[i] in rest;
      InsertKeeps(rest, t);
      assert forall i :: 0 <= i < |after.queue| ==> after.queue[i] in after.queue;
    }
  }

  lemma CancelOneAbsent(s: Loop, env: Env, what: Pattern, serial: nat)
    requires Valid(s) && Absent(s, serial)
    ensures StaysAbsent(s, DoCancelOne(s, env, what).0, serial)
  {
    hide Drop, Sorted, Distinct, Balanced;
    var after := DoCancelOne(s, env, what).0;
    if after.log != s.log {
      var k := FirstMatch(s.queue, what);
      assert Suffix(s, after) == [Cancelled(s.queue[k])];
      DropKeeps(s.queue, k);
      assert forall i :: 0 <= i < |after.queue| ==> after.queue[i] in after.queue;
    }
  }

  lemma ApplyAbsent(s: Loop, env: Env, op: Op, serial: nat)
    requires Valid(s) && Absent(s, serial)
    ensures StaysAbsent(s, Apply(s, env, op), serial)
  {
    match op
    case Init(inTask) => assert Suffix(s, Apply(s, env, op)) == [];
    case Register(seconds, microseconds, what) => RegisterAbsent(s, env, seconds, microseconds, what, serial);
    case Cancel(what) => CancelAbsent(s, what, serial);
    case CancelOne(what) => CancelOneAbsent(s, env, what, serial);
    case Deplete(seconds, microseconds, what) => UpdateAbsent(s, env, seconds, microseconds, what, true, serial);
    case Replenish(seconds, microseconds, what) => UpdateAbsent(s, env, seconds, microseconds, what, false, serial);
    case Terminate => assert Suffix(s, Apply(s, env, op)) == [];
    case Destroy => assert Suffix(s, Apply(s, env, op)) == AllDestroyed(s.queue);
  }

  lemma SilentAppend(a: Loop, b: Loop, c: Loop, serial: nat)
    requires StaysAbsent(a, b, serial) && StaysAbsent(b, c, serial)
    ensures StaysAbsent(a, c, serial)
  {
    SuffixTwo(a, b, c);
  }

  lemma {:induction false} ApplyAllAbsent(s: Loop, env: Env, ops: seq<Op>, serial: nat)
    requires Valid(s) && Absent(s, serial)
    ensures StaysAbsent(s, ApplyAll(s, env, ops), serial)
    decreases |ops|
  {
    hide Valid, Apply, Silent;
    if ops == [] {
      assert Suffix(s, s) == [] && Silent([], serial) by { SilentNothing(serial); }
    } else {
      var next := Apply(s, env, ops[0]);
      ApplyAbsent(s, env, ops[0], serial);
      ApplyKeepsValid(s, env, ops[0]);
      ApplyAllAbsent(next, env, ops[1..], serial);
      SilentAppend(s, next, ApplyAll(next, env, ops[1..]), serial);
    }
  }

  lemma SilentNothing(serial: nat)
    ensures Silent([], serial)
  {
  }

  lemma PoppedAbsent(s: Loop)
    requires Valid(s) && s.queue != []
    ensures Valid(Popped(s)) && Absent(Popped(s), s.queue[0].serial)
  {
    PoppedValid(s);
    assert s.queue[0].serial < s.serial;
  }

  lemma FireAbsent(s: Loop, env: Env, serial: nat)
    requires Valid(s) && s.queue != [] && Absent(s, serial)
    ensures StaysAbsent(s, Fire(s, env), serial)
  {
    hide Valid;
    var s1 := Popped(s);
    PoppedAbsent(s);
    assert Suffix(s, s1) == [Executed(s.queue[0])];
    ApplyAllAbsent(s1, env, env.react(s.calls, CallOf(s.queue[0])), serial);
    SilentAppend(s, s1, Fire(s, env), serial);
  }

  lemma {:induction false} RunAbsent(s: Loop, env: Env, budget: U32, completed: nat, serial: nat)
    requires Valid(s) && Absent(s, serial) && completed <= budget
    ensures StaysAbsent(s, RunLoop(s, env, budget, completed).0, serial)
    decreases budget - completed
  {
    hide Fire, Valid;
    var s1 := s.(ticks := s.ticks + 1);
    assert Valid(s1) by { TickValid(s); }
    if completed < budget && s.queue != [] && env.clock(s.ticks).Some?
        && s.queue[0].deadline <= env.clock(s.ticks).value {
      FireAbsent(s1, env, serial);
      FireKeepsValid(s1, env);
      RunAbsent(Fire(s1, env), env, budget, completed + 1, serial);
      SilentAppend(s1, Fire(s1, env), RunLoop(Fire(s1, env), env, budget, completed + 1).0, serial);
    } else {
      assert Suffix(s, RunLoop(s, env, budget, completed).0) == [];
    }
  }

  lemma TickValid(s: Loop)
    requires Valid(s)
    ensures Valid(s.(ticks := s.ticks + 1))
  {
    SameValid(s, s.(ticks := s.ticks + 1));
  }

  // ----- the theorem -----

  /** The loop works off the due front of the queue first. */
  lemma {:induction false} RunFront(s: Loop, env: Env, budget: U32, completed: nat, front: seq<Timer>, now: U64)
    returns (others: seq<Timer>)
    requires Valid(s) && front <= s.queue && AllDue(front, now) && ClockFrom(env, s.ticks, now)
    requires completed + |front| <= budget
    ensures var after := RunLoop(s, env, budget, completed).0;
            && s.log <= after.log
            && ExecutedIn(Suffix(s, after)) == Kept(front, Suffix(s, after)) + others
    decreases budget - completed
  {
    hide Fire, RunLoop, Valid, Gone, Silent, Absent;
    var after := RunLoop(s, env, budget, completed).0;
    if front == [] {
      RunLogGrows(s, env, budget, completed);
      others := ExecutedIn(Suffix(s, after));
      assert Kept(front, Suffix(s, after)) + others == others;
    } else {
      var s1 := s.(ticks := s.ticks + 1);
      TickValid(s);
      var first := front[0];
      assert first == s.queue[0] && first.deadline <= now;
      RunUnfolds(s, env, budget, completed);
      hide Kept, ExecutedIn, AllDue;
      var fired := Fire(s1, env);
      var kept := FireFront(s1, env, front, now);
      FireKeepsValid(s1, env);
      others := RunFront(fired, env, budget, completed + 1, kept, now);
      RunAbsent(fired, env, budget, completed + 1, first.serial);
      FrontJoins(s1, fired, after, front, kept, others);
    }
  }

  lemma RunUnfolds(s: Loop, env: Env, budget: U32, completed: nat)
    requires completed < budget && s.queue != []
    requires env.clock(s.ticks).Some? && s.queue[0].deadline <= env.clock(s.ticks).value
    ensures RunLoop(s, env, budget, completed) ==
            RunLoop(Fire(s.(ticks := s.ticks + 1), env), env, budget, completed + 1)
  {
    hide Fire;
  }

  /** Firing the front: it is executed, it stays away, and of the rest some are kept. */
  lemma FireFront(s: Loop, env: Env, front: seq<Timer>, now: U64) returns (kept: seq<Timer>)
    requires Valid(s) && front != [] && front <= s.queue && AllDue(front, now) && ClockFrom(env, s.ticks, now)
    ensures var after := Fire(s, env);
            && s.log <= after.log && s.ticks <= after.ticks
            && StaysGone(s, after, front[0])
            && kept == Kept(front[1..], Suffix(s, after)) && kept <= after.queue && |kept| < |front|
            && AllDue(kept, now)
            && ExecutedIn(Suffix(s, after)) == [front[0]]
  {
    hide Valid, Gone;
    var s1 := Popped(s);
    var ops := env.react(s.calls, CallOf(s.queue[0]));
    var after := Fire(s, env);
    PoppedAbsent(s);
    ApplyAllFront(s1, env, ops, front[1..], now);
    ApplyAllAbsent(s1, env, ops, front[0].serial);
    assert Suffix(s, s1) == [Executed(front[0])];
    SuffixTwo(s, s1, after);
    var own := [Executed(front[0])];
    ExecutedAppend(own, Suffix(s1, after));
    assert ExecutedIn(own) == [front[0]];
    forall i | 0 <= i < |front[1..]|
      ensures !Gone(own, front[1..][i])
    {
      NotGone(own, front[1..][i]);
    }
    KeptAll(front[1..], own);
    KeptTwice(front[1..], own, Suffix(s1, after));
    kept := Kept(front[1..], Suffix(s1, after));
    KeptShrinks(front[1..], Suffix(s1, after));
    SilentNotGone(Suffix(s1, after), front[0]);
    NotGone(own, front[0]);
    GoneAppend(own, Suffix(s1, after), front[0]);
  }

  lemma NotGone(log: seq<Event>, t: Timer)
    requires forall i :: 0 <= i < |log| ==> log[i].Executed?
    ensures !Gone(log, t)
  {
  }

  lemma SilentNotGone(log: seq<Event>, t: Timer)
    requires Silent(log, t.serial)
    ensures !Gone(log, t)
  {
  }

  /** The fired timer is not gone in the log so far, and absent from here on. */
  ghost predicate StaysGone(s: Loop, after: Loop, t: Timer) {
    s.log <= after.log && !Gone(Suffix(s, after), t) && Absent(after, t.serial)
  }

  lemma FrontJoins(s: Loop, fired: Loop, after: Loop, front: seq<Timer>, kept: seq<Timer>, others: seq<Timer>)
    requires front != [] && s.log <= fired.log <= after.log
    requires StaysGone(s, fired, front[0]) && Silent(Suffix(fired, after), front[0].serial)
    requires kept == Kept(front[1..], Suffix(s, fired)) && ExecutedIn(Suffix(s, fired)) == [front[0]]
    requires ExecutedIn(Suffix(fired, after)) == Kept(kept, Suffix(fired, after)) + others
    ensures ExecutedIn(Suffix(s, after)) == Kept(front, Suffix(s, after)) + others
  {
    hide Gone, Silent;
    SuffixTwo(s, fired, after);
    ExecutedAppend(Suffix(s, fired), Suffix(fired, after));
    KeptTwice(front[1..], Suffix(s, fired), Suffix(fired, after));
    SilentNotGone(Suffix(fired, after), front[0]);
    GoneAppend(Suffix(s, fired), Suffix(fired, after), front[0]);
  }

  lemma ApplyLogGrows(s: Loop, env: Env, op: Op)
    ensures s.log <= Apply(s, env, op).log
  {
    hide Insert, Without, Matching, Drop, Delta, SaturatingAdd, Matches;
  }

  lemma {:induction false} ApplyAllLogGrows(s: Loop, env: Env, ops: seq<Op>)
    ensures s.log <= ApplyAll(s, env, ops).log
    decreases |ops|
  {
    hide Apply;
    if ops != [] {
      ApplyLogGrows(s, env, ops[0]);
      ApplyAllLogGrows(Apply(s, env, ops[0]), env, ops[1..]);
    }
  }

  lemma FireLogGrows(s: Loop, env: Env)
    requires s.queue != []
    ensures s.log <= Fire(s, env).log
  {
    hide ApplyAll;
    ApplyAllLogGrows(Popped(s), env, env.react(s.calls, CallOf(s.queue[0])));
  }

  lemma {:induction false} RunLogGrows(s: Loop, env: Env, budget: U32, completed: nat)
    requires completed <= budget
    ensures s.log <= RunLoop(s, env, budget, completed).0.log
    decreases budget - completed
  {
    hide Fire;
    if completed < budget && s.queue != [] {
      var s1 := s.(ticks := s.ticks + 1);
      if env.clock(s.ticks).Some? && s.queue[0].deadline <= env.clock(s.ticks).value {
        FireLogGrows(s1, env);
        RunLogGrows(Fire(s1, env), env, budget, completed + 1);
      }
    }
  }

  function NextDeadlineOf(queue: seq<Timer>): U64 {
    if queue == [] then U64_MAX else queue[0].deadline
  }

  lemma {:induction false} CompletedGrows(s: Loop, env: Env, budget: U32, completed: nat)
    requires completed <= budget
    ensures RunLoop(s, env, budget, completed).1 >= completed
    decreases budget - completed
  {
    if completed < budget && s.queue != [] {
      var s1 := s.(ticks := s.ticks + 1);
      if env.clock(s.ticks).Some? && s.queue[0].deadline <= env.clock(s.ticks).value {
        RunUnfolds(s, env, budget, completed);
        hide RunLoop, Fire;
        CompletedGrows(Fire(s1, env), env, budget, completed + 1);
      }
    }
  }

  /** The next deadline is the earliest, and it is the right time to wake: a call of the loop runs a
      handler if and only if one is queued and the clock has reached it. */
  lemma NextDeadlineExact(s: Loop, env: Env, budget: U32, now: U64)
    requires Valid(s) && s.initialized && budget > 0 && env.clock(s.ticks) == Some(now)
    ensures forall i :: 0 <= i < |s.queue| ==> NextDeadlineOf(s.queue) <= s.queue[i].deadline
    ensures RunOnce(s, env, budget).1 > 0 <==> s.queue != [] && NextDeadlineOf(s.queue) <= now
  {
    hide Fire, TiesInOrder, Balanced;
    if s.queue != [] && s.queue[0].deadline <= now {
      RunUnfolds(s, env, budget, 0);
      CompletedGrows(Fire(s.(ticks := s.ticks + 1), env), env, budget, 1);
    }
  }

  /** The timers due at `now`: on a sorted queue, a prefix. */
  function Due(queue: seq<Timer>, now: U64): seq<Timer> {
    if queue == [] || queue[0].deadline > now then [] else [queue[0]] + Due(queue[1..], now)
  }

  lemma {:induction false} DueIsPrefix(queue: seq<Timer>, now: U64)
    requires Sorted(queue)
    ensures Due(queue, now) <= queue && AllDue(Due(queue, now), now)
    ensures forall i :: |Due(queue, now)| <= i < |queue| ==> queue[i].deadline > now
  {
    if queue != [] && queue[0].deadline <= now {
      DueIsPrefix(queue[1..], now);
      assert queue == [queue[0]] + queue[1..];
    }
  }

  /** What is kept of a queue stands in the queue's order. */
  lemma {:induction false} KeptPrecedes(front: seq<Timer>, log: seq<Event>, x: Timer, y: Timer)
    requires Precedes(Kept(front, log), x, y)
    ensures Precedes(front, x, y)
  {
    hide Gone, Precedes;
    if front == [] {
      NothingPrecedes(x, y);
    } else {
      var first, rest := front[0], front[1..];
      assert front == [first] + rest;
      PrecedesCons(first, rest, x, y);
      PrecedesCons(first, Kept(rest, log), x, y);
      KeptShrinks(rest, log);
      assert Gone(log, first) ==> Kept(front, log) == Kept(rest, log);
      assert y in Kept(rest, log) ==> y in rest;
      if Precedes(Kept(rest, log), x, y) {
        KeptPrecedes(rest, log, x, y);
      }
    }
  }

  lemma KeptOrder(queue: seq<Timer>, placed: seq<Event>, front: seq<Timer>, log: seq<Event>)
    requires Sorted(queue) && TiesInOrder(queue, placed) && front <= queue
    ensures Sorted(Kept(front, log)) && TiesInOrder(Kept(front, log), placed)
  {
    hide Precedes, TiesInOrder, Kept, Gone;
    var kept := Kept(front, log);
    forall x, y | Precedes(kept, x, y)
      ensures Precedes(queue, x, y) && x.deadline <= y.deadline
    {
      KeptPrecedes(front, log, x, y);
      PrefixPrecedes(front, queue, x, y);
    }
    TiesKept(queue, placed, kept, placed);
    forall i, j | 0 <= i < j < |kept|
      ensures kept[i].deadline <= kept[j].deadline
    {
      AtPrecedes(kept, i, j);
    }
  }

  lemma AtPrecedes(queue: seq<Timer>, i: nat, j: nat)
    requires i < j < |queue|
    ensures Precedes(queue, queue[i], queue[j])
  {
  }

  lemma PrefixPrecedes(front: seq<Timer>, queue: seq<Timer>, x: Timer, y: Timer)
    requires front <= queue && Precedes(front, x, y)
    ensures Precedes(queue, x, y)
    ensures Sorted(queue) ==> x.deadline <= y.deadline
  {
    var i, j :| 0 <= i < j < |front| && front[i] == x && front[j] == y;
    assert queue[i] == x && queue[j] == y;
  }

  /** No starvation: whatever the handlers do, `run_once` first executes all timers that were due at its
      first clock reading, except those a handler cancelled, moved or destroyed, by deadline and among
      equal deadlines in the order of their last registration or move. */
  lemma DueTimersRunFirst(s: Loop, env: Env, budget: U32, now: U64) returns (others: seq<Timer>)
    requires Valid(s) && s.initialized
    requires env.clock(s.ticks) == Some(now) && ClockFrom(env, s.ticks, now)
    requires |Due(s.queue, now)| <= budget
    ensures var after := RunOnce(s, env, budget).0;
            && s.log <= after.log
            && var log := Suffix(s, after);
               var kept := Kept(Due(s.queue, now), log);
            && ExecutedIn(log) == kept + others
            && Sorted(kept) && TiesInOrder(kept, s.log)
  {
    hide Sorted, TiesInOrder, Kept;
    DueIsPrefix(s.queue, now);
    if budget == 0 {
      others := [];
      assert Suffix(s, s) == [];
      DueNone(s.queue, now);
    } else {
      others := RunFront(s, env, budget, 0, Due(s.queue, now), now);
    }
    KeptOrder(s.queue, s.log, Due(s.queue, now), Suffix(s, RunOnce(s, env, budget).0));
  }

  lemma DueNone(queue: seq<Timer>, now: U64)
    ensures |Due(queue, now)| == 0 ==> Kept(Due(queue, now), []) == []
    ensures ExecutedIn([]) == []
  {
  }
}
