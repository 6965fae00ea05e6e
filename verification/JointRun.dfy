/** A context and the event loop over their whole life: the owner's calls, the driver's events, calls of
    `run_once`, and whatever others do to the loop, in any order. What `Recovery` proves of counts then holds of
    the timers on the loop. */
module JointRun {
  import opened Bytes
  import opened TimerQueue
  import opened TimerTheorems
  import opened NoStarvation
  import opened Recovery
  import opened ContextTimers
  import opened SupplicantRun

  /** One call; `ops` is what hostap does to the loop in it. */
  datatype Step =
    | Withdraw(up: Upstream, ops: seq<Op>)
    | Associated(up: Upstream, status: int, resultStatus: int, ops: seq<Op>)
    | Disconnected(up: Upstream, status: int, reason: int, ops: seq<Op>)
    | Poll(budget: U32)
    | Elsewhere(ops: seq<Op>)

  datatype World = World(loop: Loop, context: Context)

  /** As `Supplicant.Disconnect` leaves loop and context. */
  function AfterWithdraw(w: World, env: Env, id: Pointer, up: Upstream, ops: seq<Op>): World {
    if !up.hasInterface then w
    else World(ApplyAll(LoopWithdrawn(w.loop, id), env, ops), OnDisconnect(w.context, up).0)
  }

  /** As `Supplicant.FeedAssociateResult` leaves them. */
  function AfterAssociated(w: World, env: Env, id: Pointer, up: Upstream, status: int, resultStatus: int,
                           ops: seq<Op>): World {
    if !up.hasInterface || !up.driver then w
    else
      var (s, granted) := LoopAssociated(ApplyAll(w.loop, env, ops), env, id,
                                         status == 0 && resultStatus == 0 && up.associated);
      World(s, OnAssociateResult(w.context, up, status, resultStatus, granted).0)
  }

  /** As `Supplicant.FeedDisconnect` leaves them. */
  function AfterDisconnected(w: World, env: Env, id: Pointer, up: Upstream, status: int, reason: int,
                             ops: seq<Op>): World {
    if !up.hasInterface || !up.driver then w
    else
      var s := ApplyAll(w.loop, env, ops);
      if status != 0 then World(s, OnDisconnectEvent(w.context, up, status, reason, true, true).0)
      else
        var (s1, reject, complete) := LoopDisconnected(s, env, id, reason, w.context.retryPending);
        World(s1, OnDisconnectEvent(w.context, up, status, reason, reject, complete).0)
  }

  function After(w: World, env: Env, hostap: nat -> Around, id: Pointer, step: Step): World {
    match step
    case Withdraw(up, ops) => AfterWithdraw(w, env, id, up, ops)
    case Associated(up, status, resultStatus, ops) => AfterAssociated(w, env, id, up, status, resultStatus, ops)
    case Disconnected(up, status, reason, ops) => AfterDisconnected(w, env, id, up, status, reason, ops)
    case Poll(budget) => World(RunOnce(w.loop, env, budget).0, ContextOnce(w.loop, w.context, env, hostap, id, budget))
    case Elsewhere(ops) => w.(loop := ApplyAll(w.loop, env, ops))
  }

  function RunWorld(w: World, env: Env, hostap: nat -> Around, id: Pointer, steps: seq<Step>): World
    decreases |steps|
  {
    if steps == [] then w else RunWorld(After(w, env, hostap, id, steps[0]), env, hostap, id, steps[1..])
  }

  /** Neither hostap nor others touch the context's timers. */
  predicate Proper(step: Step, id: Pointer) { step.Poll? || AllLeave(step.ops, id) }

  const START := World(FRESH, CREATED)

  // ----- the loop's part of each call -----

  /** What is kept of loop and counts. */
  ghost predicate Counted(s: Loop, queued: Queue, id: Pointer) { Valid(s) && queued == QueueOf(s.queue, id) }

  lemma ValidReady(s: Loop)
    requires Valid(s)
    ensures Ready(s)
  {
  }

  lemma OthersCounted(s: Loop, queued: Queue, env: Env, ops: seq<Op>, id: Pointer)
    requires Counted(s, queued, id) && id != ALL_CTX && AllLeave(ops, id)
    ensures Counted(ApplyAll(s, env, ops), queued, id)
  {
    ValidReady(s);
    hide Valid, QueueOf, ApplyAll, AllLeave, Ready;
    ApplyAllKeepsValid(s, env, ops);
    ApplyAllSpares(s, env, ops, id);
  }

  lemma CancelCounted(s: Loop, queued: Queue, kind: Kind, id: Pointer)
    requires Counted(s, queued, id)
    ensures Counted(LoopCancel(s, kind, id), queued.With(kind, 0), id)
  {
    hide Valid, QueueOf, DoCancel;
    CancelKeepsValid(s, PatternOf(kind, id));
    LoopCancelQueue(s, kind, id);
  }

  lemma RegisterCounted(s: Loop, queued: Queue, env: Env, seconds: U32, kind: Kind, id: Pointer)
    requires Counted(s, queued, id)
    ensures var (after, r) := DoRegister(s, env, seconds, 0, PatternOf(kind, id));
            Counted(after, if r == 0 then queued.With(kind, queued.Count(kind) + 1) else queued, id)
  {
    hide Valid, QueueOf, DoRegister;
    RegisterKeepsValid(s, env, seconds, 0, PatternOf(kind, id));
    LoopRegisterQueue(s, env, seconds, kind, id);
  }

  /** Cancel and register, on the loop and on the counts. */
  lemma RearmCounted(s: Loop, c: Context, env: Env, gone: Kind, seconds: U32, kind: Kind, id: Pointer)
    requires Counted(s, c.queued, id)
    ensures var (after, r) := LoopRearm(s, env, gone, seconds, kind, id);
            Counted(after, RegisterQueued(CancelQueued(c, gone), kind, r == 0).queued, id)
  {
    hide Counted, LoopCancel, DoRegister;
    CancelCounted(s, c.queued, gone, id);
    RegisterCounted(LoopCancel(s, gone, id), CancelQueued(c, gone).queued, env, seconds, kind, id);
  }

  lemma WithdrawCounted(w: World, env: Env, id: Pointer, up: Upstream, ops: seq<Op>)
    requires Counted(w.loop, w.context.queued, id) && id != ALL_CTX && AllLeave(ops, id)
    ensures var after := AfterWithdraw(w, env, id, up, ops); Counted(after.loop, after.context.queued, id)
  {
    hide Counted, LoopCancel, ApplyAll, AllLeave;
    var q0 := w.context.queued;
    var q1, q2, q3 := q0.With(FirstTimeout, 0), q0.With(FirstTimeout, 0).With(Fallback, 0),
        Queue(0, 0, 0, q0.rejectRetry);
    var s1 := LoopCancel(w.loop, FirstTimeout, id);
    var s2 := LoopCancel(s1, Fallback, id);
    var s3 := LoopCancel(s2, Complete, id);
    CancelCounted(w.loop, q0, FirstTimeout, id);
    CancelCounted(s1, q1, Fallback, id);
    CancelCounted(s2, q2, Complete, id);
    CancelCounted(s3, q3, RejectRetry, id);
    OthersCounted(LoopCancel(s3, RejectRetry, id), Queue(0, 0, 0, 0), env, ops, id);
  }

  lemma AssociatedCounted(w: World, env: Env, id: Pointer, up: Upstream, status: int, resultStatus: int, ops: seq<Op>)
    requires Counted(w.loop, w.context.queued, id) && id != ALL_CTX && AllLeave(ops, id)
    ensures var after := AfterAssociated(w, env, id, up, status, resultStatus, ops);
            Counted(after.loop, after.context.queued, id)
  {
    hide Counted, LoopRearm, ApplyAll, AllLeave, CancelQueued, RegisterQueued;
    OthersCounted(w.loop, w.context.queued, env, ops, id);
    RearmCounted(ApplyAll(w.loop, env, ops), w.context.(trace := w.context.trace + [AssociationFed]), env,
                 FirstTimeout, FIRST_EAPOL_TIMEOUT_SECONDS, FirstTimeout, id);
    RearmCounts(w.context, up, status, resultStatus);
  }

  lemma RearmCounts(c: Context, up: Upstream, status: int, resultStatus: int)
    ensures forall granted :: !(status == 0 && resultStatus == 0 && up.associated) ==>
              OnAssociateResult(c, up, status, resultStatus, granted).0.queued == c.queued
  {
  }

  /** The recoveries a disconnect queues. */
  lemma QueuedCounted(s: Loop, c: Context, env: Env, id: Pointer, reason: int)
    requires Counted(s, c.queued, id)
    ensures var (after, reject, complete) := LoopDisconnected(s, env, id, reason, c.retryPending);
            Counted(after, OnDisconnected(c, reason, reject, complete).0.queued, id)
  {
    hide Counted, LoopRearm, CancelQueued, RegisterQueued;
    var c1 := c.(trace := c.trace + [DisconnectFed(reason)]);
    var noted := c1.(counters := c1.counters.(rejects := Increment(c1.counters.rejects)), rejectPending := true);
    RearmCounted(s, noted, env, RejectRetry, 0, RejectRetry, id);
    var (s1, reject) := if reason == TEMPORARY_REJECT then LoopRearm(s, env, RejectRetry, 0, RejectRetry, id)
        else (s, 0);
    var c2 := if reason == TEMPORARY_REJECT then NoteReject(c1, reject == 0) else c1;
    PendingKept(noted, RejectRetry, reject == 0);
    if reject == 0 && c.retryPending {
      var taken := c2.(counters := c2.counters.(disconnectEvents := Increment(c2.counters.disconnectEvents)));
      RearmCounted(s1, taken, env, Fallback, 0, Complete, id);
    }
  }

  lemma PendingKept(c: Context, kind: Kind, granted: bool)
    ensures RegisterQueued(CancelQueued(c, kind), kind, granted).retryPending == c.retryPending
  {
  }

  lemma DisconnectedCounted(w: World, env: Env, id: Pointer, up: Upstream, status: int, reason: int, ops: seq<Op>)
    requires Counted(w.loop, w.context.queued, id) && id != ALL_CTX && AllLeave(ops, id)
    ensures var after := AfterDisconnected(w, env, id, up, status, reason, ops);
            Counted(after.loop, after.context.queued, id)
  {
    hide Counted, LoopDisconnected, OnDisconnected, ApplyAll, AllLeave;
    OthersCounted(w.loop, w.context.queued, env, ops, id);
    QueuedCounted(ApplyAll(w.loop, env, ops), w.context, env, id, reason);
  }

  // ----- every joint run -----

  lemma RunOne(c: Context, input: Input)
    ensures Recovery.Run(c, [input]) == Next(c, input)
  {
    hide Next;
    assert [input][1..] == [];
    assert Recovery.Run(Next(c, input), []) == Next(c, input);
  }

  lemma {:induction false} RunAppend(c: Context, first: seq<Input>, second: seq<Input>)
    ensures Recovery.Run(c, first + second) == Recovery.Run(Recovery.Run(c, first), second)
    decreases |first|
  {
    hide Next;
    if first == [] {
      assert first + second == second;
    } else {
      assert (first + second)[0] == first[0] && (first + second)[1..] == first[1..] + second;
      RunAppend(Next(c, first[0]), first[1..], second);
    }
  }

  /** The context's part of a call is at most one input of `Recovery`; a call of the loop is a run of it. */
  lemma ContextStep(w: World, env: Env, hostap: nat -> Around, id: Pointer, step: Step) returns (inputs: seq<Input>)
    requires Attached(w.loop, w.context, env, hostap, id)
    ensures After(w, env, hostap, id, step).context == Recovery.Run(w.context, inputs)
    ensures Interfaced(hostap) ==> AllInterfaced(inputs)
  {
    hide Attached, LoopWithdrawn, LoopAssociated, LoopDisconnected, OnDisconnect, OnAssociateResult, OnDisconnectEvent,
         ContextOnce, RunOnce;
    match step {
      case Withdraw(up, ops) =>
        inputs := if up.hasInterface then [Disconnect(up)] else [];
        RunOne(w.context, Disconnect(up));
      case Associated(up, status, resultStatus, ops) =>
        var granted := LoopAssociated(ApplyAll(w.loop, env, ops), env, id,
                                      status == 0 && resultStatus == 0 && up.associated).1;
        var input := FeedAssociate(up, status, resultStatus, granted);
        inputs := if up.hasInterface && up.driver then [input] else [];
        RunOne(w.context, input);
      case Disconnected(up, status, reason, ops) =>
        var fed := LoopDisconnected(ApplyAll(w.loop, env, ops), env, id, reason, w.context.retryPending);
        var input := if status != 0 then FeedDisconnect(up, status, reason, true, true)
            else FeedDisconnect(up, status, reason, fed.1, fed.2);
        inputs := if up.hasInterface && up.driver then [input] else [];
        RunOne(w.context, input);
      case Poll(budget) =>
        inputs := OnceIsRun(w.loop, w.context, env, hostap, id, budget);
      case Elsewhere(ops) =>
        inputs := [];
    }
  }

  lemma StepAttached(w: World, env: Env, hostap: nat -> Around, id: Pointer, step: Step)
    requires Attached(w.loop, w.context, env, hostap, id) && Proper(step, id)
    ensures var after := After(w, env, hostap, id, step); Attached(after.loop, after.context, env, hostap, id)
  {
    hide Reacts, Valid, QueueOf, AfterWithdraw, AfterAssociated, AfterDisconnected, ContextOnce, RunOnce, ApplyAll,
         AllLeave;
    match step
    case Withdraw(up, ops) => WithdrawCounted(w, env, id, up, ops);
    case Associated(up, status, resultStatus, ops) => AssociatedCounted(w, env, id, up, status, resultStatus, ops);
    case Disconnected(up, status, reason, ops) => DisconnectedCounted(w, env, id, up, status, reason, ops);
    case Poll(budget) => var _ := OnceIsRun(w.loop, w.context, env, hostap, id, budget);
    case Elsewhere(ops) => OthersCounted(w.loop, w.context.queued, env, ops, id);
  }

  ghost predicate AllProper(steps: seq<Step>, id: Pointer) {
    forall i :: 0 <= i < |steps| ==> Proper(steps[i], id)
  }

  lemma {:induction false} WorldAttached(w: World, env: Env, hostap: nat -> Around, id: Pointer, steps: seq<Step>)
    returns (inputs: seq<Input>)
    requires Attached(w.loop, w.context, env, hostap, id) && AllProper(steps, id)
    ensures var after := RunWorld(w, env, hostap, id, steps);
            && Attached(after.loop, after.context, env, hostap, id)
            && after.context == Recovery.Run(w.context, inputs)
            && (Interfaced(hostap) ==> AllInterfaced(inputs))
    decreases |steps|
  {
    hide Attached, After, Proper, HasInterface, Interfaced;
    if steps == [] {
      inputs := [];
    } else {
      var first := ContextStep(w, env, hostap, id, steps[0]);
      StepAttached(w, env, hostap, id, steps[0]);
      var rest := WorldAttached(After(w, env, hostap, id, steps[0]), env, hostap, id, steps[1..]);
      inputs := first + rest;
      RunAppend(w.context, first, rest);
    }
  }

  lemma StartAttached(env: Env, hostap: nat -> Around, id: Pointer)
    requires Reacts(env, hostap, id) && id != ALL_CTX
    ensures Attached(START.loop, START.context, env, hostap, id)
  {
    hide Reacts;
  }

  // ----- the timers on the loop -----

  lemma {:induction false} MatchingFound(queue: seq<Timer>, p: Pattern)
    ensures |Matching(queue, p)| > 0 <==> exists i :: 0 <= i < |queue| && Matches(queue[i], p)
  {
    hide Matches;
    if queue != [] {
      MatchingFound(queue[1..], p);
      if Matches(queue[0], p) {
        assert queue[0] == queue[0];
      }
      assert forall i :: 0 < i < |queue| ==> queue[i] == queue[1..][i - 1];
    }
  }

  /** A count says whether such a timer is on the loop. */
  lemma CountFound(queue: seq<Timer>, id: Pointer, kind: Kind)
    requires id != ALL_CTX
    ensures QueuedIn(queue, id, kind) > 0 <==> exists t :: t in queue && KindOf(t, id) == Some(kind)
  {
    MatchingFound(queue, PatternOf(kind, id));
    forall t: Timer
      ensures Matches(t, PatternOf(kind, id)) <==> KindOf(t, id) == Some(kind)
    {
    }
  }

  lemma TimerFound(queue: seq<Timer>, id: Pointer, goal: Goal)
    requires id != ALL_CTX
    ensures SomeTimerOf(queue, id, goal) <==>
            var queued := QueueOf(queue, id);
            if goal.EapolRetry? then queued.fallback > 0 || queued.complete > 0 else queued.rejectRetry > 0
  {
    hide QueuedIn, KindOf;
    CountFound(queue, id, Fallback);
    CountFound(queue, id, Complete);
    CountFound(queue, id, RejectRetry);
    if t :| t in queue && IsTimerOf(t, id, goal) {
      assert KindOf(t, id) == Some(KindOf(t, id).value);
    }
  }

  /** Whether the registrations of a pending recovery left it a timer. */
  predicate Held(c: Context, goal: Goal) { if goal.EapolRetry? then RetryHeld(c.attempts) else RejectHeld(c.attempts) }

  /** Over every joint life of a loop and a context, from their creation on: what the context has gone through
      is a run of `Recovery`, its timers are those on the loop, and a pending recovery has one there if and
      only if the registrations on its behalf say so; so always, if none of those was refused. */
  lemma HeldOnLoop(env: Env, hostap: nat -> Around, id: Pointer, steps: seq<Step>)
    requires Reacts(env, hostap, id) && Interfaced(hostap) && id != ALL_CTX && AllProper(steps, id)
    ensures var w := RunWorld(START, env, hostap, id, steps);
            && Attached(w.loop, w.context, env, hostap, id) && Sound(w.context)
            && (forall goal: Goal :: Pends(w.context, goal) ==>
                 (SomeTimerOf(w.loop.queue, id, goal) <==> Held(w.context, goal)))
            && (!w.context.rejectPending ==> !SomeTimerOf(w.loop.queue, id, RejectionRetry))
            && (NoneRefused(w.context.attempts) ==>
                  forall goal: Goal :: Pends(w.context, goal) ==> SomeTimerOf(w.loop.queue, id, goal))
  {
    hide Reacts, RunWorld, Recovery.Run, SomeTimerOf, Sound, RetryHeld, RejectHeld, AllProper, Interfaced, HasInterface,
         NoneRefused;
    StartAttached(env, hostap, id);
    var inputs := WorldAttached(START, env, hostap, id, steps);
    var w := RunWorld(START, env, hostap, id, steps);
    assert w.context == Recovery.Run(CREATED, inputs);
    EveryRunSound(inputs);
    HeldExactly(inputs);
    if NoneRefused(w.context.attempts) {
      NeverLost(inputs);
    }
    TimerFound(w.loop.queue, id, EapolRetry);
    TimerFound(w.loop.queue, id, RejectionRetry);
    SoundCounts(w.context);
  }

  lemma SoundCounts(c: Context)
    requires Sound(c)
    ensures c.Queued(RejectRetry) <= 1
  {
  }

  /** Every timer of the context for this recovery is due. */
  ghost predicate TimersDue(queue: seq<Timer>, id: Pointer, goal: Goal, now: U64) {
    forall t :: t in queue && IsTimerOf(t, id, goal) ==> t.deadline <= now
  }

  lemma DueFound(queue: seq<Timer>, id: Pointer, goal: Goal, now: U64)
    requires Sorted(queue) && SomeTimerOf(queue, id, goal) && TimersDue(queue, id, goal, now)
    ensures SomeTimerOf(Due(queue, now), id, goal)
  {
    hide Sorted, IsTimerOf;
    DueIsPrefix(queue, now);
    var t :| t in queue && IsTimerOf(t, id, goal);
    var i :| 0 <= i < |queue| && queue[i] == t;
    assert i < |Due(queue, now)|;
    assert Due(queue, now)[i] == t;
  }

  /** Nothing is lost from end to end: after every joint life, a recovery that is pending, and was left a timer
      by its registrations, is performed by the first call of `run_once` at a time when that timer is due,
      a retry unless a first-EAPOL timeout due in the same call supersedes it. */
  lemma PerformedInTheEnd(env: Env, hostap: nat -> Around, id: Pointer, steps: seq<Step>, goal: Goal, budget: U32,
                          now: U64)
    requires Reacts(env, hostap, id) && Interfaced(hostap) && id != ALL_CTX && AllProper(steps, id)
    requires var w := RunWorld(START, env, hostap, id, steps);
             && w.loop.initialized && Pends(w.context, goal) && Held(w.context, goal)
             && env.clock(w.loop.ticks) == Some(now) && ClockFrom(env, w.loop.ticks, now)
             && |Due(w.loop.queue, now)| <= budget && TimersDue(w.loop.queue, id, goal, now)
    ensures var w := RunWorld(START, env, hostap, id, steps);
            Answered(w.context.trace, After(w, env, hostap, id, Poll(budget)).context.trace, goal,
                     goal.EapolRetry? && SomeTimeout(Due(w.loop.queue, now), id))
  {
    hide Reacts, RunWorld, SomeTimerOf, Held, Pends, AllProper, Interfaced, TimersDue, Answered, ContextOnce,
         SomeTimeout, Attached, Due, Sound;
    var w := RunWorld(START, env, hostap, id, steps);
    HeldOnLoop(env, hostap, id, steps);
    AttachedValid(w.loop, w.context, env, hostap, id);
    DueFound(w.loop.queue, id, goal, now);
    GoalPerformed(w.loop, w.context, env, hostap, id, budget, goal, now);
  }
}
