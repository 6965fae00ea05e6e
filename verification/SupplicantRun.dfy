/** A context of `supplicant_ws63.c` while the event loop runs: the loop fires its timers among those of
    others, each firing is a step of `Recovery`, and a pending recovery whose timer is due is performed. */
module SupplicantRun {
  import opened Bytes
  import opened TimerQueue
  import opened TimerTheorems
  import opened NoStarvation
  import opened Recovery
  import opened ContextTimers

  /** What a call of the loop meets: what it reads from hostap, and, if it is one of this context's callbacks,
      what hostap does to the loop in it before and after the callback's own operations. */
  datatype Around = Around(up: Upstream, before: seq<Op>, after: seq<Op>)

  /** The handlers of this context do what its callbacks do, and whatever hostap does around that; neither
      hostap nor the other handlers touch its timers. */
  ghost predicate Reacts(env: Env, hostap: nat -> Around, id: Pointer) {
    forall n: nat, call: Pattern {:trigger env.react(n, call)} ::
      match KindOfCall(call, id)
      case Some(kind) =>
        && env.react(n, call) == hostap(n).before + CallbackOps(kind, hostap(n).up, id) + hostap(n).after
        && AllLeave(hostap(n).before, id) && AllLeave(hostap(n).after, id)
      case None => AllLeave(env.react(n, call), id)
  }

  predicate Tied(s: Loop, c: Context, id: Pointer) { c.queued == QueueOf(s.queue, id) }

  // ----- the context alongside the loop -----

  /** Whether the registration of the front timer's callback, if it makes one, is granted. */
  function Granted(s: Loop, env: Env, around: Around, kind: Kind, id: Pointer): bool
    requires s.queue != []
  {
    CallbackGranted(ApplyAll(Popped(s), env, around.before), env, kind, around.up, id)
  }

  /** The context after the loop has fired its front timer. */
  function ContextFired(s: Loop, c: Context, env: Env, hostap: nat -> Around, id: Pointer): Context
    requires s.queue != []
  {
    match KindOf(s.queue[0], id)
    case None => c
    case Some(kind) => OnFire(c, kind, hostap(s.calls).up, Granted(s, env, hostap(s.calls), kind, id))
  }

  /** The context after `RunLoop`. */
  function ContextLoop(s: Loop, c: Context, env: Env, hostap: nat -> Around, id: Pointer, budget: U32,
                       completed: nat): Context
    requires completed <= budget
    decreases budget - completed
  {
    if completed >= budget || s.queue == [] then c
    else
      var (s1, current) := Now(s, env);
      if current.None? || s1.queue[0].deadline > current.value then c
      else ContextLoop(TimerQueue.Fire(s1, env), ContextFired(s1, c, env, hostap, id), env, hostap, id, budget,
                       completed + 1)
  }

  /** The context after `RunOnce`. */
  function ContextOnce(s: Loop, c: Context, env: Env, hostap: nat -> Around, id: Pointer, budget: U32): Context {
    if !s.initialized || budget == 0 then c else ContextLoop(s, c, env, hostap, id, budget, 0)
  }

  // ----- one firing -----

  lemma PoppedForeign(s: Loop, id: Pointer)
    requires s.queue != [] && id != ALL_CTX && KindOf(s.queue[0], id).None?
    ensures QueueOf(Popped(s).queue, id) == QueueOf(s.queue, id)
  {
    assert forall kind: Kind :: !Matches(s.queue[0], PatternOf(kind, id));
  }

  lemma QueueCounted(s: Loop, t: Loop, id: Pointer)
    requires t.queue == s.queue
    ensures QueueOf(t.queue, id) == QueueOf(s.queue, id)
  {
  }

  lemma ReactsOwn(env: Env, hostap: nat -> Around, id: Pointer, n: nat, call: Pattern)
    requires Reacts(env, hostap, id)
    ensures match KindOfCall(call, id)
            case Some(kind) =>
              && env.react(n, call) == hostap(n).before + CallbackOps(kind, hostap(n).up, id) + hostap(n).after
              && AllLeave(hostap(n).before, id) && AllLeave(hostap(n).after, id)
            case None => AllLeave(env.react(n, call), id)
  {
  }

  lemma OtherTied(s: Loop, c: Context, env: Env, ops: seq<Op>, id: Pointer)
    requires s.queue != [] && id != ALL_CTX && Ready(Popped(s)) && Tied(s, c, id)
    requires KindOf(s.queue[0], id).None? && AllLeave(ops, id)
    ensures Tied(ApplyAll(Popped(s), env, ops), c, id)
  {
    hide QueueOf, ApplyAll, AllLeave, Ready, KindOf, Popped;
    PoppedForeign(s, id);
    ApplyAllSpares(Popped(s), env, ops, id);
  }

  lemma OwnTied(s: Loop, c: Context, env: Env, around: Around, kind: Kind, id: Pointer)
    requires s.queue != [] && id != ALL_CTX && Ready(Popped(s)) && Tied(s, c, id)
    requires KindOf(s.queue[0], id) == Some(kind) && AllLeave(around.before, id) && AllLeave(around.after, id)
    ensures Tied(ApplyAll(Popped(s), env, around.before + CallbackOps(kind, around.up, id) + around.after),
                 OnFire(c, kind, around.up, Granted(s, env, around, kind, id)), id)
  {
    hide QueueOf, OnCallback, CallbackOps, CallbackGranted, ApplyAll, AllLeave, Ready, KindOf, Popped;
    PoppedQueue(s, kind, id);
    CallbackQueue(Popped(s), c.WithQueued(kind, c.Queued(kind) - 1), env, kind, around.up, around.before, around.after,
                  id);
  }

  /** Firing the front timer is a step of the context, if the timer is its own, and keeps it tied. */
  lemma FireTied(s: Loop, c: Context, env: Env, hostap: nat -> Around, id: Pointer)
    requires Valid(s) && s.queue != [] && id != ALL_CTX && Reacts(env, hostap, id) && Tied(s, c, id)
    ensures Tied(TimerQueue.Fire(s, env), ContextFired(s, c, env, hostap, id), id)
  {
    var t := s.queue[0];
    PoppedReady(s);
    ReactsOwn(env, hostap, id, s.calls, CallOf(t));
    hide QueueOf, OnFire, Granted, CallbackOps, ApplyAll, Reacts, AllLeave, Ready, Valid;
    QueueCounted(ApplyAll(Popped(s), env, env.react(s.calls, CallOf(t))), TimerQueue.Fire(s, env), id);
    match KindOf(t, id)
    case None => OtherTied(s, c, env, env.react(s.calls, CallOf(t)), id);
    case Some(kind) => OwnTied(s, c, env, hostap(s.calls), kind, id);
  }

  lemma PoppedReady(s: Loop)
    requires Valid(s) && s.queue != []
    ensures Ready(Popped(s))
  {
  }

  /** What `Supplicant.FireOwn` leaves behind on the real list and fields is what the loop and the context
      come to here. */
  lemma FireOwnIsFired(s: Loop, c: Context, env: Env, hostap: nat -> Around, id: Pointer, kind: Kind, up: Upstream,
                       ops: seq<Op>)
    requires s.queue != [] && Reacts(env, hostap, id) && KindOf(s.queue[0], id) == Some(kind)
    requires hostap(s.calls) == Around(up, if CallsHostap(c, kind, up) then ops else [], [])
    ensures var after := ApplyAll(Popped(s), env, ReactionOf(c, kind, up, ops, id));
            TimerQueue.Fire(s, env) == after.(executions := Mod32(after.executions + 1))
    ensures ContextFired(s, c, env, hostap, id) ==
            OnFire(c, kind, up, CallbackGranted(BeforeOwn(Popped(s), env, c, kind, up, ops), env, kind, up, id))
  {
    ReactsOwn(env, hostap, id, s.calls, CallOf(s.queue[0]));
    hide Reacts, CallbackOps, CallbackGranted, OnFire, CallsHostap;
    assert ApplyAll(Popped(s), env, []) == Popped(s);
    hide ApplyAll;
    var reaction := ReactionOf(c, kind, up, ops, id);
    assert reaction + [] == reaction;
  }

  // ----- a run of the loop is a run of the context -----

  predicate OnlyFires(inputs: seq<Input>) {
    forall i :: 0 <= i < |inputs| ==> inputs[i].Fire?
  }

  /** The context has its interface whenever the loop calls a handler. */
  ghost predicate Interfaced(hostap: nat -> Around) {
    forall n: nat :: hostap(n).up.hasInterface
  }

  ghost predicate AllInterfaced(inputs: seq<Input>) {
    forall i :: 0 <= i < |inputs| ==> HasInterface(inputs[i])
  }

  /** The context is on the loop. */
  ghost predicate Attached(s: Loop, c: Context, env: Env, hostap: nat -> Around, id: Pointer) {
    Valid(s) && id != ALL_CTX && Reacts(env, hostap, id) && Tied(s, c, id)
  }

  lemma FireAttached(s: Loop, c: Context, env: Env, hostap: nat -> Around, id: Pointer)
    requires Attached(s, c, env, hostap, id) && s.queue != []
    ensures Attached(Ticked(s), c, env, hostap, id)
    ensures Attached(TimerQueue.Fire(Ticked(s), env), ContextFired(Ticked(s), c, env, hostap, id), env, hostap, id)
  {
    TickValid(s);
    QueueCounted(s, Ticked(s), id);
    hide Valid, Reacts, QueueOf, TimerQueue.Fire, ContextFired;
    FireTied(Ticked(s), c, env, hostap, id);
    FireKeepsValid(Ticked(s), env);
  }

  lemma {:induction false} LoopIsRun(s: Loop, c: Context, env: Env, hostap: nat -> Around, id: Pointer, budget: U32,
                                     completed: nat)
    returns (inputs: seq<Input>)
    requires Attached(s, c, env, hostap, id) && completed <= budget
    ensures Interfaced(hostap) ==> AllInterfaced(inputs)
    ensures OnlyFires(inputs) && ContextLoop(s, c, env, hostap, id, budget, completed) == Recovery.Run(c, inputs)
    ensures Attached(RunLoop(s, env, budget, completed).0, ContextLoop(s, c, env, hostap, id, budget, completed), env,
                     hostap, id)
    decreases budget - completed
  {
    hide RunLoop, ContextLoop, Attached, TimerQueue.Fire, ContextFired, Recovery.Run, OnlyFires;
    if completed < budget && FrontDue(s, env) {
      var s1 := Ticked(s);
      LoopUnfolds(s, c, env, hostap, id, budget, completed);
      FireAttached(s, c, env, hostap, id);
      var next := ContextFired(s1, c, env, hostap, id);
      var rest := LoopIsRun(TimerQueue.Fire(s1, env), next, env, hostap, id, budget, completed + 1);
      inputs := FiredRun(s1, c, env, hostap, id, rest);
    } else {
      inputs := [];
      LoopStops(s, c, env, hostap, id, budget, completed);
    }
  }

  lemma FiredRun(s: Loop, c: Context, env: Env, hostap: nat -> Around, id: Pointer, rest: seq<Input>)
    returns (inputs: seq<Input>)
    requires s.queue != [] && OnlyFires(rest)
    ensures Interfaced(hostap) && AllInterfaced(rest) ==> AllInterfaced(inputs)
    ensures OnlyFires(inputs) && Recovery.Run(c, inputs) == Recovery.Run(ContextFired(s, c, env, hostap, id), rest)
  {
    hide OnFire, Granted;
    match KindOf(s.queue[0], id)
    case None => inputs := rest;
    case Some(kind) =>
      var first := Input.Fire(kind, hostap(s.calls).up, Granted(s, env, hostap(s.calls), kind, id));
      inputs := [first] + rest;
      assert inputs[1..] == rest;
  }

  lemma LoopUnfolds(s: Loop, c: Context, env: Env, hostap: nat -> Around, id: Pointer, budget: U32, completed: nat)
    requires completed < budget && FrontDue(s, env)
    ensures RunLoop(s, env, budget, completed) == RunLoop(TimerQueue.Fire(Ticked(s), env), env, budget, completed + 1)
    ensures ContextLoop(s, c, env, hostap, id, budget, completed) ==
            ContextLoop(TimerQueue.Fire(Ticked(s), env), ContextFired(Ticked(s), c, env, hostap, id), env, hostap, id,
                        budget, completed + 1)
  {
    hide TimerQueue.Fire, ContextFired;
  }

  lemma LoopStops(s: Loop, c: Context, env: Env, hostap: nat -> Around, id: Pointer, budget: U32, completed: nat)
    requires completed <= budget && !(completed < budget && FrontDue(s, env))
    ensures ContextLoop(s, c, env, hostap, id, budget, completed) == c == Recovery.Run(c, []) && OnlyFires([])
    ensures Attached(s, c, env, hostap, id) ==> Attached(RunLoop(s, env, budget, completed).0, c, env, hostap, id)
  {
    if Attached(s, c, env, hostap, id) {
      TickValid(s);
      QueueCounted(s, s.(ticks := s.ticks + 1), id);
    }
  }

  /** Every `run_once` is, for a context on the loop, a run of `Recovery` that only fires timers, so every
      theorem about runs holds of it; and its timers stay counted. */
  lemma OnceIsRun(s: Loop, c: Context, env: Env, hostap: nat -> Around, id: Pointer, budget: U32)
    returns (inputs: seq<Input>)
    requires Attached(s, c, env, hostap, id)
    ensures Interfaced(hostap) ==> AllInterfaced(inputs)
    ensures OnlyFires(inputs) && ContextOnce(s, c, env, hostap, id, budget) == Recovery.Run(c, inputs)
    ensures Attached(RunOnce(s, env, budget).0, ContextOnce(s, c, env, hostap, id, budget), env, hostap, id)
  {
    hide RunLoop, ContextLoop, Attached;
    if s.initialized && budget != 0 {
      inputs := LoopIsRun(s, c, env, hostap, id, budget, 0);
    } else {
      inputs := [];
    }
  }

  // ----- a pending recovery is performed -----

  /** What is waited for: the retry after a missing first EAPOL frame, or the one after a temporary reject. */
  datatype Goal = EapolRetry | RejectionRetry

  predicate Pends(c: Context, goal: Goal) { if goal.EapolRetry? then c.retryPending else c.rejectPending }

  predicate Performs(kind: Kind, goal: Goal) {
    if goal.EapolRetry? then kind == Fallback || kind == Complete else kind == RejectRetry
  }

  predicate IsTimerOf(t: Timer, id: Pointer, goal: Goal) {
    KindOf(t, id).Some? && Performs(KindOf(t, id).value, goal)
  }

  ghost predicate SomeTimerOf(timers: seq<Timer>, id: Pointer, goal: Goal) {
    exists t :: t in timers && IsTimerOf(t, id, goal)
  }

  ghost predicate SomeTimeout(timers: seq<Timer>, id: Pointer) {
    exists t :: t in timers && KindOf(t, id) == Some(FirstTimeout)
  }

  /** A new first-EAPOL timeout takes the place of a retry that is still pending. */
  predicate Supersedes(kind: Kind, up: Upstream, goal: Goal) {
    goal.EapolRetry? && kind == FirstTimeout && TimesOut(up)
  }

  predicate IsAnswer(action: Action, goal: Goal, allowed: bool) {
    (if goal.EapolRetry? then action.Retried? else action.RejectRetried?) || (allowed && action.TimedOut?)
  }

  /** What follows `shorter` in `longer` has the retry; or, if that is `allowed`, a new timeout. */
  ghost predicate Answered(shorter: seq<Action>, longer: seq<Action>, goal: Goal, allowed: bool) {
    shorter <= longer && exists i :: |shorter| <= i < |longer| && IsAnswer(longer[i], goal, allowed)
  }

  lemma FireGrows(c: Context, kind: Kind, up: Upstream, granted: bool)
    ensures c.trace <= OnFire(c, kind, up, granted).trace
  {
  }

  lemma {:induction false} ContextGrows(s: Loop, c: Context, env: Env, hostap: nat -> Around, id: Pointer, budget: U32,
                                        completed: nat)
    requires completed <= budget
    ensures c.trace <= ContextLoop(s, c, env, hostap, id, budget, completed).trace
    decreases budget - completed
  {
    if completed < budget && FrontDue(s, env) {
      LoopUnfolds(s, c, env, hostap, id, budget, completed);
      hide ContextLoop, TimerQueue.Fire, OnFire, Granted, CallbackOps;
      var s1 := Ticked(s);
      if KindOf(s.queue[0], id).Some? {
        var kind := KindOf(s.queue[0], id).value;
        FireGrows(c, kind, hostap(s.calls).up, Granted(s1, env, hostap(s.calls), kind, id));
      }
      ContextGrows(TimerQueue.Fire(s1, env), ContextFired(s1, c, env, hostap, id), env, hostap, id, budget,
                   completed + 1);
    }
  }

  /** A callback that performs a pending recovery says so in the trace. */
  lemma CallbackPerforms(c: Context, kind: Kind, up: Upstream, granted: bool, goal: Goal)
    requires Pends(c, goal) && up.hasInterface && c.Queued(kind) > 0 && Performs(kind, goal)
    ensures Answered(c.trace, OnFire(c, kind, up, granted).trace, goal, false)
  {
    var after := OnFire(c, kind, up, granted);
    assert c.trace <= after.trace && IsAnswer(after.trace[|c.trace|], goal, false);
  }

  lemma CallbackSupersedes(c: Context, kind: Kind, up: Upstream, granted: bool, goal: Goal)
    requires c.Queued(kind) > 0 && Supersedes(kind, up, goal)
    ensures Answered(c.trace, OnFire(c, kind, up, granted).trace, goal, true)
  {
    var after := OnFire(c, kind, up, granted);
    assert c.trace <= after.trace && IsAnswer(after.trace[|c.trace|], goal, true);
  }

  lemma CallbackLeaves(c: Context, kind: Kind, up: Upstream, granted: bool, goal: Goal)
    requires Pends(c, goal) && !Performs(kind, goal) && !Supersedes(kind, up, goal)
    ensures Pends(OnFire(c, kind, up, granted), goal)
  {
  }

  /** A callback that runs while a recovery is pending performs it, supersedes it, or leaves it pending. */
  lemma CallbackAnswers(c: Context, kind: Kind, up: Upstream, granted: bool, goal: Goal)
    requires Pends(c, goal) && up.hasInterface && c.Queued(kind) > 0
    ensures var after := OnFire(c, kind, up, granted);
            && c.trace <= after.trace
            && (Performs(kind, goal) ==> Answered(c.trace, after.trace, goal, false))
            && (Supersedes(kind, up, goal) ==> Answered(c.trace, after.trace, goal, true))
            && (!Performs(kind, goal) && !Supersedes(kind, up, goal) ==> Pends(after, goal))
  {
    hide OnFire, Answered, Pends, Performs, Supersedes;
    FireGrows(c, kind, up, granted);
    if Performs(kind, goal) {
      CallbackPerforms(c, kind, up, granted, goal);
    }
    if Supersedes(kind, up, goal) {
      CallbackSupersedes(c, kind, up, granted, goal);
    }
    if !Performs(kind, goal) && !Supersedes(kind, up, goal) {
      CallbackLeaves(c, kind, up, granted, goal);
    }
  }

  lemma AnsweredLater(a: seq<Action>, b: seq<Action>, c: seq<Action>, goal: Goal, allowed: bool)
    requires (Answered(a, b, goal, allowed) && b <= c) || (a <= b && Answered(b, c, goal, allowed))
    ensures Answered(a, c, goal, allowed)
  {
    if Answered(a, b, goal, allowed) && b <= c {
      var i :| |a| <= i < |b| && IsAnswer(b[i], goal, allowed);
      assert c[i] == b[i];
    }
  }

  lemma AnsweredMore(a: seq<Action>, b: seq<Action>, goal: Goal, some: bool, allowed: bool)
    requires Answered(a, b, goal, some) && (some ==> allowed)
    ensures Answered(a, b, goal, allowed)
  {
    var i :| |a| <= i < |b| && IsAnswer(b[i], goal, some);
    assert IsAnswer(b[i], goal, allowed);
  }

  lemma {:induction false} KeptStays(front: seq<Timer>, log: seq<Event>, t: Timer)
    requires t in front && !Gone(log, t)
    ensures t in Kept(front, log)
  {
    hide Gone;
    if front[0] != t {
      KeptStays(front[1..], log, t);
    }
  }

  // ----- operations that leave one timer alone -----

  predicate Avoids(op: Op, t: Timer) {
    match op
    case Cancel(what) => !Matches(t, what)
    case CancelOne(what) => !Matches(t, what)
    case Deplete(_, _, what) => !Matches(t, what)
    case Replenish(_, _, what) => !Matches(t, what)
    case Destroy => false
    case _ => true
  }

  predicate AllAvoid(ops: seq<Op>, t: Timer) {
    forall i :: 0 <= i < |ops| ==> Avoids(ops[i], t)
  }

  /** The log has grown, by nothing about the end of `t`. */
  ghost predicate NotEnded(s: Loop, after: Loop, t: Timer) { s.log <= after.log && !Gone(Suffix(s, after), t) }

  lemma {:induction false} MatchingMatches(queue: seq<Timer>, p: Pattern)
    ensures forall i :: 0 <= i < |Matching(queue, p)| ==> Matches(Matching(queue, p)[i], p)
  {
    hide Matches;
    if queue != [] {
      MatchingMatches(queue[1..], p);
    }
  }

  lemma CancelAvoids(s: Loop, what: Pattern, t: Timer)
    requires !Matches(t, what)
    ensures NotEnded(s, DoCancel(s, what).0, t)
  {
    hide Without, Matching, Matches;
    MatchingMatches(s.queue, what);
    assert Suffix(s, DoCancel(s, what).0) == AllCancelled(Matching(s.queue, what));
  }

  lemma CancelOneAvoids(s: Loop, env: Env, what: Pattern, t: Timer)
    requires !Matches(t, what)
    ensures NotEnded(s, DoCancelOne(s, env, what).0, t)
  {
    hide Drop, Matches;
    var after := DoCancelOne(s, env, what).0;
    assert Suffix(s, after) == if after.log == s.log then [] else [after.log[|s.log|]];
  }

  lemma UpdateAvoids(s: Loop, env: Env, seconds: U32, microseconds: U32, what: Pattern, deplete: bool, t: Timer)
    requires !Matches(t, what)
    ensures NotEnded(s, DoUpdate(s, env, seconds, microseconds, what, deplete).0, t)
  {
    hide Insert, Drop, Delta, SaturatingAdd, Matches;
    var after := DoUpdate(s, env, seconds, microseconds, what, deplete).0;
    assert Suffix(s, after) == if after.log == s.log then [] else [after.log[|s.log|]];
  }

  lemma RegisterAvoids(s: Loop, env: Env, seconds: U32, microseconds: U32, what: Pattern, t: Timer)
    ensures NotEnded(s, DoRegister(s, env, seconds, microseconds, what).0, t)
  {
    hide Insert, Delta, SaturatingAdd;
    var after := DoRegister(s, env, seconds, microseconds, what).0;
    assert Suffix(s, after) == if after.log == s.log then [] else [after.log[|s.log|]];
  }

  lemma SameLogAvoids(s: Loop, after: Loop, t: Timer)
    requires after.log == s.log
    ensures NotEnded(s, after, t)
  {
    assert Suffix(s, after) == [];
  }

  lemma ApplyAvoids(s: Loop, env: Env, op: Op, t: Timer)
    requires Avoids(op, t)
    ensures NotEnded(s, Apply(s, env, op), t)
  {
    hide NotEnded, DoRegister, DoCancel, DoCancelOne, DoUpdate, Matches;
    match op
    case Init(inTask) => SameLogAvoids(s, Apply(s, env, op), t);
    case Register(seconds, microseconds, what) => RegisterAvoids(s, env, seconds, microseconds, what, t);
    case Cancel(what) => CancelAvoids(s, what, t);
    case CancelOne(what) => CancelOneAvoids(s, env, what, t);
    case Deplete(seconds, microseconds, what) => UpdateAvoids(s, env, seconds, microseconds, what, true, t);
    case Replenish(seconds, microseconds, what) => UpdateAvoids(s, env, seconds, microseconds, what, false, t);
    case Terminate => SameLogAvoids(s, Apply(s, env, op), t);
  }

  lemma {:induction false} ApplyAllAvoid(s: Loop, env: Env, ops: seq<Op>, t: Timer)
    requires AllAvoid(ops, t)
    ensures NotEnded(s, ApplyAll(s, env, ops), t)
    decreases |ops|
  {
    hide Apply, Gone, Avoids;
    if ops == [] {
      assert Suffix(s, s) == [];
      NotGone([], t);
    } else {
      var next := Apply(s, env, ops[0]);
      ApplyAvoids(s, env, ops[0], t);
      ApplyAllAvoid(next, env, ops[1..], t);
      NotEndedTwice(s, next, ApplyAll(next, env, ops[1..]), t);
    }
  }

  lemma NotEndedTwice(a: Loop, b: Loop, c: Loop, t: Timer)
    requires NotEnded(a, b, t) && NotEnded(b, c, t)
    ensures NotEnded(a, c, t)
  {
    hide Gone;
    SuffixTwo(a, b, c);
    GoneAppend(Suffix(a, b), Suffix(b, c), t);
  }

  /** Foreign operations avoid every timer of the context. */
  lemma LeavesAvoids(ops: seq<Op>, id: Pointer, t: Timer)
    requires id != ALL_CTX && AllLeave(ops, id) && KindOf(t, id).Some?
    ensures AllAvoid(ops, t)
  {
    forall i | 0 <= i < |ops|
      ensures Avoids(ops[i], t)
    {
      assert Leaves(ops[i], id);
    }
  }

  /** A callback that does not supersede a recovery avoids its timers. */
  lemma CallbackAvoids(kind: Kind, up: Upstream, id: Pointer, t: Timer, goal: Goal)
    requires !Supersedes(kind, up, goal) && IsTimerOf(t, id, goal)
    ensures AllAvoid(CallbackOps(kind, up, id), t)
  {
  }

  lemma AvoidAppend(first: seq<Op>, second: seq<Op>, t: Timer)
    requires AllAvoid(first, t) && AllAvoid(second, t)
    ensures AllAvoid(first + second, t)
  {
    hide Avoids;
  }

  /** Firing a timer that does not supersede the recovery leaves each of its timers in what is kept. */
  lemma FireSpares(s: Loop, env: Env, hostap: nat -> Around, id: Pointer, t: Timer, goal: Goal)
    requires s.queue != [] && id != ALL_CTX && Reacts(env, hostap, id) && IsTimerOf(t, id, goal)
    requires KindOf(s.queue[0], id).Some? ==> !Supersedes(KindOf(s.queue[0], id).value, hostap(s.calls).up, goal)
    ensures NotEnded(s, TimerQueue.Fire(s, env), t)
  {
    var first, around := s.queue[0], hostap(s.calls);
    var s1 := Popped(s);
    var ops := env.react(s.calls, CallOf(first));
    var after := ApplyAll(s1, env, ops);
    ReactsOwn(env, hostap, id, s.calls, CallOf(first));
    var own := [Executed(first)];
    assert Suffix(s, s1) == own;
    NotGone(own, t);
    assert after.log == TimerQueue.Fire(s, env).log;
    hide Reacts, Gone, CallbackOps, AllAvoid, ApplyAll, Popped, AllLeave, TimerQueue.Fire;
    if KindOf(first, id).None? {
      LeavesAvoids(ops, id, t);
    } else {
      var middle := CallbackOps(KindOf(first, id).value, around.up, id);
      LeavesAvoids(around.before, id, t);
      LeavesAvoids(around.after, id, t);
      CallbackAvoids(KindOf(first, id).value, around.up, id, t, goal);
      AvoidAppend(around.before, middle, t);
      AvoidAppend(around.before + middle, around.after, t);
    }
    ApplyAllAvoid(s1, env, ops, t);
    NotEndedTwice(s, s1, after, t);
  }

  // ----- the induction over the due front -----

  /** The front timer does not perform the recovery and does not supersede it: it is still pending, and its
      timer still in the due front. */
  lemma StillPends(s: Loop, c: Context, env: Env, hostap: nat -> Around, id: Pointer, front: seq<Timer>, t: Timer,
                   goal: Goal)
    requires Attached(s, c, env, hostap, id) && Pends(c, goal) && Interfaced(hostap)
    requires front != [] && front <= s.queue && t in front && IsTimerOf(t, id, goal)
    requires !IsTimerOf(front[0], id, goal)
    requires KindOf(front[0], id).Some? ==> !Supersedes(KindOf(front[0], id).value, hostap(s.calls).up, goal)
    ensures Pends(ContextFired(s, c, env, hostap, id), goal) && c.trace <= ContextFired(s, c, env, hostap, id).trace
    ensures s.log <= TimerQueue.Fire(s, env).log && t in Kept(front[1..], Suffix(s, TimerQueue.Fire(s, env)))
  {
    hide Valid, Reacts, OnFire, Granted, TimerQueue.Fire, Gone, Kept, QueueOf;
    assert front[0] == s.queue[0];
    FireSpares(s, env, hostap, id, t, goal);
    KeptStays(front[1..], Suffix(s, TimerQueue.Fire(s, env)), t);
    if KindOf(s.queue[0], id).Some? {
      var kind := KindOf(s.queue[0], id).value;
      PoppedQueue(s, kind, id);
      CallbackAnswers(c, kind, hostap(s.calls).up, Granted(s, env, hostap(s.calls), kind, id), goal);
    }
  }

  /** The front timer performs the recovery, or supersedes it. */
  lemma FrontAnswers(s: Loop, c: Context, env: Env, hostap: nat -> Around, id: Pointer, goal: Goal, allowed: bool)
    requires s.queue != [] && Attached(s, c, env, hostap, id) && Pends(c, goal) && Interfaced(hostap)
    requires KindOf(s.queue[0], id).Some?
    requires IsTimerOf(s.queue[0], id, goal)
             || (allowed && Supersedes(KindOf(s.queue[0], id).value, hostap(s.calls).up, goal))
    ensures Answered(c.trace, ContextFired(s, c, env, hostap, id).trace, goal, allowed)
  {
    hide OnFire, Granted, QueueOf, Answered, Valid, Reacts;
    var kind := KindOf(s.queue[0], id).value;
    PoppedQueue(s, kind, id);
    CallbackAnswers(c, kind, hostap(s.calls).up, Granted(s, env, hostap(s.calls), kind, id), goal);
    if IsTimerOf(s.queue[0], id, goal) {
      AnsweredMore(c.trace, ContextFired(s, c, env, hostap, id).trace, goal, false, allowed);
    }
  }

  /** One firing of the loop on a due front that holds a timer of the recovery: it is answered, or the rest
      of the front still holds that timer. */
  lemma FrontStep(s: Loop, c: Context, env: Env, hostap: nat -> Around, id: Pointer, front: seq<Timer>, t: Timer,
                  goal: Goal, allowed: bool, now: U64)
    returns (kept: seq<Timer>)
    requires Attached(s, c, env, hostap, id) && Pends(c, goal) && Interfaced(hostap)
    requires front != [] && front <= s.queue && AllDue(front, now) && ClockFrom(env, s.ticks, now)
    requires t in front && IsTimerOf(t, id, goal) && (goal.EapolRetry? && SomeTimeout(front, id) ==> allowed)
    ensures var fired, next := TimerQueue.Fire(s, env), ContextFired(s, c, env, hostap, id);
            || Answered(c.trace, next.trace, goal, allowed)
            || (&& Pends(next, goal) && c.trace <= next.trace
                && kept <= fired.queue && |kept| < |front| && AllDue(kept, now) && s.ticks <= fired.ticks
                && t in kept && (goal.EapolRetry? && SomeTimeout(kept, id) ==> allowed))
  {
    hide Attached, TimerQueue.Fire, ContextFired, AllDue, Kept, Gone, Answered, StaysGone, ExecutedIn, CallbackOps;
    var first := front[0];
    assert first == s.queue[0];
    if IsTimerOf(first, id, goal) || (KindOf(first, id).Some?
        && Supersedes(KindOf(first, id).value, hostap(s.calls).up, goal)) {
      kept := [];
      FrontAnswers(s, c, env, hostap, id, goal, allowed);
    } else {
      StillPends(s, c, env, hostap, id, front, t, goal);
      AttachedValid(s, c, env, hostap, id);
      kept := FireFront(s, env, front, now);
      KeptShrinks(front[1..], Suffix(s, TimerQueue.Fire(s, env)));
    }
  }

  lemma {:induction false} FrontPerformed(s: Loop, c: Context, env: Env, hostap: nat -> Around, id: Pointer,
                                          budget: U32, completed: nat, front: seq<Timer>, t: Timer,
                                          goal: Goal, allowed: bool, now: U64)
    requires Attached(s, c, env, hostap, id) && Pends(c, goal) && Interfaced(hostap)
    requires front <= s.queue && AllDue(front, now) && ClockFrom(env, s.ticks, now) && completed + |front| <= budget
    requires t in front && IsTimerOf(t, id, goal) && (goal.EapolRetry? && SomeTimeout(front, id) ==> allowed)
    ensures Answered(c.trace, ContextLoop(s, c, env, hostap, id, budget, completed).trace, goal, allowed)
    decreases budget - completed
  {
    hide Attached, ContextLoop, RunLoop, TimerQueue.Fire, ContextFired, SomeTimeout, IsTimerOf, Answered, Pends;
    var s1 := Ticked(s);
    assert front[0] == s.queue[0];
    LoopUnfolds(s, c, env, hostap, id, budget, completed);
    FireAttached(s, c, env, hostap, id);
    var fired, next := TimerQueue.Fire(s1, env), ContextFired(s1, c, env, hostap, id);
    var kept := FrontStep(s1, c, env, hostap, id, front, t, goal, allowed, now);
    if Answered(c.trace, next.trace, goal, allowed) {
      ContextGrows(fired, next, env, hostap, id, budget, completed + 1);
    } else {
      FrontPerformed(fired, next, env, hostap, id, budget, completed + 1, kept, t, goal, allowed, now);
    }
    AnsweredLater(c.trace, next.trace, ContextLoop(fired, next, env, hostap, id, budget, completed + 1).trace, goal,
                  allowed);
  }

  lemma AttachedValid(s: Loop, c: Context, env: Env, hostap: nat -> Around, id: Pointer)
    requires Attached(s, c, env, hostap, id)
    ensures Valid(s) && Sorted(s.queue)
  {
  }

  lemma GoalPerformed(s: Loop, c: Context, env: Env, hostap: nat -> Around, id: Pointer, budget: U32, goal: Goal,
                      now: U64)
    requires Attached(s, c, env, hostap, id) && s.initialized && Pends(c, goal) && Interfaced(hostap)
    requires env.clock(s.ticks) == Some(now) && ClockFrom(env, s.ticks, now) && |Due(s.queue, now)| <= budget
    requires SomeTimerOf(Due(s.queue, now), id, goal)
    ensures Answered(c.trace, ContextOnce(s, c, env, hostap, id, budget).trace, goal,
                     goal.EapolRetry? && SomeTimeout(Due(s.queue, now), id))
  {
    hide ContextLoop, Attached, Answered, Pends, IsTimerOf, SomeTimeout;
    var due := Due(s.queue, now);
    AttachedValid(s, c, env, hostap, id);
    DueIsPrefix(s.queue, now);
    var t :| t in due && IsTimerOf(t, id, goal);
    FrontPerformed(s, c, env, hostap, id, budget, 0, due, t, goal, goal.EapolRetry? && SomeTimeout(due, id), now);
  }

  /** No lost retry: with a working clock and a budget for the timers that are due, a pending retry whose
      fallback or completion is due is performed in that call of `run_once`, whatever hostap and the other
      handlers do, unless a first-EAPOL timeout of the same context is due in it too, which may supersede it. */
  lemma PendingRetryPerformed(s: Loop, c: Context, env: Env, hostap: nat -> Around, id: Pointer, budget: U32, now: U64)
    requires Attached(s, c, env, hostap, id) && s.initialized && c.retryPending && Interfaced(hostap)
    requires env.clock(s.ticks) == Some(now) && ClockFrom(env, s.ticks, now) && |Due(s.queue, now)| <= budget
    requires SomeTimerOf(Due(s.queue, now), id, EapolRetry)
    ensures Answered(c.trace, ContextOnce(s, c, env, hostap, id, budget).trace, EapolRetry,
                     SomeTimeout(Due(s.queue, now), id))
  {
    hide ContextOnce, Attached, Answered, SomeTimeout, SomeTimerOf;
    GoalPerformed(s, c, env, hostap, id, budget, EapolRetry, now);
  }

  /** The same for the retry after a temporary reject, which nothing supersedes. */
  lemma PendingRejectPerformed(s: Loop, c: Context, env: Env, hostap: nat -> Around, id: Pointer, budget: U32, now: U64)
    requires Attached(s, c, env, hostap, id) && s.initialized && c.rejectPending && Interfaced(hostap)
    requires env.clock(s.ticks) == Some(now) && ClockFrom(env, s.ticks, now) && |Due(s.queue, now)| <= budget
    requires SomeTimerOf(Due(s.queue, now), id, RejectionRetry)
    ensures Answered(c.trace, ContextOnce(s, c, env, hostap, id, budget).trace, RejectionRetry, false)
  {
    hide ContextOnce, Attached, Answered, SomeTimeout, SomeTimerOf;
    GoalPerformed(s, c, env, hostap, id, budget, RejectionRetry, now);
  }

  // ----- the assumptions can hold -----

  const ID: Pointer := 5

  const RETRY_TIMER := Timer(1_000_000, 2, ID, NULL, 0)

  /** A loop that holds the fallback of a context, and that context. */
  const RETRY_LOOP :=
    FRESH.(queue := [RETRY_TIMER], initialized := true, registrations := 1, serial := 1,
           log := [Registered(RETRY_TIMER)])
  const RETRY_CONTEXT := CREATED.(retryPending := true, queued := Queue(0, 1, 0, 0))

  /** hostap's own scan timer, for which its retry asks. */
  const SCAN := Register(0, 100_000, Pattern(9, 7, NULL))

  function WithScan(n: nat): Around { Around(UP, [SCAN], []) }

  /** It is two seconds after the start; the callbacks of the context ask hostap for a scan, and no handler
      of another file does anything. */
  function RetryEnv(): Env {
    Env((n: nat) => Some(2_000_000), (n: nat) => true,
        (n: nat, call: Pattern) =>
          match KindOfCall(call, ID)
          case Some(kind) => WithScan(n).before + CallbackOps(kind, WithScan(n).up, ID) + WithScan(n).after
          case None => [])
  }

  lemma RetryReacts()
    ensures Reacts(RetryEnv(), WithScan, ID)
  {
    assert Leaves(SCAN, ID);
    assert forall n: nat :: AllLeave(WithScan(n).before, ID) && AllLeave(WithScan(n).after, ID);
    hide KindOfCall, CallbackOps, Leaves;
  }

  lemma OneMatching(t: Timer, p: Pattern)
    ensures |Matching([t], p)| == if Matches(t, p) then 1 else 0
  {
    assert [t][1..] == [];
  }

  lemma RetryTied()
    ensures Tied(RETRY_LOOP, RETRY_CONTEXT, ID) && SomeTimerOf(Due(RETRY_LOOP.queue, 2_000_000), ID, EapolRetry)
  {
    forall kind: Kind
      ensures QueuedIn([RETRY_TIMER], ID, kind) == if kind == Fallback then 1 else 0
    {
      OneMatching(RETRY_TIMER, PatternOf(kind, ID));
    }
    RetryDue();
    assert RETRY_TIMER in Due(RETRY_LOOP.queue, 2_000_000) && IsTimerOf(RETRY_TIMER, ID, EapolRetry);
  }

  lemma RetryValid()
    ensures Valid(RETRY_LOOP)
  {
    hide Placed, CountIf;
    OneRegistered(RETRY_TIMER);
  }

  lemma RetryDue()
    ensures Due([RETRY_TIMER], 2_000_000) == [RETRY_TIMER]
  {
    assert [RETRY_TIMER][1..] == [];
  }

  /** All that is assumed above holds of this loop, and the retry is performed. */
  lemma RetryPerformedExample()
    ensures Attached(RETRY_LOOP, RETRY_CONTEXT, RetryEnv(), WithScan, ID)
    ensures Answered([], ContextOnce(RETRY_LOOP, RETRY_CONTEXT, RetryEnv(), WithScan, ID, 1).trace, EapolRetry, false)
  {
    hide Valid, Tied, Reacts, ContextOnce, Answered, Due, SomeTimerOf;
    RetryValid();
    RetryTied();
    RetryReacts();
    RetryDue();
    assert !SomeTimeout([RETRY_TIMER], ID);
    PendingRetryPerformed(RETRY_LOOP, RETRY_CONTEXT, RetryEnv(), WithScan, ID, 1, 2_000_000);
  }
}
