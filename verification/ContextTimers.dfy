/** The timers of one context of `supplicant_ws63.c` among all those of the event loop: how its own calls and
    callbacks change them, and that what others do to the loop does not. */
module ContextTimers {
  import opened Bytes
  import opened TimerQueue
  import opened TimerTheorems
  import opened Recovery

  const FIRST_EAPOL_TIMEOUT_SECONDS := 3

  /** The handler functions of this file, by address. */
  function HandlerOf(kind: Kind): Pointer {
    match kind
    case FirstTimeout => 1
    case Fallback => 2
    case Complete => 3
    case RejectRetry => 4
  }

  /** The timers a context registers and cancels for one handler: the context, and a null argument. */
  function PatternOf(kind: Kind, id: Pointer): Pattern { Pattern(HandlerOf(kind), id, NULL) }

  function QueuedIn(queue: seq<Timer>, id: Pointer, kind: Kind): nat { |Matching(queue, PatternOf(kind, id))| }

  function QueueOf(queue: seq<Timer>, id: Pointer): Queue {
    Queue(QueuedIn(queue, id, FirstTimeout), QueuedIn(queue, id, Fallback), QueuedIn(queue, id, Complete),
          QueuedIn(queue, id, RejectRetry))
  }

  // ----- what the context does to the loop -----

  /** The loop after `eloop_cancel_timeout(handler, context, NULL)`. */
  function LoopCancel(s: Loop, kind: Kind, id: Pointer): Loop { DoCancel(s, PatternOf(kind, id)).0 }

  /** Cancel one handler's timers, then register a timer; also whether that was granted. */
  function LoopRearm(s: Loop, env: Env, gone: Kind, seconds: U32, kind: Kind, id: Pointer): (Loop, int) {
    DoRegister(LoopCancel(s, gone, id), env, seconds, 0, PatternOf(kind, id))
  }

  /** The first-EAPOL timeout: both answers to an earlier one go, and a fallback is due in a second. */
  function LoopTimeout(s: Loop, env: Env, id: Pointer): (Loop, int) {
    LoopRearm(LoopCancel(s, Fallback, id), env, Complete, 1, Fallback, id)
  }

  /** All timers of the context go. */
  function LoopWithdrawn(s: Loop, id: Pointer): Loop {
    LoopCancel(LoopCancel(LoopCancel(LoopCancel(s, FirstTimeout, id), Fallback, id), Complete, id), RejectRetry, id)
  }

  /** An association result; also whether the first-EAPOL timer, if it is rearmed, was granted. */
  function LoopAssociated(s: Loop, env: Env, id: Pointer, associated: bool): (Loop, bool) {
    if !associated then (s, true)
    else
      var (s1, code) := LoopRearm(s, env, FirstTimeout, FIRST_EAPOL_TIMEOUT_SECONDS, FirstTimeout, id);
      (s1, code == 0)
  }

  /** On the counts, cancelling a handler's timers is `Recovery.CancelQueued`. */
  lemma LoopCancelQueue(s: Loop, kind: Kind, id: Pointer)
    ensures QueueOf(LoopCancel(s, kind, id).queue, id) == QueueOf(s.queue, id).With(kind, 0)
  {
    hide Without, Matching;
    forall other: Kind {
      QueueWithout(s.queue, id, kind, other);
    }
  }

  /** On the counts, registering a timer is `Recovery.RegisterQueued`. */
  lemma LoopRegisterQueue(s: Loop, env: Env, seconds: U32, kind: Kind, id: Pointer)
    ensures var (after, r) := DoRegister(s, env, seconds, 0, PatternOf(kind, id));
            QueueOf(after.queue, id) ==
            if r == 0 then QueueOf(s.queue, id).With(kind, QueueOf(s.queue, id).Count(kind) + 1)
            else QueueOf(s.queue, id)
  {
    hide Insert, Matching, Delta, SaturatingAdd;
    var (after, r) := DoRegister(s, env, seconds, 0, PatternOf(kind, id));
    if r == 0 {
      var t := after.log[|s.log|].timer;
      forall other: Kind {
        QueueInsert(s.queue, id, kind, t, other);
      }
    }
  }

  /** On the counts, taking a timer of this context off the front lowers its handler's count. */
  lemma PoppedQueue(s: Loop, kind: Kind, id: Pointer)
    requires s.queue != [] && KindOf(s.queue[0], id) == Some(kind)
    ensures QueueOf(s.queue, id).Count(kind) > 0
    ensures QueueOf(Popped(s).queue, id) == QueueOf(s.queue, id).With(kind, QueueOf(s.queue, id).Count(kind) - 1)
  {
    hide Matching;
    forall other: Kind {
      FrontIsQueued(s.queue, id, kind, other);
    }
  }

  /** A driver's disconnect: for a temporary reject a fresh retry timer, then for a pending first-EAPOL
      retry an immediate completion in place of the fallback. */
  function LoopDisconnected(s: Loop, env: Env, id: Pointer, reason: int, pending: bool): (Loop, bool, bool) {
    var (s1, reject) := if reason == TEMPORARY_REJECT then LoopRearm(s, env, RejectRetry, 0, RejectRetry, id)
        else (s, 0);
    if reject != 0 then (s1, false, true)
    else if !pending then (s1, true, true)
    else
      var (s2, complete) := LoopRearm(s1, env, Fallback, 0, Complete, id);
      (s2, true, complete == 0)
  }

  lemma {:induction false} CountInsert(queue: seq<Timer>, t: Timer, p: Pattern)
    ensures |Matching(Insert(queue, t), p)| == |Matching(queue, p)| + if Matches(t, p) then 1 else 0
  {
    if queue == [] || queue[0].deadline > t.deadline {
      assert ([t] + queue)[1..] == queue;
    } else {
      CountInsert(queue[1..], t, p);
      var r := Insert(queue, t);
      assert r[0] == queue[0] && r[1..] == Insert(queue[1..], t);
    }
  }

  lemma {:induction false} CountWithout(queue: seq<Timer>, gone: Pattern, p: Pattern)
    requires gone == p || gone.handler != p.handler
    ensures |Matching(Without(queue, gone), p)| == if gone == p then 0 else |Matching(queue, p)|
  {
    if queue != [] {
      CountWithout(queue[1..], gone, p);
      var rest := Without(queue[1..], gone);
      assert ([queue[0]] + rest)[1..] == rest;
    }
  }

  /** Cancelling one handler's timers is `Recovery.CancelQueued` on the counts. */
  lemma QueueWithout(queue: seq<Timer>, id: Pointer, kind: Kind, other: Kind)
    ensures QueuedIn(Without(queue, PatternOf(kind, id)), id, other) ==
            if kind == other then 0 else QueuedIn(queue, id, other)
  {
    CountWithout(queue, PatternOf(kind, id), PatternOf(other, id));
  }

  lemma QueueInsert(queue: seq<Timer>, id: Pointer, kind: Kind, t: Timer, other: Kind)
    requires t.handler == HandlerOf(kind) && t.eloopData == id && t.userData == NULL
    ensures QueuedIn(Insert(queue, t), id, other) == QueuedIn(queue, id, other) + if kind == other then 1 else 0
  {
    CountInsert(queue, t, PatternOf(other, id));
  }

  /** When the loop takes one of these timers off its front, exactly that handler's count drops by one. */
  lemma FrontIsQueued(queue: seq<Timer>, id: Pointer, kind: Kind, other: Kind)
    requires queue != [] && Matches(queue[0], PatternOf(kind, id))
    ensures QueuedIn(queue[1..], id, other) == QueuedIn(queue, id, other) - if kind == other then 1 else 0
  {
  }

  // ----- the timers of a context, fired -----

  /** The handler of a call, if its arguments are those this context registers. */
  function KindOfCall(call: Pattern, id: Pointer): Option<Kind> {
    if call.eloopData != id || call.userData != NULL then None
    else if call.handler == 1 then Some(FirstTimeout)
    else if call.handler == 2 then Some(Fallback)
    else if call.handler == 3 then Some(Complete)
    else if call.handler == 4 then Some(RejectRetry)
    else None
  }

  function KindOf(t: Timer, id: Pointer): Option<Kind> { KindOfCall(CallOf(t), id) }

  predicate TimesOut(up: Upstream) { up.hasInterface && up.associated && !up.eapolSeen }

  /** What a callback does to the loop. */
  function CallbackOps(kind: Kind, up: Upstream, id: Pointer): seq<Op> {
    if kind == FirstTimeout && TimesOut(up) then
      [Cancel(PatternOf(Fallback, id)), Cancel(PatternOf(Complete, id)), Register(1, 0, PatternOf(Fallback, id))]
    else []
  }

  /** Whether its registration, if it makes one, is granted. */
  function CallbackGranted(s: Loop, env: Env, kind: Kind, up: Upstream, id: Pointer): bool {
    kind == FirstTimeout && TimesOut(up) ==>
      LoopTimeout(s, env, id).1 == 0
  }

  lemma CallbackOpsDone(s: Loop, env: Env, kind: Kind, up: Upstream, id: Pointer)
    ensures ApplyAll(s, env, CallbackOps(kind, up, id)) ==
            if kind == FirstTimeout && TimesOut(up)
            then LoopTimeout(s, env, id).0 else s
  {
    hide DoCancel, DoRegister;
    if kind == FirstTimeout && TimesOut(up) {
      var ops := CallbackOps(kind, up, id);
      var s1 := Apply(s, env, ops[0]);
      var s2 := Apply(s1, env, ops[1]);
      assert ops[1..] == [ops[1], ops[2]] && ops[1..][1..] == [ops[2]] && [ops[2]][1..] == [];
      assert ApplyAll(s2, env, [ops[2]]) == ApplyAll(Apply(s2, env, ops[2]), env, []);
      assert ApplyAll(s1, env, ops[1..]) == ApplyAll(s2, env, [ops[2]]);
    }
  }

  // ----- what others may do to the loop -----

  /** The pattern can match a timer of this context. */
  predicate Names(what: Pattern, id: Pointer) {
    what.handler in {1, 2, 3, 4} && ContextMatches(id, what.eloopData)
  }

  /** The callbacks are static functions: only their own file can name them, and it names them together with
      a context. Foreign operations therefore leave this context's timers alone. */
  predicate Leaves(op: Op, id: Pointer) {
    match op
    case Init(_) => true
    case Register(_, _, what) => !Names(what, id)
    case Cancel(what) => !Names(what, id)
    case CancelOne(what) => !Names(what, id)
    case Deplete(_, _, what) => !Names(what, id)
    case Replenish(_, _, what) => !Names(what, id)
    case Terminate => true
    case Destroy => false
  }

  predicate AllLeave(ops: seq<Op>, id: Pointer) {
    forall i :: 0 <= i < |ops| ==> Leaves(ops[i], id)
  }

  // ----- foreign operations and the counts -----

  lemma {:induction false} CountWithoutForeign(queue: seq<Timer>, gone: Pattern, p: Pattern)
    requires forall x :: x in queue && Matches(x, gone) ==> !Matches(x, p)
    ensures |Matching(Without(queue, gone), p)| == |Matching(queue, p)|
  {
    hide Matches;
    if queue != [] {
      CountWithoutForeign(queue[1..], gone, p);
      var rest := Without(queue[1..], gone);
      assert ([queue[0]] + rest)[1..] == rest;
    }
  }

  lemma {:induction false} CountDrop(queue: seq<Timer>, k: nat, p: Pattern)
    requires k < |queue| && !Matches(queue[k], p)
    ensures |Matching(Drop(queue, k), p)| == |Matching(queue, p)|
  {
    hide Matches;
    var rest := queue[1..];
    if k == 0 {
      assert Drop(queue, 0) == rest;
    } else {
      CountDrop(rest, k - 1, p);
      assert Drop(queue, k) == [queue[0]] + Drop(rest, k - 1);
      assert ([queue[0]] + Drop(rest, k - 1))[1..] == Drop(rest, k - 1);
    }
  }

  /** A timer that a foreign pattern matches is not this context's. */
  lemma ForeignMatch(t: Timer, what: Pattern, id: Pointer, kind: Kind)
    requires id != ALL_CTX && !Names(what, id) && Matches(t, what)
    ensures !Matches(t, PatternOf(kind, id))
  {
  }

  /** A loop that is not initialized holds no timer. */
  predicate Ready(s: Loop) { s.initialized || s.queue == [] }

  /** What a foreign operation leaves as it was. */
  ghost predicate Spared(s: Loop, after: Loop, id: Pointer) {
    Ready(after) && QueueOf(after.queue, id) == QueueOf(s.queue, id)
  }

  lemma RegisterSpares(s: Loop, env: Env, seconds: U32, microseconds: U32, what: Pattern, id: Pointer)
    requires Ready(s) && id != ALL_CTX && !Names(what, id)
    ensures Spared(s, DoRegister(s, env, seconds, microseconds, what).0, id)
  {
    hide Insert, Matching, Delta, SaturatingAdd;
    var after := DoRegister(s, env, seconds, microseconds, what).0;
    if after.log != s.log {
      var t := after.log[|s.log|].timer;
      forall kind: Kind {
        CountInsert(s.queue, t, PatternOf(kind, id));
      }
      assert forall kind: Kind :: QueuedIn(after.queue, id, kind) == QueuedIn(s.queue, id, kind);
    }
  }

  lemma CancelSpares(s: Loop, what: Pattern, id: Pointer)
    requires Ready(s) && id != ALL_CTX && !Names(what, id)
    ensures Spared(s, DoCancel(s, what).0, id)
  {
    hide Matching, Matches, Names;
    assert s.queue == [] ==> Without(s.queue, what) == [];
    hide Without;
    forall kind: Kind
      ensures QueuedIn(Without(s.queue, what), id, kind) == QueuedIn(s.queue, id, kind)
    {
      forall x | x in s.queue && Matches(x, what)
        ensures !Matches(x, PatternOf(kind, id))
      {
        ForeignMatch(x, what, id, kind);
      }
      CountWithoutForeign(s.queue, what, PatternOf(kind, id));
    }
  }

  lemma CancelOneSpares(s: Loop, env: Env, what: Pattern, id: Pointer)
    requires Ready(s) && id != ALL_CTX && !Names(what, id)
    ensures Spared(s, DoCancelOne(s, env, what).0, id)
  {
    hide Drop, Matching, Matches, Names;
    var k := FirstMatch(s.queue, what);
    if k < |s.queue| {
      forall kind: Kind
        ensures QueuedIn(Drop(s.queue, k), id, kind) == QueuedIn(s.queue, id, kind)
      {
        ForeignMatch(s.queue[k], what, id, kind);
        CountDrop(s.queue, k, PatternOf(kind, id));
      }
    }
  }

  lemma UpdateSpares(s: Loop, env: Env, seconds: U32, microseconds: U32, what: Pattern, deplete: bool, id: Pointer)
    requires Ready(s) && id != ALL_CTX && !Names(what, id)
    ensures Spared(s, DoUpdate(s, env, seconds, microseconds, what, deplete).0, id)
  {
    hide Insert, Drop, Matching, Matches, Names, Delta, SaturatingAdd;
    var after := DoUpdate(s, env, seconds, microseconds, what, deplete).0;
    var k := FirstMatch(s.queue, what);
    if after.log != s.log {
      var moved := s.queue[k].(deadline := after.log[|s.log|].to);
      forall kind: Kind
        ensures QueuedIn(after.queue, id, kind) == QueuedIn(s.queue, id, kind)
      {
        ForeignMatch(s.queue[k], what, id, kind);
        CountDrop(s.queue, k, PatternOf(kind, id));
        CountInsert(Drop(s.queue, k), moved, PatternOf(kind, id));
        MovedMatches(s.queue[k], moved.deadline, PatternOf(kind, id));
      }
    }
  }

  lemma MovedMatches(t: Timer, deadline: U64, p: Pattern)
    ensures Matches(t.(deadline := deadline), p) == Matches(t, p)
  {
  }

  lemma ApplySpares(s: Loop, env: Env, op: Op, id: Pointer)
    requires Ready(s) && id != ALL_CTX && Leaves(op, id)
    ensures Spared(s, Apply(s, env, op), id)
  {
    hide Names, QueueOf, DoRegister, DoCancel, DoCancelOne, DoUpdate;
    match op
    case Init(inTask) =>
    case Register(seconds, microseconds, what) => RegisterSpares(s, env, seconds, microseconds, what, id);
    case Cancel(what) => CancelSpares(s, what, id);
    case CancelOne(what) => CancelOneSpares(s, env, what, id);
    case Deplete(seconds, microseconds, what) => UpdateSpares(s, env, seconds, microseconds, what, true, id);
    case Replenish(seconds, microseconds, what) => UpdateSpares(s, env, seconds, microseconds, what, false, id);
    case Terminate =>
  }

  /** Whatever others do to the loop, a context's timers are as many as before. */
  lemma {:induction false} ApplyAllSpares(s: Loop, env: Env, ops: seq<Op>, id: Pointer)
    requires Ready(s) && id != ALL_CTX && AllLeave(ops, id)
    ensures Spared(s, ApplyAll(s, env, ops), id)
    decreases |ops|
  {
    hide Apply, QueueOf, Leaves, Ready;
    if ops != [] {
      ApplySpares(s, env, ops[0], id);
      ApplyAllSpares(Apply(s, env, ops[0]), env, ops[1..], id);
    }
  }

  lemma {:induction false} ApplyAllAppend(s: Loop, env: Env, first: seq<Op>, second: seq<Op>)
    ensures ApplyAll(s, env, first + second) == ApplyAll(ApplyAll(s, env, first), env, second)
    decreases |first|
  {
    hide Apply;
    if first == [] {
      assert first + second == second;
    } else {
      assert (first + second)[0] == first[0] && (first + second)[1..] == first[1..] + second;
      ApplyAllAppend(Apply(s, env, first[0]), env, first[1..], second);
    }
  }

  // ----- a callback, with what hostap does to the loop in it -----

  /** The callback reaches its calls into hostap. */
  predicate CallsHostap(c: Context, kind: Kind, up: Upstream) {
    match kind
    case FirstTimeout => TimesOut(up)
    case RejectRetry => up.hasInterface && c.rejectPending
    case _ => up.hasInterface && c.retryPending
  }

  /** `hostap` is what those calls do to the loop. They come before the callback's own operations: the timeout
      deauthenticates before it touches its timers, and the others have no operation of their own. */
  function ReactionOf(c: Context, kind: Kind, up: Upstream, hostap: seq<Op>, id: Pointer): seq<Op> {
    (if CallsHostap(c, kind, up) then hostap else []) + CallbackOps(kind, up, id)
  }

  /** The loop in which the callback's own registration is made. */
  function BeforeOwn(s: Loop, env: Env, c: Context, kind: Kind, up: Upstream, hostap: seq<Op>): Loop {
    if CallsHostap(c, kind, up) then ApplyAll(s, env, hostap) else s
  }

  /** Taking the timer off does not decide whether the callback calls hostap. */
  lemma SameReaction(c: Context, now: Context, s: Loop, env: Env, kind: Kind, up: Upstream, hostap: seq<Op>,
                     id: Pointer)
    requires now == c.WithQueued(kind, now.Queued(kind))
    ensures ReactionOf(c, kind, up, hostap, id) == ReactionOf(now, kind, up, hostap, id)
    ensures BeforeOwn(s, env, c, kind, up, hostap) == BeforeOwn(s, env, now, kind, up, hostap)
  {
  }

  /** What a callback does to the loop, in the order of its code. */
  lemma ReactionDone(s: Loop, env: Env, c: Context, kind: Kind, up: Upstream, hostap: seq<Op>, id: Pointer)
    ensures var s1 := BeforeOwn(s, env, c, kind, up, hostap);
            ApplyAll(s, env, ReactionOf(c, kind, up, hostap, id)) ==
            if kind == FirstTimeout && TimesOut(up) then LoopTimeout(s1, env, id).0 else s1
  {
    hide CallbackOps, LoopTimeout;
    var before := if CallsHostap(c, kind, up) then hostap else [];
    ApplyAllAppend(s, env, before, CallbackOps(kind, up, id));
    CallbackOpsDone(BeforeOwn(s, env, c, kind, up, hostap), env, kind, up, id);
  }

  /** The timers of a context after a callback, with foreign operations around its own. */
  lemma CallbackQueue(s: Loop, c: Context, env: Env, kind: Kind, up: Upstream, before: seq<Op>, after: seq<Op>,
                      id: Pointer)
    requires Ready(s) && id != ALL_CTX && AllLeave(before, id) && AllLeave(after, id)
             && c.queued == QueueOf(s.queue, id)
    ensures var granted := CallbackGranted(ApplyAll(s, env, before), env, kind, up, id);
            var end := ApplyAll(s, env, before + CallbackOps(kind, up, id) + after);
            Ready(end) && OnCallback(c, kind, up, granted).queued == QueueOf(end.queue, id)
  {
    hide QueueOf, ApplyAll, CallbackOps, AllLeave, Ready, OnCallback, CallbackGranted;
    var s1 := ApplyAll(s, env, before);
    var ops := CallbackOps(kind, up, id);
    ApplyAllSpares(s, env, before, id);
    ApplyAllAppend(s, env, before, ops);
    ApplyAllAppend(s, env, before + ops, after);
    OwnQueue(s1, c, env, kind, up, id);
    ApplyAllSpares(ApplyAll(s1, env, ops), env, after, id);
  }

  lemma OwnQueue(s: Loop, c: Context, env: Env, kind: Kind, up: Upstream, id: Pointer)
    requires Ready(s) && c.queued == QueueOf(s.queue, id)
    ensures var end := ApplyAll(s, env, CallbackOps(kind, up, id));
            Ready(end) && OnCallback(c, kind, up, CallbackGranted(s, env, kind, up, id)).queued ==
                QueueOf(end.queue, id)
  {
    hide QueueOf, DoCancel, DoRegister, ApplyAll, CallbackOps, Ready;
    CallbackOpsDone(s, env, kind, up, id);
    if kind == FirstTimeout && TimesOut(up) {
      var s1 := LoopCancel(s, Fallback, id);
      var s2 := LoopCancel(s1, Complete, id);
      LoopCancelQueue(s, Fallback, id);
      LoopCancelQueue(s1, Complete, id);
      LoopRegisterQueue(s2, env, 1, Fallback, id);
      CancelReady(s, Fallback, id);
      CancelReady(s1, Complete, id);
      RegisterReady(s2, env, 1, Fallback, id);
    }
  }

  lemma CancelReady(s: Loop, kind: Kind, id: Pointer)
    requires Ready(s)
    ensures Ready(LoopCancel(s, kind, id))
  {
  }

  lemma RegisterReady(s: Loop, env: Env, seconds: U32, kind: Kind, id: Pointer)
    requires Ready(s)
    ensures Ready(DoRegister(s, env, seconds, 0, PatternOf(kind, id)).0)
  {
  }
}
