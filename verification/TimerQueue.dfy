/** The event loop's timers as a value: a queue sorted by deadline, edited by register, cancel, deplete,
    replenish and destroy, and drained by `run_once`, whose handlers may edit the queue themselves. */
module TimerQueue {
  import opened Bytes

  type U64 = w: int | 0 <= w < 0x1_0000_0000_0000_0000

  const U64_MAX: U64 := 0xffff_ffff_ffff_ffff

  /** Handlers and contexts are identities; 0 is the null pointer, -1 is ELOOP_ALL_CTX. */
  type Pointer = int

  const NULL: Pointer := 0
  const ALL_CTX: Pointer := -1

  /** `serial` numbers registrations: it stands for the identity of the allocated node. */
  datatype Timer = Timer(deadline: U64, handler: Pointer, eloopData: Pointer, userData: Pointer, serial: nat)

  datatype Pattern = Pattern(handler: Pointer, eloopData: Pointer, userData: Pointer)

  datatype Event =
    | Registered(timer: Timer)
    | Executed(timer: Timer)
    | Cancelled(timer: Timer)
    | Moved(timer: Timer, to: U64)
    | Destroyed(timer: Timer)

  datatype Op =
    | Init(inTask: bool)
    | Register(seconds: U32, microseconds: U32, what: Pattern)
    | Cancel(what: Pattern)
    | CancelOne(what: Pattern)
    | Deplete(seconds: U32, microseconds: U32, what: Pattern)
    | Replenish(seconds: U32, microseconds: U32, what: Pattern)
    | Terminate
    | Destroy

  /** Everything outside the loop: what the n-th clock reading returns (None if it fails), whether the
      n-th allocation succeeds, and what the n-th handler call does to the loop. */
  datatype Env = Env(clock: nat -> Option<U64>, alloc: nat -> bool, react: (nat, Pattern) -> seq<Op>)

  datatype Loop = Loop(
    queue: seq<Timer>, initialized: bool, terminate: bool,
    registrations: U32, failures: U32, executions: U32, wakes: nat,
    ticks: nat, allocs: nat, calls: nat, serial: nat, log: seq<Event>)

  const FRESH := Loop([], false, false, 0, 0, 0, 0, 0, 0, 0, 0, [])

  // ----- the queue operations -----

  function SaturatingAdd(left: U64, right: U64): U64 {
    if U64_MAX - left < right then U64_MAX else left + right
  }

  function Delta(seconds: U32, microseconds: U32): U64 {
    SaturatingAdd(seconds * 1_000_000, microseconds)
  }

  predicate ContextMatches(actual: Pointer, expected: Pointer) { expected == ALL_CTX || actual == expected }

  predicate Matches(t: Timer, p: Pattern) {
    t.handler == p.handler && ContextMatches(t.eloopData, p.eloopData) && ContextMatches(t.userData, p.userData)
  }

  /** Behind every timer at the front whose deadline is not later. */
  function Insert(queue: seq<Timer>, t: Timer): seq<Timer> {
    if queue == [] || queue[0].deadline > t.deadline then [t] + queue else [queue[0]] + Insert(queue[1..], t)
  }

  function Without(queue: seq<Timer>, p: Pattern): seq<Timer> {
    if queue == [] then []
    else if Matches(queue[0], p) then Without(queue[1..], p)
    else [queue[0]] + Without(queue[1..], p)
  }

  function Matching(queue: seq<Timer>, p: Pattern): seq<Timer> {
    if queue == [] then []
    else if Matches(queue[0], p) then [queue[0]] + Matching(queue[1..], p)
    else Matching(queue[1..], p)
  }

  /** Index of the earliest match; the length of the queue if there is none. */
  function FirstMatch(queue: seq<Timer>, p: Pattern): (k: nat)
    ensures k <= |queue|
    ensures forall i :: 0 <= i < k ==> !Matches(queue[i], p)
    ensures k < |queue| ==> Matches(queue[k], p)
  {
    if queue == [] || Matches(queue[0], p) then 0 else 1 + FirstMatch(queue[1..], p)
  }

  function Drop(queue: seq<Timer>, k: nat): seq<Timer>
    requires k < |queue|
  {
    queue[..k] + queue[k + 1..]
  }

  // ----- the operations on the loop -----

  function Now(s: Loop, env: Env): (r: (Loop, Option<U64>)) { (s.(ticks := s.ticks + 1), env.clock(s.ticks)) }

  function DoInit(s: Loop, inTask: bool): (Loop, int) {
    if !inTask || s.initialized then (s, -1)
    else (s.(queue := [], terminate := false, registrations := 0, failures := 0, executions := 0, initialized := true),
          0)
  }

  function DoRegister(s: Loop, env: Env, seconds: U32, microseconds: U32, what: Pattern): (Loop, int) {
    if !s.initialized || what.handler == NULL then (s, -1)
    else
      var (s1, current) := Now(s, env);
      if current.None? then (s1, -1)
      else
        var s2 := s1.(allocs := s1.allocs + 1);
        if !env.alloc(s1.allocs) then (s2.(failures := Mod32(s2.failures + 1)), -1)
        else
          var t := Timer(SaturatingAdd(current.value, Delta(seconds, microseconds)), what.handler, what.eloopData,
                         what.userData, s2.serial);
          (s2.(queue := Insert(s2.queue, t), registrations := Mod32(s2.registrations + 1),
               wakes := s2.wakes + 1, serial := s2.serial + 1, log := s2.log + [Registered(t)]), 0)
  }

  function AllCancelled(timers: seq<Timer>): seq<Event> {
    seq(|timers|, i requires 0 <= i < |timers| => Cancelled(timers[i]))
  }

  function AllDestroyed(timers: seq<Timer>): seq<Event> {
    seq(|timers|, i requires 0 <= i < |timers| => Destroyed(timers[i]))
  }

  function DoCancel(s: Loop, what: Pattern): (Loop, int) {
    var gone := Matching(s.queue, what);
    (s.(queue := Without(s.queue, what), wakes := s.wakes + if gone == [] then 0 else 1,
        log := s.log + AllCancelled(gone)), |gone|)
  }

  /** Time left as the source reports it: seconds and microseconds, each cut to a 32-bit `os_time_t`. */
  datatype Remaining = Remaining(sec: int, usec: int)

  function RemainingOf(left: U64): Remaining {
    Remaining(Signed(Mod32(left / 1_000_000)), Signed(Mod32(left % 1_000_000)))
  }

  function TimeLeft(t: Timer, current: U64): U64 {
    if t.deadline > current then t.deadline - current else 0
  }

  function DoCancelOne(s: Loop, env: Env, what: Pattern): (Loop, Option<Remaining>) {
    var (s1, reading) := Now(s, env);
    var current := if reading.Some? then reading.value else 0;
    var k := FirstMatch(s.queue, what);
    if k == |s.queue| then (s1, None)
    else
      var t := s.queue[k];
      (s1.(queue := Drop(s.queue, k), wakes := s1.wakes + 1, log := s1.log + [Cancelled(t)]),
       Some(RemainingOf(TimeLeft(t, current))))
  }

  function DoUpdate(s: Loop, env: Env, seconds: U32, microseconds: U32, what: Pattern, deplete: bool): (Loop, int) {
    var (s1, current) := Now(s, env);
    if current.None? then (s1, -1)
    else
      var requested := SaturatingAdd(current.value, Delta(seconds, microseconds));
      var k := FirstMatch(s.queue, what);
      if k == |s.queue| then (s1, -1)
      else
        var t := s.queue[k];
        if !(if deplete then t.deadline > requested else t.deadline < requested) then (s1, 0)
        else
          (s1.(queue := Insert(Drop(s.queue, k), t.(deadline := requested)), wakes := s1.wakes + 1,
               log := s1.log + [Moved(t, requested)]), 1)
  }

  function DoDestroy(s: Loop): Loop {
    s.(queue := [], initialized := false, terminate := false, log := s.log + AllDestroyed(s.queue))
  }

  function Apply(s: Loop, env: Env, op: Op): Loop {
    match op
    case Init(inTask) => DoInit(s, inTask).0
    case Register(seconds, microseconds, what) => DoRegister(s, env, seconds, microseconds, what).0
    case Cancel(what) => DoCancel(s, what).0
    case CancelOne(what) => DoCancelOne(s, env, what).0
    case Deplete(seconds, microseconds, what) => DoUpdate(s, env, seconds, microseconds, what, true).0
    case Replenish(seconds, microseconds, what) => DoUpdate(s, env, seconds, microseconds, what, false).0
    case Terminate => s.(terminate := true, wakes := s.wakes + 1)
    case Destroy => DoDestroy(s)
  }

  function ApplyAll(s: Loop, env: Env, ops: seq<Op>): Loop
    decreases |ops|
  {
    if ops == [] then s else ApplyAll(Apply(s, env, ops[0]), env, ops[1..])
  }

  /** What `handler(eloop_data, user_data)` is told. */
  function CallOf(t: Timer): Pattern { Pattern(t.handler, t.eloopData, t.userData) }

  /** Take the front timer off and run its handler. */
  function Fire(s: Loop, env: Env): Loop
    requires s.queue != []
  {
    var t := s.queue[0];
    var s1 := s.(queue := s.queue[1..], calls := s.calls + 1, log := s.log + [Executed(t)]);
    var s2 := ApplyAll(s1, env, env.react(s.calls, CallOf(t)));
    s2.(executions := Mod32(s2.executions + 1))
  }

  function RunLoop(s: Loop, env: Env, budget: U32, completed: nat): (Loop, nat)
    requires completed <= budget
    decreases budget - completed
  {
    if completed >= budget || s.queue == [] then (s, completed)
    else
      var (s1, current) := Now(s, env);
      if current.None? || s1.queue[0].deadline > current.value then (s1, completed)
      else RunLoop(Fire(s1, env), env, budget, completed + 1)
  }

  function RunOnce(s: Loop, env: Env, budget: U32): (Loop, nat) {
    if !s.initialized || budget == 0 then (s, 0) else RunLoop(s, env, budget, 0)
  }
}
