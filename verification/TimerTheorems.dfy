/** What every run of the event loop keeps: a stably sorted queue of distinct timers and the balance of
    registrations; and no due timer is starved. */
module TimerTheorems {
  import opened Bytes
  import opened TimerQueue

  // ----- the queue stays sorted -----

  predicate Sorted(queue: seq<Timer>) {
    forall i, j :: 0 <= i < j < |queue| ==> queue[i].deadline <= queue[j].deadline
  }

  predicate Distinct(queue: seq<Timer>) {
    forall i, j :: 0 <= i < j < |queue| ==> queue[i].serial != queue[j].serial
  }

  /** `x` stands somewhere before `y`. */
  ghost predicate Precedes(queue: seq<Timer>, x: Timer, y: Timer) {
    exists i, j :: 0 <= i < j < |queue| && queue[i] == x && queue[j] == y
  }

  lemma PrecedesCons(first: Timer, rest: seq<Timer>, x: Timer, y: Timer)
    ensures Precedes([first] + rest, x, y) <==> (x == first && y in rest) || Precedes(rest, x, y)
  {
    var queue := [first] + rest;
    if x == first && y in rest {
      var j :| 0 <= j < |rest| && rest[j] == y;
      assert queue[0] == x && queue[j + 1] == y;
    }
    if Precedes(rest, x, y) {
      var i, j :| 0 <= i < j < |rest| && rest[i] == x && rest[j] == y;
      assert queue[i + 1] == x && queue[j + 1] == y;
    }
    if Precedes(queue, x, y) {
      var i, j :| 0 <= i < j < |queue| && queue[i] == x && queue[j] == y;
      assert y == rest[j - 1];
      assert i > 0 ==> x == rest[i - 1];
    }
  }

  // ----- the order of equal deadlines -----

  predicate IsPlacement(e: Event, serial: nat) { (e.Registered? || e.Moved?) && e.timer.serial == serial }

  /** When the timer was last registered or moved: the position of that event, -1 without one. */
  function Placed(log: seq<Event>, serial: nat): (n: int)
    ensures -1 <= n < |log|
  {
    if log == [] then -1
    else if IsPlacement(log[|log| - 1], serial) then |log| - 1
    else Placed(log[..|log| - 1], serial)
  }

  /** Timers of equal deadline stand in the order of their latest registration or move. */
  predicate TiesInOrder(queue: seq<Timer>, log: seq<Event>) {
    forall i, j :: 0 <= i < j < |queue| && queue[i].deadline == queue[j].deadline ==>
      Placed(log, queue[i].serial) < Placed(log, queue[j].serial)
  }

  /** Events that place no timer with this serial leave its place. */
  lemma {:induction false} PlacedIgnores(log: seq<Event>, more: seq<Event>, serial: nat)
    requires forall i :: 0 <= i < |more| ==> !IsPlacement(more[i], serial)
    ensures Placed(log + more, serial) == Placed(log, serial)
  {
    if more == [] {
      assert log + more == log;
    } else {
      assert (log + more)[..|log + more| - 1] == log + more[..|more| - 1];
      PlacedIgnores(log, more[..|more| - 1], serial);
    }
  }

  lemma PlacedLast(log: seq<Event>, e: Event, serial: nat)
    ensures Placed(log + [e], serial) == if IsPlacement(e, serial) then |log| else Placed(log, serial)
  {
    assert (log + [e])[..|log|] == log;
  }

  /** What keeps the order of two timers and places neither keeps their tie in order. */
  lemma TiesKept(queue: seq<Timer>, log: seq<Event>, rest: seq<Timer>, after: seq<Event>)
    requires TiesInOrder(queue, log)
    requires forall x, y :: Precedes(rest, x, y) ==> Precedes(queue, x, y)
    requires forall x :: x in rest ==> Placed(after, x.serial) == Placed(log, x.serial)
    ensures TiesInOrder(rest, after)
  {
    forall i, j | 0 <= i < j < |rest| && rest[i].deadline == rest[j].deadline
      ensures Placed(after, rest[i].serial) < Placed(after, rest[j].serial)
    {
      assert Precedes(rest, rest[i], rest[j]);
      assert rest[i] in rest && rest[j] in rest;
    }
  }

  /** A timer placed last goes behind its equals. */
  lemma InsertTies(queue: seq<Timer>, log: seq<Event>, t: Timer, e: Event)
    requires Sorted(queue) && TiesInOrder(queue, log) && forall i :: 0 <= i < |queue| ==> queue[i].serial != t.serial
    requires IsPlacement(e, t.serial)
    ensures TiesInOrder(Insert(queue, t), log + [e])
  {
    hide Insert, InsertIndex, Placed, Sorted;
    var n := InsertIndex(queue, t.deadline);
    InsertPosition(queue, t);
    var r := Spliced(queue, n, t);
    PlacedLast(log, e, t.serial);
    forall i | 0 <= i < |queue|
      ensures Placed(log + [e], queue[i].serial) == Placed(log, queue[i].serial) < |log|
    {
      PlacedLast(log, e, queue[i].serial);
    }
    hide Spliced;
  }

  function InsertIndex(queue: seq<Timer>, deadline: U64): (n: nat)
    ensures n <= |queue|
  {
    if queue == [] || queue[0].deadline > deadline then 0 else 1 + InsertIndex(queue[1..], deadline)
  }

  function Spliced(queue: seq<Timer>, n: nat, t: Timer): (r: seq<Timer>)
    requires n <= |queue|
    ensures |r| == |queue| + 1
    ensures forall i {:trigger r[i]} :: 0 <= i < |r| ==>
              r[i] == if i < n then queue[i] else if i == n then t else queue[i - 1]
  {
    queue[..n] + [t] + queue[n..]
  }

  lemma SplicedCons(first: Timer, rest: seq<Timer>, n: nat, t: Timer)
    requires n <= |rest|
    ensures [first] + Spliced(rest, n, t) == Spliced([first] + rest, n + 1, t)
  {
    hide Spliced;
  }

  lemma {:induction false} InsertBound(queue: seq<Timer>, deadline: U64)
    ensures var n := InsertIndex(queue, deadline);
            && (forall i :: 0 <= i < n ==> queue[i].deadline <= deadline)
            && (n < |queue| ==> queue[n].deadline > deadline)
  {
    if queue != [] && queue[0].deadline <= deadline {
      InsertBound(queue[1..], deadline);
    }
  }

  /** Insertion is stable: behind all deadlines not greater, before all greater ones. */
  lemma {:induction false} InsertPosition(queue: seq<Timer>, t: Timer)
    ensures var n := InsertIndex(queue, t.deadline);
            && Insert(queue, t) == Spliced(queue, n, t)
            && (forall i :: 0 <= i < n ==> queue[i].deadline <= t.deadline)
            && (Sorted(queue) ==> forall i :: n <= i < |queue| ==> queue[i].deadline > t.deadline)
  {
    InsertBound(queue, t.deadline);
    if queue != [] && queue[0].deadline <= t.deadline {
      InsertPosition(queue[1..], t);
      SplicedCons(queue[0], queue[1..], InsertIndex(queue[1..], t.deadline), t);
      assert queue == [queue[0]] + queue[1..];
    }
  }

  lemma SplicedOrder(queue: seq<Timer>, n: nat, t: Timer)
    requires n <= |queue|
    requires Sorted(queue) && Distinct(queue) && forall i :: 0 <= i < |queue| ==> queue[i].serial != t.serial
    requires forall i :: 0 <= i < n ==> queue[i].deadline <= t.deadline
    requires forall i :: n <= i < |queue| ==> queue[i].deadline > t.deadline
    ensures Sorted(Spliced(queue, n, t)) && Distinct(Spliced(queue, n, t))
  {
    hide Spliced;
  }

  lemma SplicedMembers(queue: seq<Timer>, n: nat, t: Timer)
    requires n <= |queue|
    ensures forall x :: x in Spliced(queue, n, t) <==> x == t || x in queue
  {
    hide Spliced;
    var r := Spliced(queue, n, t);
    forall x | x == t || x in queue
      ensures x in r
    {
      if x == t {
        assert r[n] == t;
      } else {
        var i :| 0 <= i < |queue| && queue[i] == x;
        assert r[if i < n then i else i + 1] == x;
      }
    }
  }

  lemma InsertKeeps(queue: seq<Timer>, t: Timer)
    requires Sorted(queue) && Distinct(queue) && forall i :: 0 <= i < |queue| ==> queue[i].serial != t.serial
    ensures Sorted(Insert(queue, t)) && Distinct(Insert(queue, t)) && |Insert(queue, t)| == |queue| + 1
    ensures forall x :: x in Insert(queue, t) <==> x == t || x in queue
    ensures forall x, y :: x != t && y != t ==> (Precedes(Insert(queue, t), x, y) <==> Precedes(queue, x, y))
  {
    hide Insert, InsertIndex, Sorted, Distinct, Precedes;
    InsertPosition(queue, t);
    SplicedOrder(queue, InsertIndex(queue, t.deadline), t);
    SplicedMembers(queue, InsertIndex(queue, t.deadline), t);
    forall x, y | x != t && y != t
      ensures Precedes(Insert(queue, t), x, y) <==> Precedes(queue, x, y)
    {
      SplicedPrecedes(queue, InsertIndex(queue, t.deadline), t, x, y);
    }
  }

  lemma SplicedPrecedes(queue: seq<Timer>, n: nat, t: Timer, x: Timer, y: Timer)
    requires n <= |queue| && x != t && y != t
    ensures Precedes(Spliced(queue, n, t), x, y) <==> Precedes(queue, x, y)
  {
    hide Spliced;
    var r := Spliced(queue, n, t);
    if Precedes(queue, x, y) {
      var i, j :| 0 <= i < j < |queue| && queue[i] == x && queue[j] == y;
      assert r[if i < n then i else i + 1] == x && r[if j < n then j else j + 1] == y;
    }
    if Precedes(r, x, y) {
      var i, j :| 0 <= i < j < |r| && r[i] == x && r[j] == y;
      assert queue[if i < n then i else i - 1] == x && queue[if j < n then j else j - 1] == y;
    }
  }

  lemma {:induction false} WithoutMembers(queue: seq<Timer>, p: Pattern)
    ensures |Without(queue, p)| + |Matching(queue, p)| == |queue|
    ensures forall x :: x in Without(queue, p) <==> x in queue && !Matches(x, p)
    ensures forall x :: x in Matching(queue, p) <==> x in queue && Matches(x, p)
  {
    hide Matches;
    if queue != [] {
      WithoutMembers(queue[1..], p);
      assert queue == [queue[0]] + queue[1..];
    }
  }

  lemma {:induction false} WithoutPrecedes(queue: seq<Timer>, p: Pattern, x: Timer, y: Timer)
    ensures Precedes(Without(queue, p), x, y) <==> Precedes(queue, x, y) && !Matches(x, p) && !Matches(y, p)
  {
    hide Matches, Precedes;
    if queue == [] {
      NothingPrecedes(x, y);
    } else {
      var first, rest := queue[0], queue[1..];
      assert queue == [first] + rest;
      WithoutPrecedes(rest, p, x, y);
      WithoutMembers(rest, p);
      PrecedesCons(first, rest, x, y);
      PrecedesCons(first, Without(rest, p), x, y);
      PrecedesMembers(rest, x, y);
    }
  }

  lemma NothingPrecedes(x: Timer, y: Timer)
    ensures !Precedes([], x, y)
  {
  }

  lemma PrecedesMembers(queue: seq<Timer>, x: Timer, y: Timer)
    ensures Precedes(queue, x, y) ==> x in queue && y in queue
  {
  }

  /** Cancelling removes exactly the matches and keeps the order of the rest, equal deadlines included. */
  lemma {:induction false} WithoutKeeps(queue: seq<Timer>, p: Pattern)
    requires Sorted(queue) && Distinct(queue)
    ensures |Without(queue, p)| + |Matching(queue, p)| == |queue|
    ensures forall x :: x in Without(queue, p) <==> x in queue && !Matches(x, p)
    ensures forall x :: x in Matching(queue, p) <==> x in queue && Matches(x, p)
    ensures Sorted(Without(queue, p)) && Distinct(Without(queue, p))
    ensures forall x, y :: Precedes(Without(queue, p), x, y) <==>
              Precedes(queue, x, y) && !Matches(x, p) && !Matches(y, p)
  {
    hide Matches, Matching, Precedes;
    WithoutMembers(queue, p);
    forall x, y {
      WithoutPrecedes(queue, p, x, y);
    }
    if queue != [] {
      var first, rest := queue[0], Without(queue[1..], p);
      WithoutKeeps(queue[1..], p);
      forall i | 0 <= i < |rest|
        ensures first.deadline <= rest[i].deadline && first.serial != rest[i].serial
      {
        assert rest[i] in queue[1..];
      }
    }
  }

  lemma DropPrecedes(queue: seq<Timer>, k: nat, x: Timer, y: Timer)
    requires k < |queue| && Distinct(queue)
    ensures Precedes(Drop(queue, k), x, y) <==>
              Precedes(queue, x, y) && x.serial != queue[k].serial && y.serial != queue[k].serial
  {
    hide Drop;
    var r := Drop(queue, k);
    DropAt(queue, k);
    if Precedes(queue, x, y) && x.serial != queue[k].serial && y.serial != queue[k].serial {
      var i, j :| 0 <= i < j < |queue| && queue[i] == x && queue[j] == y;
      assert r[if i < k then i else i - 1] == x && r[if j < k then j else j - 1] == y;
    }
    if Precedes(r, x, y) {
      DropPrecedesOnly(queue, k, x, y);
    }
  }

  lemma DropPrecedesOnly(queue: seq<Timer>, k: nat, x: Timer, y: Timer)
    requires k < |queue| && Distinct(queue) && Precedes(Drop(queue, k), x, y)
    ensures Precedes(queue, x, y) && x.serial != queue[k].serial && y.serial != queue[k].serial
  {
    hide Drop;
    var r := Drop(queue, k);
    DropAt(queue, k);
    var i, j :| 0 <= i < j < |r| && r[i] == x && r[j] == y;
    assert queue[if i < k then i else i + 1] == x && queue[if j < k then j else j + 1] == y;
  }

  lemma DropAt(queue: seq<Timer>, k: nat)
    requires k < |queue|
    ensures |Drop(queue, k)| == |queue| - 1
    ensures forall i :: 0 <= i < |queue| - 1 ==> Drop(queue, k)[i] == queue[if i < k then i else i + 1]
  {
  }

  /** Taking one timer out keeps the others in their order. */
  lemma DropKeeps(queue: seq<Timer>, k: nat)
    requires k < |queue| && Sorted(queue) && Distinct(queue)
    ensures Sorted(Drop(queue, k)) && Distinct(Drop(queue, k)) && |Drop(queue, k)| == |queue| - 1
    ensures forall x :: x in Drop(queue, k) <==> x in queue && x.serial != queue[k].serial
    ensures forall x, y :: Precedes(Drop(queue, k), x, y) <==>
              Precedes(queue, x, y) && x.serial != queue[k].serial && y.serial != queue[k].serial
  {
    forall x, y {
      DropPrecedes(queue, k, x, y);
    }
    hide Precedes, Drop;
    var r := Drop(queue, k);
    DropAt(queue, k);
    forall x | x in queue && x.serial != queue[k].serial
      ensures x in r
    {
      var i :| 0 <= i < |queue| && queue[i] == x;
      assert r[if i < k then i else i - 1] == x;
    }
  }

  // ----- invariants of every run -----

  function CountIf(log: seq<Event>, keep: Event -> bool): nat {
    if log == [] then 0 else CountIf(log[..|log| - 1], keep) + if keep(log[|log| - 1]) then 1 else 0
  }

  lemma {:induction false} CountAppend(left: seq<Event>, right: seq<Event>, keep: Event -> bool)
    ensures CountIf(left + right, keep) == CountIf(left, keep) + CountIf(right, keep)
  {
    if right == [] {
      assert left + right == left;
    } else {
      assert (left + right)[..|left + right| - 1] == left + right[..|right| - 1];
      CountAppend(left, right[..|right| - 1], keep);
    }
  }

  lemma {:induction false} CountAll(events: seq<Event>, keep: Event -> bool)
    ensures (forall i :: 0 <= i < |events| ==> keep(events[i])) ==> CountIf(events, keep) == |events|
    ensures (forall i :: 0 <= i < |events| ==> !keep(events[i])) ==> CountIf(events, keep) == 0
  {
    if events != [] {
      CountAll(events[..|events| - 1], keep);
    }
  }

  predicate IsRegistered(e: Event) { e.Registered? }

  predicate IsGone(e: Event) { e.Executed? || e.Cancelled? || e.Destroyed? }

  /** Every registration has been executed, cancelled or destroyed, or is still pending. */
  predicate Balanced(s: Loop) {
    CountIf(s.log, IsRegistered) == CountIf(s.log, IsGone) + |s.queue|
  }

  predicate Valid(s: Loop) {
    && Sorted(s.queue) && Distinct(s.queue) && TiesInOrder(s.queue, s.log)
    && (forall i :: 0 <= i < |s.queue| ==> s.queue[i].serial < s.serial)
    && (!s.initialized ==> s.queue == [])
    && Balanced(s)
  }

  lemma LogMore(s: Loop, more: seq<Event>)
    ensures CountIf(s.log + more, IsRegistered) == CountIf(s.log, IsRegistered) + CountIf(more, IsRegistered)
    ensures CountIf(s.log + more, IsGone) == CountIf(s.log, IsGone) + CountIf(more, IsGone)
  {
    CountAppend(s.log, more, IsRegistered);
    CountAppend(s.log, more, IsGone);
  }

  lemma LogOne(s: Loop, e: Event)
    ensures CountIf(s.log + [e], IsRegistered) == CountIf(s.log, IsRegistered) + if e.Registered? then 1 else 0
    ensures CountIf(s.log + [e], IsGone) == CountIf(s.log, IsGone) + if IsGone(e) then 1 else 0
  {
    assert (s.log + [e])[..|s.log|] == s.log;
  }

  lemma ApplyKeepsValid(s: Loop, env: Env, op: Op)
    requires Valid(s)
    ensures Valid(Apply(s, env, op))
  {
    match op
    case Init(inTask) =>
    case Register(seconds, microseconds, what) => RegisterKeepsValid(s, env, seconds, microseconds, what);
    case Cancel(what) => CancelKeepsValid(s, what);
    case CancelOne(what) => CancelOneKeepsValid(s, env, what);
    case Deplete(seconds, microseconds, what) => UpdateKeepsValid(s, env, seconds, microseconds, what, true);
    case Replenish(seconds, microseconds, what) => UpdateKeepsValid(s, env, seconds, microseconds, what, false);
    case Terminate =>
    case Destroy => DestroyKeepsValid(s);
  }

  lemma RegisterKeepsValid(s: Loop, env: Env, seconds: U32, microseconds: U32, what: Pattern)
    requires Valid(s)
    ensures Valid(DoRegister(s, env, seconds, microseconds, what).0)
  {
    if s.initialized && what.handler != NULL {
      var current := env.clock(s.ticks);
      if current.Some? {
        var t := Timer(SaturatingAdd(current.value, Delta(seconds, microseconds)), what.handler, what.eloopData,
                       what.userData, s.serial);
        hide Insert, Sorted, Distinct, Delta, SaturatingAdd, TiesInOrder, Placed;
        InsertKeeps(s.queue, t);
        InsertTies(s.queue, s.log, t, Registered(t));
        LogOne(s, Registered(t));
        SerialsBelow(s.queue, t);
      }
    }
  }

  lemma SerialsBelow(queue: seq<Timer>, t: Timer)
    requires forall i :: 0 <= i < |queue| ==> queue[i].serial < t.serial
    requires forall x :: x in Insert(queue, t) <==> x == t || x in queue
    ensures forall i :: 0 <= i < |Insert(queue, t)| ==> Insert(queue, t)[i].serial <= t.serial
  {
    var r := Insert(queue, t);
    assert forall i :: 0 <= i < |r| ==> r[i] in r;
  }

  /** Events that only take timers away place none. */
  lemma RemovalTies(queue: seq<Timer>, log: seq<Event>, rest: seq<Timer>, gone: seq<Event>)
    requires TiesInOrder(queue, log)
    requires forall x, y :: Precedes(rest, x, y) ==> Precedes(queue, x, y)
    requires forall i :: 0 <= i < |gone| ==> !gone[i].Registered? && !gone[i].Moved?
    ensures TiesInOrder(rest, log + gone)
  {
    hide Placed, Precedes, TiesInOrder;
    forall x | x in rest
      ensures Placed(log + gone, x.serial) == Placed(log, x.serial)
    {
      PlacedIgnores(log, gone, x.serial);
    }
    TiesKept(queue, log, rest, log + gone);
  }

  lemma CancelKeepsValid(s: Loop, what: Pattern)
    requires Valid(s)
    ensures Valid(DoCancel(s, what).0)
  {
    hide Placed, Precedes, Sorted, Distinct, TiesInOrder, Without, Matching;
    var gone := AllCancelled(Matching(s.queue, what));
    WithoutKeeps(s.queue, what);
    RemovalTies(s.queue, s.log, Without(s.queue, what), gone);
    LogMore(s, gone);
    CountAll(gone, IsRegistered);
    CountAll(gone, IsGone);
    var queue := Without(s.queue, what);
    assert forall i :: 0 <= i < |queue| ==> queue[i] in queue;
  }

  lemma CancelOneKeepsValid(s: Loop, env: Env, what: Pattern)
    requires Valid(s)
    ensures Valid(DoCancelOne(s, env, what).0)
  {
    hide Placed, Precedes, Sorted, Distinct, TiesInOrder, Drop;
    var k := FirstMatch(s.queue, what);
    if k < |s.queue| {
      DropKeeps(s.queue, k);
      RemovalTies(s.queue, s.log, Drop(s.queue, k), [Cancelled(s.queue[k])]);
      LogOne(s, Cancelled(s.queue[k]));
      var queue := Drop(s.queue, k);
      assert forall i :: 0 <= i < |queue| ==> queue[i] in queue;
    }
  }

  lemma UpdateKeepsValid(s: Loop, env: Env, seconds: U32, microseconds: U32, what: Pattern, deplete: bool)
    requires Valid(s)
    ensures Valid(DoUpdate(s, env, seconds, microseconds, what, deplete).0)
  {
    hide Insert, Drop, Sorted, Distinct, Delta, SaturatingAdd, TiesInOrder;
    var current := env.clock(s.ticks);
    var k := FirstMatch(s.queue, what);
    if current.Some? && k < |s.queue| {
      var requested := SaturatingAdd(current.value, Delta(seconds, microseconds));
      MoveKeeps(s, k, requested);
      LogOne(s, Moved(s.queue[k], requested));
    }
  }

  lemma MoveKeeps(s: Loop, k: nat, requested: U64)
    requires Valid(s) && k < |s.queue|
    ensures var queue := Insert(Drop(s.queue, k), s.queue[k].(deadline := requested));
            && Sorted(queue) && Distinct(queue) && |queue| == |s.queue|
            && TiesInOrder(queue, s.log + [Moved(s.queue[k], requested)])
            && forall i :: 0 <= i < |queue| ==> queue[i].serial < s.serial
  {
    hide Insert, Drop, Sorted, Distinct, Balanced, TiesInOrder, Placed, Precedes;
    DropKeeps(s.queue, k);
    var rest, t := Drop(s.queue, k), s.queue[k].(deadline := requested);
    assert forall i :: 0 <= i < |rest| ==> rest[i] in rest;
    InsertKeeps(rest, t);
    TiesKept(s.queue, s.log, rest, s.log);
    InsertTies(rest, s.log, t, Moved(s.queue[k], requested));
    var queue := Insert(rest, t);
    assert forall i :: 0 <= i < |queue| ==> queue[i] in queue;
  }

  lemma DestroyKeepsValid(s: Loop)
    requires Valid(s)
    ensures Valid(DoDestroy(s))
  {
    var gone := AllDestroyed(s.queue);
    LogMore(s, gone);
    CountAll(gone, IsRegistered);
    CountAll(gone, IsGone);
  }

  lemma {:induction false} ApplyAllKeepsValid(s: Loop, env: Env, ops: seq<Op>)
    requires Valid(s)
    ensures Valid(ApplyAll(s, env, ops))
    decreases |ops|
  {
    hide Valid, Apply;
    if ops != [] {
      ApplyKeepsValid(s, env, ops[0]);
      ApplyAllKeepsValid(Apply(s, env, ops[0]), env, ops[1..]);
    }
  }

  lemma FireKeepsValid(s: Loop, env: Env)
    requires Valid(s) && s.queue != []
    ensures Valid(Fire(s, env))
  {
    hide Valid;
    PoppedValid(s);
    ApplyAllKeepsValid(Popped(s), env, env.react(s.calls, CallOf(s.queue[0])));
    SameValid(ApplyAll(Popped(s), env, env.react(s.calls, CallOf(s.queue[0]))), Fire(s, env));
  }

  /** State after taking the front timer off, before its handler acts. */
  function Popped(s: Loop): Loop
    requires s.queue != []
  {
    s.(queue := s.queue[1..], calls := s.calls + 1, log := s.log + [Executed(s.queue[0])])
  }

  lemma PoppedValid(s: Loop)
    requires Valid(s) && s.queue != []
    ensures Valid(Popped(s))
    ensures forall i :: 0 <= i < |Popped(s).queue| ==> Popped(s).queue[i].serial != s.queue[0].serial
  {
    hide TiesInOrder, Placed, Precedes;
    LogOne(s, Executed(s.queue[0]));
    var rest := s.queue[1..];
    assert s.queue == [s.queue[0]] + rest;
    forall x, y | Precedes(rest, x, y)
      ensures Precedes(s.queue, x, y)
    {
      PrecedesCons(s.queue[0], rest, x, y);
    }
    RemovalTies(s.queue, s.log, rest, [Executed(s.queue[0])]);
  }

  /** What `Valid` speaks of. */
  lemma SameValid(s: Loop, after: Loop)
    requires Valid(s) && after.queue == s.queue && after.log == s.log && after.serial == s.serial
    requires after.initialized == s.initialized
    ensures Valid(after)
  {
  }

  /** The stable order, distinctness and the balance hold after any call of the loop, whatever the handlers do. */
  lemma {:induction false} RunKeepsValid(s: Loop, env: Env, budget: U32, completed: nat)
    requires Valid(s) && completed <= budget
    ensures Valid(RunLoop(s, env, budget, completed).0)
    decreases budget - completed
  {
    hide Fire, Valid;
    if completed < budget && s.queue != [] {
      var (s1, current) := Now(s, env);
      SameValid(s, s1);
      if current.Some? && s1.queue[0].deadline <= current.value {
        FireKeepsValid(s1, env);
        RunKeepsValid(Fire(s1, env), env, budget, completed + 1);
      }
    }
  }

  // ----- any run from a fresh loop -----

  /** What the owner of the loop may do between handlers: an operation, or a `run_once`. */
  datatype Step = Do(op: Op) | Run(budget: U32)

  function Execute(s: Loop, env: Env, steps: seq<Step>): Loop
    decreases |steps|
  {
    if steps == [] then s
    else
      var next := match steps[0] case Do(op) => Apply(s, env, op) case Run(budget) => RunOnce(s, env, budget).0;
      Execute(next, env, steps[1..])
  }

  lemma {:induction false} ExecuteKeepsValid(s: Loop, env: Env, steps: seq<Step>)
    requires Valid(s)
    ensures Valid(Execute(s, env, steps))
    decreases |steps|
  {
    hide Valid, Apply, RunLoop;
    if steps != [] {
      match steps[0]
      case Do(op) =>
        ApplyKeepsValid(s, env, op);
        ExecuteKeepsValid(Apply(s, env, op), env, steps[1..]);
      case Run(budget) =>
        RunKeepsValid(s, env, budget, 0);
        ExecuteKeepsValid(RunOnce(s, env, budget).0, env, steps[1..]);
    }
  }

  /** After any interleaving of operations, calls of the loop and re-entrant handlers, the queue is
      sorted, equal deadlines in the order they were last registered or moved, its timers are distinct,
      and every registration is accounted for. */
  lemma EveryRun(env: Env, steps: seq<Step>)
    ensures var s := Execute(FRESH, env, steps);
            && Sorted(s.queue) && TiesInOrder(s.queue, s.log) && Distinct(s.queue)
            && CountIf(s.log, IsRegistered) == CountIf(s.log, IsGone) + |s.queue|
  {
    ExecuteKeepsValid(FRESH, env, steps);
  }

  // ----- what single operations mean -----

  /** Deplete and replenish act on the earliest match only: its deadline becomes the smaller, or the
      larger, of the old and the requested one; 1 is returned exactly when that is a change, and then the
      timer goes behind its equals. All other timers keep their order. */
  lemma UpdateMeaning(s: Loop, env: Env, seconds: U32, microseconds: U32, what: Pattern, deplete: bool)
    requires Valid(s) && env.clock(s.ticks).Some? && FirstMatch(s.queue, what) < |s.queue|
    ensures var (after, result) := DoUpdate(s, env, seconds, microseconds, what, deplete);
            var t := s.queue[FirstMatch(s.queue, what)];
            var requested := SaturatingAdd(env.clock(s.ticks).value, Delta(seconds, microseconds));
            var deadline := if (requested < t.deadline) == deplete then requested else t.deadline;
            && (result == 1 || result == 0)
            && (result == 1 <==> deadline != t.deadline)
            && (result == 1 <==> after.wakes == s.wakes + 1)
            && (result == 0 ==> after.queue == s.queue)
            && (forall x :: x in after.queue <==>
                 x == t.(deadline := deadline) || (x in s.queue && x.serial != t.serial))
            && (forall x: Timer, y: Timer :: x.serial != t.serial && y.serial != t.serial ==>
                  (Precedes(after.queue, x, y) <==> Precedes(s.queue, x, y)))
            && Sorted(after.queue) && TiesInOrder(after.queue, after.log)
  {
    hide Insert, Drop, Valid, Delta, SaturatingAdd, Precedes;
    UpdateKeepsValid(s, env, seconds, microseconds, what, deplete);
    ValidOrder(DoUpdate(s, env, seconds, microseconds, what, deplete).0);
    ValidOrder(s);
    MoveMeaning(s.queue, FirstMatch(s.queue, what),
                SaturatingAdd(env.clock(s.ticks).value, Delta(seconds, microseconds)));
  }

  lemma ValidOrder(s: Loop)
    requires Valid(s)
    ensures Sorted(s.queue) && Distinct(s.queue) && TiesInOrder(s.queue, s.log)
  {
  }

  /** Moving one timer to another deadline changes that timer and the order of no two others. */
  lemma MoveMeaning(queue: seq<Timer>, k: nat, requested: U64)
    requires k < |queue| && Sorted(queue) && Distinct(queue)
    ensures var moved := Insert(Drop(queue, k), queue[k].(deadline := requested));
            && (forall x :: x in moved <==>
                 x == queue[k].(deadline := requested) || (x in queue && x.serial != queue[k].serial))
            && (forall x: Timer, y: Timer :: x.serial != queue[k].serial && y.serial != queue[k].serial ==>
                  (Precedes(moved, x, y) <==> Precedes(queue, x, y)))
    ensures forall x :: x in queue <==> x == queue[k] || (x in queue && x.serial != queue[k].serial)
  {
    hide Insert, Drop, Sorted, Precedes;
    DropKeeps(queue, k);
    var rest := Drop(queue, k);
    assert forall i :: 0 <= i < |rest| ==> rest[i] in rest;
    InsertKeeps(rest, queue[k].(deadline := requested));
    forall x | x in queue && x.serial == queue[k].serial
      ensures x == queue[k]
    {
      var i :| 0 <= i < |queue| && queue[i] == x;
    }
  }

  /** Cancel-one removes the earliest match and nothing else, keeps the rest in order, and reports the
      time from its clock reading, or from zero when the reading fails. */
  lemma CancelOneMeaning(s: Loop, env: Env, what: Pattern)
    requires Valid(s)
    ensures var (after, remaining) := DoCancelOne(s, env, what); var k := FirstMatch(s.queue, what);
            && (remaining.None? <==> forall i :: 0 <= i < |s.queue| ==> !Matches(s.queue[i], what))
            && (remaining.None? ==> after.queue == s.queue)
            && (remaining.Some? ==>
                  && k < |s.queue| && Matches(s.queue[k], what)
                  && (forall i :: 0 <= i < k ==> !Matches(s.queue[i], what))
                  && (forall x :: x in after.queue <==> x in s.queue && x.serial != s.queue[k].serial)
                  && (forall x, y :: Precedes(after.queue, x, y) <==>
                        Precedes(s.queue, x, y) && x.serial != s.queue[k].serial && y.serial != s.queue[k].serial)
                  && remaining.value == RemainingOf(match env.clock(s.ticks)
                                                    case Some(now) => TimeLeft(s.queue[k], now)
                                                    case None => s.queue[k].deadline))
  {
    hide Precedes, Drop;
    var k := FirstMatch(s.queue, what);
    if k < |s.queue| {
      DropKeeps(s.queue, k);
    }
  }

  /** `r` says exactly that `left` microseconds are left. */
  predicate Tells(r: Remaining, left: U64) {
    r.sec * 1_000_000 + r.usec == left && 0 <= r.usec < 1_000_000
  }

  /** 2^32 seconds, after which the reported seconds repeat. */
  const SECONDS_WRAP: int := 0x1_0000_0000 * 1_000_000

  /** The reported seconds are right up to whole wraps. */
  lemma SecondsWrap(q: nat) returns (k: int)
    ensures Signed(Mod32(q)) == q - k * 0x1_0000_0000 && -0x8000_0000 <= Signed(Mod32(q)) < 0x8000_0000
  {
    k := if Mod32(q) < 0x8000_0000 then q / 0x1_0000_0000 else q / 0x1_0000_0000 + 1;
  }

  lemma ScaleWrap(sec: int, q: int, k: int)
    requires sec == q - k * 0x1_0000_0000
    ensures sec * 1_000_000 == q * 1_000_000 - k * SECONDS_WRAP
  {
  }

  lemma SmallSigned(u: U32)
    requires u < 1_000_000
    ensures Signed(Mod32(u)) == u
  {
  }

  /** So is the whole report. */
  lemma ReportWraps(shown: U64) returns (k: int)
    ensures var r := RemainingOf(shown);
            && 0 <= r.usec < 1_000_000 && -0x8000_0000 <= r.sec < 0x8000_0000
            && r.sec * 1_000_000 + r.usec == shown - k * SECONDS_WRAP
  {
    var q, u := shown / 1_000_000, shown % 1_000_000;
    hide Signed, Mod32;
    k := SecondsWrap(q);
    SmallSigned(u);
    ScaleWrap(Signed(Mod32(q)), q, k);
  }

  /** The time of `shown` tells `left` exactly when `left` is below 2^31 seconds and the two differ by
      whole wraps of the seconds. */
  lemma RemainingTells(shown: U64, left: U64)
    ensures Tells(RemainingOf(shown), left) <==>
              left < 0x8000_0000 * 1_000_000 && (shown - left) % SECONDS_WRAP == 0
  {
    hide RemainingOf;
    var k := ReportWraps(shown);
    MultipleOfWrap(k);
    var told := RemainingOf(shown).sec * 1_000_000 + RemainingOf(shown).usec;
    if left < 0x8000_0000 * 1_000_000 && (shown - left) % SECONDS_WRAP == 0 {
      WithinWrap(told - left, (shown - left) / SECONDS_WRAP - k);
    }
  }

  lemma MultipleOfWrap(k: int)
    ensures k * SECONDS_WRAP % SECONDS_WRAP == 0
  {
  }

  lemma WithinWrap(difference: int, wraps: int)
    requires difference == wraps * SECONDS_WRAP && -SECONDS_WRAP < difference < SECONDS_WRAP
    ensures difference == 0
  {
  }

  /** Cancel-one tells the time the timer has left, `now` being the time, exactly when that is below 2^31
      seconds and the clock read works; a failing read counts from zero, which goes unnoticed only when the
      time that has passed, up to the deadline, is a whole number of wraps. */
  lemma RemainingExact(s: Loop, env: Env, what: Pattern, now: U64)
    requires FirstMatch(s.queue, what) < |s.queue|
    requires env.clock(s.ticks).Some? ==> env.clock(s.ticks).value == now
    ensures var t := s.queue[FirstMatch(s.queue, what)];
            var remaining := DoCancelOne(s, env, what).1;
            && remaining.Some?
            && (Tells(remaining.value, TimeLeft(t, now)) <==>
                  && TimeLeft(t, now) < 0x8000_0000 * 1_000_000
                  && (env.clock(s.ticks).Some? || (if now < t.deadline then now else t.deadline) % SECONDS_WRAP == 0))
  {
    hide RemainingOf, Tells;
    var t := s.queue[FirstMatch(s.queue, what)];
    var shown := if env.clock(s.ticks).Some? then TimeLeft(t, now) else t.deadline;
    RemainingTells(shown, TimeLeft(t, now));
  }

  /** One registered timer with this deadline. */
  function OneTimer(deadline: U64): Loop {
    var t := Timer(deadline, 1, NULL, NULL, 0);
    FRESH.(queue := [t], initialized := true, registrations := 1, serial := 1, log := [Registered(t)])
  }

  /** The clock fails at three seconds: of two seconds left, five are reported. */
  lemma FailingClockExample(env: Env)
    requires env.clock(0).None?
    ensures Valid(OneTimer(5_000_000)) && TimeLeft(OneTimer(5_000_000).queue[0], 3_000_000) == 2_000_000
    ensures DoCancelOne(OneTimer(5_000_000), env, Pattern(1, NULL, NULL)).1 == Some(Remaining(5, 0))
  {
    OneTimerValid(5_000_000);
  }

  /** The clock works, and of 2^31 seconds left, -2^31 are reported. */
  lemma LongWaitExample(env: Env)
    requires env.clock(0) == Some(0)
    ensures Valid(OneTimer(0x8000_0000 * 1_000_000))
    ensures DoCancelOne(OneTimer(0x8000_0000 * 1_000_000), env, Pattern(1, NULL, NULL)).1 ==
            Some(Remaining(-0x8000_0000, 0))
  {
    OneTimerValid(0x8000_0000 * 1_000_000);
  }

  lemma OneTimerValid(deadline: U64)
    ensures Valid(OneTimer(deadline))
  {
    hide Placed, CountIf;
    OneRegistered(OneTimer(deadline).queue[0]);
  }

  lemma OneRegistered(t: Timer)
    ensures CountIf([Registered(t)], IsRegistered) == 1 && CountIf([Registered(t)], IsGone) == 0
  {
    assert [Registered(t)][..0] == [];
  }
}
