/** When the timers of a recovery are due: three seconds for a first EAPOL frame, one second for the fallback, and at
    once for the retries that a disconnect asks for. */
module RecoveryTimes {
  import opened Bytes
  import opened TimerQueue
  import opened TimerTheorems
  import opened Recovery
  import opened ContextTimers
  import opened Deadlines

  /** The context's only timer for this handler is due at `time`. */
  ghost predicate OnlyDueAt(queue: seq<Timer>, id: Pointer, kind: Kind, time: nat) {
    exists t :: IsOnly(queue, id, kind, t) && t.deadline == Capped(time)
  }

  ghost predicate IsOnly(queue: seq<Timer>, id: Pointer, kind: Kind, t: Timer) {
    forall x :: x in queue && KindOf(x, id) == Some(kind) <==> x == t
  }

  ghost predicate NoneFor(queue: seq<Timer>, id: Pointer, kind: Kind) {
    forall x :: x in queue ==> KindOf(x, id) != Some(kind)
  }

  lemma CancelledNone(s: Loop, kind: Kind, id: Pointer)
    requires Valid(s)
    ensures var after := LoopCancel(s, kind, id);
            && Valid(after) && NoneFor(after.queue, id, kind) && after.ticks == s.ticks && after.allocs == s.allocs
            && after.initialized == s.initialized
            && forall x :: x in after.queue ==> x in s.queue
  {
    CancelKeepsValid(s, PatternOf(kind, id));
    CancelMeaning(s, PatternOf(kind, id));
    hide Valid, Without, Matching;
  }

  /** Cancel and register: granted at the time `c`, the context's only timer for the handler is due so many seconds
      after `c`. */
  lemma RearmedAt(s: Loop, env: Env, gone: Kind, seconds: U32, kind: Kind, id: Pointer, c: U64)
    requires Valid(s) && (gone == kind || NoneFor(s.queue, id, kind)) && env.clock(s.ticks) == Some(c)
    ensures var (after, r) := LoopRearm(s, env, gone, seconds, kind, id);
            && Valid(after) && (r == 0 ==> OnlyDueAt(after.queue, id, kind, c + 1_000_000 * seconds))
            && (r == 0 && gone != kind ==> NoneFor(after.queue, id, gone))
  {
    hide Valid, LoopCancel, DoRegister;
    var s1 := LoopCancel(s, gone, id);
    CancelledNone(s, gone, id);
    RegisterKeepsValid(s1, env, seconds, 0, PatternOf(kind, id));
    RegisterMeaning(s1, env, seconds, 0, PatternOf(kind, id));
    var (after, r) := DoRegister(s1, env, seconds, 0, PatternOf(kind, id));
    if r == 0 {
      var t := Timer(Asked(c, seconds, 0), HandlerOf(kind), id, NULL, s1.serial);
      assert KindOf(t, id) == Some(kind);
      hide KindOf;
      assert IsOnly(after.queue, id, kind, t);
    }
  }

  /** An association that waits for its first EAPOL frame is given three seconds. */
  lemma ThreeSeconds(s: Loop, env: Env, id: Pointer, c: U64)
    requires Valid(s) && env.clock(s.ticks) == Some(c)
    ensures var (after, granted) := LoopAssociated(s, env, id, true);
            granted ==> OnlyDueAt(after.queue, id, FirstTimeout, c + 3_000_000)
  {
    hide OnlyDueAt, LoopRearm, Valid;
    RearmedAt(s, env, FirstTimeout, 3, FirstTimeout, id, c);
  }

  /** After a timeout the fallback is due in one second, and no completion is on its way. */
  lemma OneSecond(s: Loop, env: Env, id: Pointer, c: U64)
    requires Valid(s) && env.clock(s.ticks) == Some(c)
    ensures var (after, r) := LoopTimeout(s, env, id);
            r == 0 ==> OnlyDueAt(after.queue, id, Fallback, c + 1_000_000) && NoneFor(after.queue, id, Complete)
  {
    hide OnlyDueAt, LoopRearm, Valid, LoopCancel;
    CancelledNone(s, Fallback, id);
    RearmedAt(LoopCancel(s, Fallback, id), env, Complete, 1, Fallback, id, c);
  }

  /** A temporary reject asks for its retry at once; so does a disconnect for the completion of a pending retry,
      in place of the fallback. */
  lemma AtOnce(s: Loop, env: Env, id: Pointer, c: U64)
    requires Valid(s) && env.clock(s.ticks) == Some(c)
    ensures var (after, granted, _) := LoopDisconnected(s, env, id, 8030, false);
            granted ==> OnlyDueAt(after.queue, id, RejectRetry, c)
    ensures NoneFor(s.queue, id, Complete) ==>
              var (after, _, granted) := LoopDisconnected(s, env, id, 0, true);
              granted ==> OnlyDueAt(after.queue, id, Complete, c) && NoneFor(after.queue, id, Fallback)
  {
    hide OnlyDueAt, LoopRearm, Valid, NoneFor;
    RearmedAt(s, env, RejectRetry, 0, RejectRetry, id, c);
    if NoneFor(s.queue, id, Complete) {
      RearmedAt(s, env, Fallback, 0, Complete, id, c);
    }
  }
}
