/** The context of `supplicant_ws63.c` as an object that edits its own fields and the event loop's real
    timer list; every method is proved to be the corresponding step of `Recovery`. Where the code calls
    into hostap, `hostap` is what that call does to the loop. */
module Supplicant {
  import opened Bytes
  import opened TimerQueue
  import opened TimerTheorems
  import EventLoop
  import EventRing
  import opened Recovery
  import opened ContextTimers

  // ----- the state shown to the owner -----

  datatype WpaState =
    | Disconnected | InterfaceDisabled | Inactive | Scanning
    | Authenticating | Associating | Associated | FourWayHandshake | GroupHandshake | Completed

  /** What `observe_state` reads from hostap, and the time of the event it may push. */
  datatype Seen = Seen(state: WpaState, authStatus: U16, assocStatus: U16, disconnectReason: int, timestampMs: int)

  /** `event_for_state`; 0 is no event. */
  function EventFor(state: WpaState): Byte {
    match state
    case Authenticating => 1
    case Associating => 1
    case Associated => 2
    case FourWayHandshake => 2
    case GroupHandshake => 2
    case Completed => 3
    case Disconnected => 4
    case InterfaceDisabled => 4
    case Inactive => 4
    case Scanning => 0
  }

  /** `failure_status_for_state`. */
  function FailureStatus(seen: Seen): int {
    if EventFor(seen.state) != 4 then 0
    else if seen.authStatus != 0 then 0x1000_0000 + seen.authStatus
    else if seen.assocStatus != 0 then 0x2000_0000 + seen.assocStatus
    else if seen.disconnectReason != 0 then 0x3000_0000 + seen.disconnectReason % 0x1_0000
    else 0
  }

  /** The ring and the observed state after `observe_state`: an event for a change of state, if it has one. */
  function Observed(ring: EventRing.Ring, observed: WpaState, seen: Seen): (EventRing.Ring, WpaState) {
    if seen.state == observed || EventFor(seen.state) == 0 then (ring, seen.state)
    else (EventRing.Push(ring, EventRing.Entry(EventFor(seen.state), FailureStatus(seen), seen.timestampMs)),
          seen.state)
  }

  lemma NoteRejectPending(c: Context)
    ensures forall granted :: NoteReject(c, granted).retryPending == c.retryPending
  {
  }

  lemma NoteDisconnectQuiet(c: Context)
    ensures !c.retryPending ==> forall granted :: NoteDisconnect(c, granted) == c
  {
  }

  lemma DisconnectedWithout(c: Context, up: Upstream)
    requires !up.hasInterface
    ensures OnDisconnect(c, up) == (c, -1)
  {
  }

  class Supplicant {
    const loop: EventLoop.Eloop
    const events: EventRing.EventBuffer
    const id: Pointer
    var observed: WpaState
    var retryPending: bool
    var rejectPending: bool
    var reassociate: bool
    var timeouts: Byte
    var disconnectEvents: Byte
    var fallbacks: Byte
    var localDisconnects: Byte
    var cached: Byte
    var scanned: Byte
    var rejects: Byte
    var rejectCached: Byte
    var rejectScanned: Byte
    ghost var exact: Exact
    ghost var trace: seq<Action>
    ghost var attempts: seq<Attempt>

    /** A zeroed context, for which the loop holds no timer yet. */
    constructor (loop: EventLoop.Eloop, id: Pointer)
      requires loop.Valid() && id != ALL_CTX && Ready(loop.View())
               && QueueOf(loop.View().queue, id) == Queue(0, 0, 0, 0)
      ensures this.loop == loop && this.id == id && Valid() && View() == CREATED
      ensures fresh(events) && fresh(events.events) && events.View() == EventRing.EMPTY && observed == InterfaceDisabled
    {
      this.loop, this.id := loop, id;
      events := new EventRing.EventBuffer();
      observed := InterfaceDisabled;
      retryPending, rejectPending, reassociate := false, false, false;
      timeouts, disconnectEvents, fallbacks, localDisconnects, cached, scanned := 0, 0, 0, 0, 0, 0;
      rejects, rejectCached, rejectScanned := 0, 0, 0;
      exact, trace, attempts := Exact(0, 0, 0, 0), [], [];
    }

    ghost predicate Valid()
      reads this, loop, loop.nodes, events
    {
      loop.Valid() && events.Valid() && id != ALL_CTX && Ready(loop.View())
    }

    /** How many of this context's timers the loop holds. */
    ghost function Timers(): Queue
      reads loop, loop.nodes
    {
      QueueOf(loop.View().queue, id)
    }

    ghost function View(): Context
      reads this, loop, loop.nodes
    {
      Context(retryPending, rejectPending, reassociate, Timers(),
              Counters(timeouts, disconnectEvents, fallbacks, localDisconnects, cached, scanned,
                       rejects, rejectCached, rejectScanned),
              exact, trace, attempts)
    }

    /** No foreign node enters the loop's list. */
    twostate predicate OwnNodes()
      reads loop
    {
      forall i :: 0 <= i < |loop.nodes| ==> loop.nodes[i] in old(loop.nodes) || fresh(loop.nodes[i])
    }

    method CancelTimers(kind: Kind)
      requires Valid()
      modifies loop, loop.nodes`next
      ensures Valid() && View() == CancelQueued(old(View()), kind) && OwnNodes()
      ensures loop.View() == LoopCancel(old(loop.View()), kind, id)
    {
      hide QueueOf, Ready, EventLoop.Linked, EventLoop.Views;
      LoopCancelQueue(loop.View(), kind, id);
      CancelReady(loop.View(), kind, id);
      var _ := loop.CancelTimeout(PatternOf(kind, id));
    }

    method RegisterTimer(seconds: U32, kind: Kind) returns (r: int)
      requires Valid()
      modifies loop, loop.nodes`next, this`attempts
      ensures Valid() && View() == RegisterQueued(old(View()), kind, r == 0) && OwnNodes()
      ensures (loop.View(), r) == DoRegister(old(loop.View()), loop.env, seconds, 0, PatternOf(kind, id))
    {
      hide QueueOf, DoRegister, Ready, EventLoop.Linked, EventLoop.Views;
      LoopRegisterQueue(loop.View(), loop.env, seconds, kind, id);
      RegisterReady(loop.View(), loop.env, seconds, kind, id);
      r := loop.RegisterTimeout(seconds, 0, PatternOf(kind, id));
      attempts := attempts + [Attempt(kind, r == 0)];
    }

    /** A call into hostap, which may use the loop for itself. */
    method CallHostap(hostap: seq<Op>)
      requires Valid() && AllLeave(hostap, id)
      modifies loop, loop.nodes
      ensures Valid() && View() == old(View()) && OwnNodes()
      ensures loop.View() == ApplyAll(old(loop.View()), loop.env, hostap)
    {
      hide QueueOf, Ready, AllLeave, ApplyAll, EventLoop.Linked, EventLoop.Views;
      ApplyAllSpares(loop.View(), loop.env, hostap, id);
      loop.Handle(hostap);
    }

    // ----- callbacks -----

    /** `hisi_wpa_schedule_first_eapol_retry`; the association or the scan is asked for last. */
    method ScheduleFirstEapolRetry(up: Upstream, confirmed: bool, hostap: seq<Op>)
      requires Valid() && AllLeave(hostap, id)
      modifies this, loop, loop.nodes
      ensures Valid() && View() == ScheduleRetry(old(View()), up, confirmed) && OwnNodes()
      ensures loop.View() ==
              if up.hasInterface && old(retryPending) then ApplyAll(old(loop.View()), loop.env, hostap)
              else old(loop.View())
    {
      hide RetryTaken, RetryMade, Ready, AllLeave, ApplyAll, EventLoop.Linked, EventLoop.Views, Timers;
      if !up.hasInterface || !retryPending { return; }
      hide View;
      var local := up.driver && up.locallyDisconnected;
      TakePending(!confirmed && local);
      if (confirmed || local) && up.network && up.bssidSet && up.bssKnown {
        MakeRetry(Cached, confirmed, hostap);
        return;
      }
      MakeRetry(Scan, confirmed, hostap);
    }

    method MakeRetry(path: Path, confirmed: bool, hostap: seq<Op>)
      requires Valid() && AllLeave(hostap, id)
      modifies this`cached, this`scanned, this`exact, this`trace, loop, loop.nodes
      ensures Valid() && View() == RetryMade(old(View()), path, confirmed) && OwnNodes()
      ensures loop.View() == ApplyAll(old(loop.View()), loop.env, hostap)
    {
      hide View, RetryMade, Ready, AllLeave, ApplyAll, EventLoop.Linked, EventLoop.Views;
      NoteRetry(path, confirmed);
      CallHostap(hostap);
    }

    method TakePending(countLocal: bool)
      modifies this`retryPending, this`reassociate, this`localDisconnects
      ensures View() == RetryTaken(old(View()), countLocal)
    {
      hide Timers;
      retryPending, reassociate := false, true;
      if countLocal { localDisconnects := Increment(localDisconnects); }
    }

    method NoteRetry(path: Path, confirmed: bool)
      modifies this`cached, this`scanned, this`exact, this`trace
      ensures View() == RetryMade(old(View()), path, confirmed)
    {
      hide Timers;
      match path {
        case Cached => cached, exact := Increment(cached), exact.(cached := exact.cached + 1);
        case Scan => scanned, exact := Increment(scanned), exact.(scanned := exact.scanned + 1);
      }
      trace := trace + [Retried(path, confirmed)];
    }

    /** `hisi_wpa_first_eapol_disconnect_fallback`. */
    method FirstEapolFallback(up: Upstream, hostap: seq<Op>)
      requires Valid() && AllLeave(hostap, id)
      modifies this, loop, loop.nodes
      ensures Valid() && View() == OnFallback(old(View()), up) && OwnNodes()
      ensures loop.View() ==
              if up.hasInterface && old(retryPending) then ApplyAll(old(loop.View()), loop.env, hostap)
              else old(loop.View())
    {
      hide Timers, Ready, AllLeave, ApplyAll, ScheduleRetry, EventLoop.Linked, EventLoop.Views;
      fallbacks := Increment(fallbacks);
      ScheduleFirstEapolRetry(up, false, hostap);
    }

    /** `hisi_wpa_first_eapol_disconnect_complete`. */
    method FirstEapolComplete(up: Upstream, hostap: seq<Op>)
      requires Valid() && AllLeave(hostap, id)
      modifies this, loop, loop.nodes
      ensures Valid() && View() == OnComplete(old(View()), up) && OwnNodes()
      ensures loop.View() ==
              if up.hasInterface && old(retryPending) then ApplyAll(old(loop.View()), loop.env, hostap)
              else old(loop.View())
    {
      hide View, Ready, AllLeave, ApplyAll, ScheduleRetry, EventLoop.Linked, EventLoop.Views;
      ScheduleFirstEapolRetry(up, true, hostap);
    }

    /** `hisi_wpa_first_eapol_timeout`, which deauthenticates before it touches its timers; the result of
        the registration is reported only to the proof. */
    method FirstEapolTimeout(up: Upstream, hostap: seq<Op>) returns (ghost granted: bool)
      requires Valid() && AllLeave(hostap, id)
      modifies this, loop, loop.nodes
      ensures Valid() && View() == OnFirstTimeout(old(View()), up, granted) && OwnNodes()
      ensures granted == (TimesOut(up) ==>
                LoopTimeout(ApplyAll(old(loop.View()), loop.env, hostap), loop.env, id).1 == 0)
      ensures loop.View() ==
              if TimesOut(up) then LoopTimeout(ApplyAll(old(loop.View()), loop.env, hostap), loop.env, id).0
              else old(loop.View())
    {
      hide TimeoutNoted, ApplyAll, View, CancelQueued, RegisterQueued, EventLoop.Linked, EventLoop.Views, LoopRearm,
           LoopCancel, Ready, AllLeave;
      granted := true;
      if !up.hasInterface || !up.associated || up.eapolSeen { return; }
      NoteTimeout();
      CallHostap(hostap);
      var r := QueueFallback();
      granted := r == 0;
    }

    method NoteTimeout()
      modifies this`timeouts, this`exact, this`retryPending, this`trace
      ensures View() == TimeoutNoted(old(View()))
    {
      hide Timers;
      exact := exact.(timeouts := exact.timeouts + 1, dropped := exact.dropped + if retryPending then 1 else 0);
      timeouts, retryPending := Increment(timeouts), true;
      trace := trace + [TimedOut, Deauthenticated];
    }

    method QueueFallback() returns (r: int)
      requires Valid()
      modifies loop, loop.nodes`next, this`attempts
      ensures Valid() && OwnNodes()
      ensures View() == RegisterQueued(CancelQueued(CancelQueued(old(View()), Fallback), Complete), Fallback, r == 0)
      ensures (loop.View(), r) == LoopRearm(LoopCancel(old(loop.View()), Fallback, id), loop.env, Complete, 1, Fallback,
                                            id)
    {
      hide Timers, EventLoop.Linked, EventLoop.Views, CancelQueued, RegisterQueued, LoopCancel, DoRegister, Ready;
      CancelTimers(Fallback);
      CancelTimers(Complete);
      r := RegisterTimer(1, Fallback);
    }

    /** `hisi_wpa_temporary_reject_retry`. */
    method TemporaryRejectRetry(up: Upstream, hostap: seq<Op>)
      requires Valid() && AllLeave(hostap, id)
      modifies this, loop, loop.nodes
      ensures Valid() && View() == OnRejectRetry(old(View()), up) && OwnNodes()
      ensures loop.View() ==
              if up.hasInterface && old(rejectPending) then ApplyAll(old(loop.View()), loop.env, hostap)
              else old(loop.View())
    {
      if !up.hasInterface || !rejectPending { return; }
      hide View, RejectRetryMade, Ready, AllLeave, ApplyAll, EventLoop.Linked, EventLoop.Views;
      if up.network && up.bssidSet && up.bssKnown {
        NoteRejectRetry(Cached);
        CallHostap(hostap);
        return;
      }
      NoteRejectRetry(Scan);
      CallHostap(hostap);
    }

    method NoteRejectRetry(path: Path)
      modifies this`rejectPending, this`reassociate, this`rejectCached, this`rejectScanned, this`trace
      ensures View() == RejectRetryMade(old(View()), path)
    {
      hide Timers;
      rejectPending, reassociate, trace := false, true, trace + [RejectRetried(path)];
      match path
      case Cached => rejectCached := Increment(rejectCached);
      case Scan => rejectScanned := Increment(rejectScanned);
    }

    /** The body of the run loop when its front timer is one of this context's: the timer is taken off, and
        its callback is one step of `Recovery`, hostap using the loop in between. */
    method FireOwn(up: Upstream, hostap: seq<Op>) returns (ghost kind: Kind, ghost granted: bool)
      requires Valid() && AllLeave(hostap, id) && loop.head != null && KindOf(loop.View().queue[0], id).Some?
      modifies this, loop, loop.nodes
      ensures Valid() && OwnNodes() && old(loop.View()).queue != []
      ensures Some(kind) == KindOf(old(loop.View()).queue[0], id)
      ensures granted ==
              CallbackGranted(BeforeOwn(Popped(old(loop.View())), loop.env, old(View()), kind, up, hostap), loop.env,
                              kind, up, id)
      ensures View() == OnFire(old(View()), kind, up, granted)
      ensures var s := ApplyAll(Popped(old(loop.View())), loop.env, ReactionOf(old(View()), kind, up, hostap, id));
              loop.View() == s.(executions := Mod32(s.executions + 1))
    {
      hide View, OnCallback, ReactionOf, BeforeOwn, ApplyAll, CallbackGranted, Popped, Ready, AllLeave;
      kind := KindOf(loop.View().queue[0], id).value;
      ghost var c := View();
      var call := TakeOwn(kind);
      SameReaction(c, View(), loop.View(), loop.env, kind, up, hostap, id);
      granted := RunCallback(call, kind, up, hostap);
      CountExecution();
    }

    method CountExecution()
      requires Valid()
      modifies loop`executions
      ensures Valid() && View() == old(View())
      ensures loop.View() == old(loop.View()).(executions := Mod32(old(loop.View()).executions + 1))
    {
      loop.CountExecution();
    }

    /** The call `handler(eloop_data, user_data)`. */
    method RunCallback(call: Pattern, ghost kind: Kind, up: Upstream, hostap: seq<Op>) returns (ghost granted: bool)
      requires Valid() && AllLeave(hostap, id) && call.handler == HandlerOf(kind)
      modifies this, loop, loop.nodes
      ensures Valid() && OwnNodes()
      ensures granted == CallbackGranted(BeforeOwn(old(loop.View()), loop.env, old(View()), kind, up, hostap), loop.env,
                                         kind, up, id)
      ensures View() == OnCallback(old(View()), kind, up, granted)
      ensures loop.View() == ApplyAll(old(loop.View()), loop.env, ReactionOf(old(View()), kind, up, hostap, id))
    {
      hide Timers, OnFirstTimeout, OnFallback, OnComplete, OnRejectRetry, EventLoop.Linked, EventLoop.Views, Ready,
           AllLeave, ApplyAll, ReactionOf, LoopTimeout;
      granted := true;
      ReactionDone(loop.View(), loop.env, View(), kind, up, hostap, id);
      if call.handler == 1 {
        granted := FirstEapolTimeout(up, hostap);
      } else if call.handler == 2 {
        FirstEapolFallback(up, hostap);
      } else if call.handler == 3 {
        FirstEapolComplete(up, hostap);
      } else {
        TemporaryRejectRetry(up, hostap);
      }
    }

    /** Taking the front timer off lowers its handler's count by one. */
    method TakeOwn(ghost kind: Kind) returns (call: Pattern)
      requires Valid() && loop.head != null && KindOf(loop.View().queue[0], id) == Some(kind)
      modifies loop
      ensures Valid() && OwnNodes() && old(loop.View()).queue != []
      ensures loop.View() == Popped(old(loop.View())) && call == CallOf(old(loop.View()).queue[0])
      ensures old(View()).Queued(kind) > 0 && View() == old(View()).WithQueued(kind, old(View()).Queued(kind) - 1)
    {
      hide EventLoop.Linked, EventLoop.Views, QueueOf;
      assert Ready(loop.View()) && loop.View().queue != [] ==> Ready(Popped(loop.View()));
      hide Popped, Ready;
      loop.LengthOfViews();
      PoppedQueue(loop.View(), kind, id);
      call := loop.TakeFront();
    }

    // ----- calls by the owner and the driver -----

    /** `observe_state`. */
    method ObserveState(seen: Seen)
      requires events.Valid()
      modifies this`observed, events, events.events
      ensures events.Valid() && events.events == old(events.events)
      ensures (events.View(), observed) == Observed(old(events.View()), old(observed), seen)
      ensures View() == old(View())
    {
      hide Timers;
      if seen.state == observed { return; }
      observed := seen.state;
      var event := EventFor(seen.state);
      if event != 0 {
        events.PushEvent(event, FailureStatus(seen), seen.timestampMs);
      }
    }

    /** `hisi_wpa_disconnect`, which deauthenticates after it has cancelled its timers. */
    method Disconnect(up: Upstream, hostap: seq<Op>, seen: Seen) returns (r: int)
      requires Valid() && AllLeave(hostap, id)
      modifies this, loop, loop.nodes, events, events.events
      ensures Valid() && (View(), r) == OnDisconnect(old(View()), up) && OwnNodes()
      ensures loop.View() ==
              if !up.hasInterface then old(loop.View())
              else ApplyAll(LoopWithdrawn(old(loop.View()), id), loop.env, hostap)
      ensures events.events == old(events.events)
      ensures (events.View(), observed) ==
              if r == -1 then (old(events.View()), old(observed)) else Observed(old(events.View()), old(observed), seen)
    {
      hide View, OnDisconnect, EventLoop.Linked, EventLoop.Views, LoopWithdrawn, Ready, AllLeave, ApplyAll, Observed;
      if !up.hasInterface {
        DisconnectedWithout(View(), up);
        return -1;
      }
      Withdraw(up);
      CallHostap(hostap);
      ObserveState(seen);
      return 0;
    }

    /** What a disconnect does to the recoveries. */
    method Withdraw(up: Upstream)
      requires Valid() && up.hasInterface
      modifies this`retryPending, this`rejectPending, this`exact, this`trace, loop, loop.nodes`next
      ensures Valid() && (View(), 0) == OnDisconnect(old(View()), up) && OwnNodes()
      ensures loop.View() == LoopWithdrawn(old(loop.View()), id)
    {
      hide View, RetryDropped, CancelQueued, EventLoop.Linked, EventLoop.Views, LoopCancel, Ready;
      DropRetry();
      CancelFirstEapol();
      DropReject();
      CancelTimers(RejectRetry);
      NoteDeauthenticated();
    }

    method DropRetry()
      modifies this`retryPending, this`exact
      ensures View() == RetryDropped(old(View()))
    {
      hide Timers;
      exact := exact.(dropped := exact.dropped + if retryPending then 1 else 0);
      retryPending := false;
    }

    method DropReject()
      modifies this`rejectPending
      ensures View() == old(View()).(rejectPending := false)
    {
      hide Timers;
      rejectPending := false;
    }

    method NoteDeauthenticated()
      modifies this`trace
      ensures View() == old(View()).(trace := old(View()).trace + [Deauthenticated])
    {
      hide Timers;
      trace := trace + [Deauthenticated];
    }

    method CancelFirstEapol()
      requires Valid()
      modifies loop, loop.nodes`next
      ensures Valid() && OwnNodes()
      ensures View() == CancelQueued(CancelQueued(CancelQueued(old(View()), FirstTimeout), Fallback), Complete)
      ensures loop.View() == LoopCancel(LoopCancel(LoopCancel(old(loop.View()), FirstTimeout, id), Fallback, id),
                                        Complete, id)
    {
      hide Timers, EventLoop.Linked, EventLoop.Views, CancelQueued, LoopCancel;
      CancelTimers(FirstTimeout);
      CancelTimers(Fallback);
      CancelTimers(Complete);
    }

    /** `hisi_wpa_feed_associate_result`; the driver layer tells hostap first. */
    method FeedAssociateResult(up: Upstream, status: int, resultStatus: int, hostap: seq<Op>, seen: Seen)
      returns (r: int, ghost granted: bool)
      requires Valid() && AllLeave(hostap, id)
      modifies this, loop, loop.nodes, events, events.events
      ensures Valid() && (View(), r) == OnAssociateResult(old(View()), up, status, resultStatus, granted) && OwnNodes()
      ensures (loop.View(), granted) ==
              if !up.hasInterface || !up.driver then (old(loop.View()), true)
              else LoopAssociated(ApplyAll(old(loop.View()), loop.env, hostap), loop.env, id,
                                  status == 0 && resultStatus == 0 && up.associated)
      ensures events.events == old(events.events)
      ensures (events.View(), observed) ==
              if !up.hasInterface || !up.driver then (old(events.View()), old(observed))
              else Observed(old(events.View()), old(observed), seen)
    {
      hide View, EventLoop.Linked, EventLoop.Views, LoopRearm, RegisterQueued, CancelQueued, Ready, AllLeave, ApplyAll,
           Observed;
      granted := true;
      if !up.hasInterface || !up.driver { return -1, true; }
      TakeAssociation(hostap);
      if status == 0 && resultStatus == 0 && up.associated {
        var registered := QueueFirstTimeout();
        granted := registered == 0;
      }
      ObserveState(seen);
      r := status;
    }

    /** `hisi_wpa_feed_disconnect`; the driver layer tells hostap first. */
    method FeedDisconnect(up: Upstream, status: int, reason: int, hostap: seq<Op>, seen: Seen)
      returns (r: int, ghost grantedReject: bool, ghost grantedComplete: bool)
      requires Valid() && AllLeave(hostap, id)
      modifies this, loop, loop.nodes, events, events.events
      ensures Valid() && OwnNodes()
      ensures (View(), r) == OnDisconnectEvent(old(View()), up, status, reason, grantedReject, grantedComplete)
      ensures (loop.View(), grantedReject, grantedComplete) ==
              if !up.hasInterface || !up.driver then (old(loop.View()), true, true)
              else
                var s := ApplyAll(old(loop.View()), loop.env, hostap);
                if status != 0 then (s, true, true) else LoopDisconnected(s, loop.env, id, reason, old(retryPending))
      ensures events.events == old(events.events)
      ensures (events.View(), observed) ==
              if !up.hasInterface || !up.driver || !grantedReject || !grantedComplete
              then (old(events.View()), old(observed))
              else Observed(old(events.View()), old(observed), seen)
    {
      hide View, OnDisconnected, EventLoop.Linked, EventLoop.Views, LoopDisconnected, Observed, Ready, AllLeave,
           ApplyAll;
      grantedReject, grantedComplete := true, true;
      if !up.hasInterface || !up.driver { return -1, true, true; }
      CallHostap(hostap);
      if status != 0 {
        ObserveState(seen);
        return status, true, true;
      }
      r, grantedReject, grantedComplete := QueueRecoveries(reason);
      if r != 0 { return; }
      ObserveState(seen);
    }

    /** The retries a disconnect queues, up to the first refused registration. */
    method QueueRecoveries(reason: int) returns (r: int, ghost grantedReject: bool, ghost grantedComplete: bool)
      requires Valid()
      modifies this`rejects, this`rejectPending, this`disconnectEvents, this`attempts, this`trace, loop, loop.nodes`next
      ensures Valid() && OwnNodes()
      ensures (View(), r) == OnDisconnected(old(View()), reason, grantedReject, grantedComplete)
      ensures r == if grantedReject && grantedComplete then 0 else -1
      ensures (loop.View(), grantedReject, grantedComplete) ==
              LoopDisconnected(old(loop.View()), loop.env, id, reason, old(retryPending))
    {
      hide Timers, EventLoop.Linked, EventLoop.Views, LoopRearm, NoteReject, NoteDisconnect;
      grantedReject, grantedComplete := true, true;
      trace := trace + [DisconnectFed(reason)];
      NoteRejectPending(View());
      if reason == TEMPORARY_REJECT {
        var registered := QueueReject();
        grantedReject := registered == 0;
        if registered != 0 { return -1, false, true; }
      }
      NoteDisconnectQuiet(View());
      if retryPending {
        var registered := QueueComplete();
        grantedComplete := registered == 0;
        if registered != 0 { return -1, grantedReject, false; }
      }
      r := 0;
    }

    method TakeAssociation(hostap: seq<Op>)
      requires Valid() && AllLeave(hostap, id)
      modifies this`trace, loop, loop.nodes
      ensures Valid() && View() == old(View()).(trace := old(View()).trace + [AssociationFed]) && OwnNodes()
      ensures loop.View() == ApplyAll(old(loop.View()), loop.env, hostap)
    {
      hide View, EventLoop.Linked, EventLoop.Views, Ready, AllLeave, ApplyAll;
      NoteAssociationFed();
      CallHostap(hostap);
    }

    method NoteAssociationFed()
      modifies this`trace
      ensures View() == old(View()).(trace := old(View()).trace + [AssociationFed])
    {
      hide Timers;
      trace := trace + [AssociationFed];
    }

    method QueueFirstTimeout() returns (r: int)
      requires Valid()
      modifies loop, loop.nodes`next, this`attempts
      ensures Valid() && OwnNodes()
      ensures View() == RegisterQueued(CancelQueued(old(View()), FirstTimeout), FirstTimeout, r == 0)
      ensures (loop.View(), r) == LoopRearm(old(loop.View()), loop.env, FirstTimeout, FIRST_EAPOL_TIMEOUT_SECONDS,
                                            FirstTimeout, id)
    {
      hide Timers, EventLoop.Linked, EventLoop.Views, CancelQueued, RegisterQueued, LoopCancel, DoRegister;
      CancelTimers(FirstTimeout);
      r := RegisterTimer(FIRST_EAPOL_TIMEOUT_SECONDS, FirstTimeout);
    }

    method QueueReject() returns (r: int)
      requires Valid()
      modifies loop, loop.nodes`next, this`rejects, this`rejectPending, this`attempts
      ensures Valid() && View() == NoteReject(old(View()), r == 0) && OwnNodes()
      ensures (loop.View(), r) == LoopRearm(old(loop.View()), loop.env, RejectRetry, 0, RejectRetry, id)
    {
      hide Timers, EventLoop.Linked, EventLoop.Views, LoopCancel, DoRegister;
      rejects := Increment(rejects);
      rejectPending := true;
      CancelTimers(RejectRetry);
      r := RegisterTimer(0, RejectRetry);
    }

    method QueueComplete() returns (r: int)
      requires Valid() && retryPending
      modifies loop, loop.nodes`next, this`disconnectEvents, this`attempts
      ensures Valid() && View() == NoteDisconnect(old(View()), r == 0) && OwnNodes()
      ensures (loop.View(), r) == LoopRearm(old(loop.View()), loop.env, Fallback, 0, Complete, id)
    {
      hide Timers, EventLoop.Linked, EventLoop.Views, LoopCancel, DoRegister;
      disconnectEvents := Increment(disconnectEvents);
      CancelTimers(Fallback);
      r := RegisterTimer(0, Complete);
    }
  }
}
