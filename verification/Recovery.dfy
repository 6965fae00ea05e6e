/** The two recovery protocols of `supplicant_ws63.c`: a missing first EAPOL frame, and an association
    the firmware rejects temporarily. Upstream hostap appears as what the code reads from it and as the
    calls the code makes, recorded in a trace; the loop's timers of this context appear as how many of
    each handler are queued. */
module Recovery {
  import opened Bytes

  const TEMPORARY_REJECT := 8030

  /** The handlers this file registers on the event loop, each with the context as its first argument. */
  datatype Kind = FirstTimeout | Fallback | Complete | RejectRetry

  datatype Path = Cached | Scan

  datatype Action =
    | TimedOut
    | Deauthenticated
    | Retried(path: Path, confirmed: bool)
    | RejectRetried(path: Path)
    | DisconnectFed(reason: int)
    | AssociationFed

  /** One call of `eloop_register_timeout` and whether it was granted. */
  datatype Attempt = Attempt(kind: Kind, granted: bool)

  /** What the code reads from hostap and the driver at the moment of a call. */
  datatype Upstream = Upstream(
    hasInterface: bool, driver: bool, locallyDisconnected: bool,
    network: bool, bssidSet: bool, bssKnown: bool, associated: bool, eapolSeen: bool)

  /** The 8-bit saturating diagnostic fields. */
  datatype Counters = Counters(
    timeouts: Byte, disconnectEvents: Byte, fallbacks: Byte, localDisconnects: Byte, cached: Byte, scanned: Byte,
    rejects: Byte, rejectCached: Byte, rejectScanned: Byte)

  /** What some of them would be without saturation, and the retries superseded or dropped. */
  datatype Exact = Exact(timeouts: nat, cached: nat, scanned: nat, dropped: nat)

  datatype Context = Context(
    retryPending: bool, rejectPending: bool, reassociate: bool,
    queued: Queue,
    counters: Counters, exact: Exact,
    trace: seq<Action>, attempts: seq<Attempt>)
  {
    function Queued(kind: Kind): nat { queued.Count(kind) }

    function WithQueued(kind: Kind, n: nat): Context { this.(queued := queued.With(kind, n)) }
  }

  /** How many timers of this context are queued, by handler. */
  datatype Queue = Queue(firstTimeout: nat, fallback: nat, complete: nat, rejectRetry: nat) {
    function Count(kind: Kind): nat {
      match kind
      case FirstTimeout => firstTimeout
      case Fallback => fallback
      case Complete => complete
      case RejectRetry => rejectRetry
    }

    function With(kind: Kind, n: nat): Queue {
      match kind
      case FirstTimeout => this.(firstTimeout := n)
      case Fallback => this.(fallback := n)
      case Complete => this.(complete := n)
      case RejectRetry => this.(rejectRetry := n)
    }
  }

  const CREATED := Context(false, false, false, Queue(0, 0, 0, 0), Counters(0, 0, 0, 0, 0, 0, 0, 0, 0),
                           Exact(0, 0, 0, 0), [], [])

  function Increment(value: Byte): Byte { if value != 0xff then value + 1 else value }

  // ----- timers -----

  /** `eloop_cancel_timeout(handler, context, NULL)`. */
  function CancelQueued(c: Context, kind: Kind): Context { c.WithQueued(kind, 0) }

  /** `eloop_register_timeout(..., handler, context, NULL)`, which may be refused. */
  function RegisterQueued(c: Context, kind: Kind, granted: bool): Context {
    var c1 := c.(attempts := c.attempts + [Attempt(kind, granted)]);
    if granted then c1.WithQueued(kind, c1.Queued(kind) + 1) else c1
  }

  // ----- callbacks -----

  /** The pending retry is taken up. */
  function RetryTaken(c: Context, countLocal: bool): Context {
    c.(retryPending := false, reassociate := true,
       counters := if countLocal then c.counters.(localDisconnects := Increment(c.counters.localDisconnects))
           else c.counters)
  }

  /** The retry is made, from the cached entry or by a scan. */
  function RetryMade(c: Context, path: Path, confirmed: bool): Context {
    match path
    case Cached =>
      c.(counters := c.counters.(cached := Increment(c.counters.cached)),
         exact := c.exact.(cached := c.exact.cached + 1),
         trace := c.trace + [Retried(Cached, confirmed)])
    case Scan =>
      c.(counters := c.counters.(scanned := Increment(c.counters.scanned)),
         exact := c.exact.(scanned := c.exact.scanned + 1),
         trace := c.trace + [Retried(Scan, confirmed)])
  }

  /** `hisi_wpa_schedule_first_eapol_retry`. */
  function ScheduleRetry(c: Context, up: Upstream, confirmed: bool): Context {
    if !up.hasInterface || !c.retryPending then c
    else
      var local := up.driver && up.locallyDisconnected;
      var reuse := (confirmed || local) && up.network && up.bssidSet && up.bssKnown;
      RetryMade(RetryTaken(c, !confirmed && local), if reuse then Cached else Scan, confirmed)
  }

  function FallbackNoted(c: Context): Context {
    c.(counters := c.counters.(fallbacks := Increment(c.counters.fallbacks)))
  }

  function OnFallback(c: Context, up: Upstream): Context {
    ScheduleRetry(FallbackNoted(c), up, false)
  }

  function OnComplete(c: Context, up: Upstream): Context { ScheduleRetry(c, up, true) }

  /** A timeout; a retry that was still pending is superseded by the new one. */
  function TimeoutNoted(c: Context): Context {
    c.(counters := c.counters.(timeouts := Increment(c.counters.timeouts)),
       exact := c.exact.(timeouts := c.exact.timeouts + 1,
                         dropped := c.exact.dropped + if c.retryPending then 1 else 0),
       retryPending := true, trace := c.trace + [TimedOut, Deauthenticated])
  }

  /** `hisi_wpa_first_eapol_timeout`. */
  function OnFirstTimeout(c: Context, up: Upstream, granted: bool): Context {
    if !up.hasInterface || !up.associated || up.eapolSeen then c
    else RegisterQueued(CancelQueued(CancelQueued(TimeoutNoted(c), Fallback), Complete), Fallback, granted)
  }

  /** The temporary-reject retry is made. */
  function RejectRetryMade(c: Context, path: Path): Context {
    var c1 := c.(rejectPending := false, reassociate := true, trace := c.trace + [RejectRetried(path)]);
    match path
    case Cached => c1.(counters := c1.counters.(rejectCached := Increment(c1.counters.rejectCached)))
    case Scan => c1.(counters := c1.counters.(rejectScanned := Increment(c1.counters.rejectScanned)))
  }

  function OnRejectRetry(c: Context, up: Upstream): Context {
    if !up.hasInterface || !c.rejectPending then c
    else RejectRetryMade(c, if up.network && up.bssidSet && up.bssKnown then Cached else Scan)
  }

  // ----- calls by the owner and the driver -----

  /** A pending retry is given up. */
  function RetryDropped(c: Context): Context {
    c.(retryPending := false, exact := c.exact.(dropped := c.exact.dropped + if c.retryPending then 1 else 0))
  }

  /** `hisi_wpa_disconnect`. */
  function OnDisconnect(c: Context, up: Upstream): (Context, int) {
    if !up.hasInterface then (c, -1)
    else
      var c1 := RetryDropped(c);
      var c2 := CancelQueued(CancelQueued(CancelQueued(c1, FirstTimeout), Fallback), Complete);
      var c3 := CancelQueued(c2.(rejectPending := false), RejectRetry);
      (c3.(trace := c3.trace + [Deauthenticated]), 0)
  }

  /** `hisi_wpa_feed_associate_result`; `status` is what the driver layer returned. */
  function OnAssociateResult(c: Context, up: Upstream, status: int, resultStatus: int, granted: bool): (Context, int) {
    if !up.hasInterface || !up.driver then (c, -1)
    else
      var c1 := c.(trace := c.trace + [AssociationFed]);
      if status == 0 && resultStatus == 0 && up.associated
      then (RegisterQueued(CancelQueued(c1, FirstTimeout), FirstTimeout, granted), status)
      else (c1, status)
  }

  /** The part of `hisi_wpa_feed_disconnect` for a temporary reject: queue one immediate retry. */
  function NoteReject(c: Context, granted: bool): Context {
    RegisterQueued(CancelQueued(c.(counters := c.counters.(rejects := Increment(c.counters.rejects)),
                                   rejectPending := true), RejectRetry), RejectRetry, granted)
  }

  /** Its part for a pending retry: the fallback gives way to an immediate completion. */
  function NoteDisconnect(c: Context, granted: bool): Context {
    if !c.retryPending then c
    else RegisterQueued(CancelQueued(c.(counters :=
        c.counters.(disconnectEvents := Increment(c.counters.disconnectEvents))), Fallback), Complete, granted)
  }

  /** A disconnect the driver layer has taken. */
  function OnDisconnected(c: Context, reason: int, grantedReject: bool, grantedComplete: bool): (Context, int) {
    var c1 := c.(trace := c.trace + [DisconnectFed(reason)]);
    var c2 := if reason == TEMPORARY_REJECT then NoteReject(c1, grantedReject) else c1;
    if reason == TEMPORARY_REJECT && !grantedReject then (c2, -1)
    else (NoteDisconnect(c2, grantedComplete), if c2.retryPending && !grantedComplete then -1 else 0)
  }

  /** `hisi_wpa_feed_disconnect`. */
  function OnDisconnectEvent(c: Context, up: Upstream, status: int, reason: int, grantedReject: bool,
                             grantedComplete: bool): (Context, int) {
    if !up.hasInterface || !up.driver then (c, -1)
    else if status != 0 then (c, status)
    else OnDisconnected(c, reason, grantedReject, grantedComplete)
  }

  // ----- runs -----

  datatype Input =
    | Fire(kind: Kind, up: Upstream, granted: bool)
    | Disconnect(up: Upstream)
    | FeedAssociate(up: Upstream, status: int, resultStatus: int, granted: bool)
    | FeedDisconnect(up: Upstream, status: int, reason: int, grantedReject: bool, grantedComplete: bool)

  /** The loop takes a queued timer off and calls its handler; without one, nothing happens. */
  function OnFire(c: Context, kind: Kind, up: Upstream, granted: bool): Context {
    if c.Queued(kind) == 0 then c else OnCallback(c.WithQueued(kind, c.Queued(kind) - 1), kind, up, granted)
  }

  function OnCallback(c: Context, kind: Kind, up: Upstream, granted: bool): Context {
    match kind
    case FirstTimeout => OnFirstTimeout(c, up, granted)
    case Fallback => OnFallback(c, up)
    case Complete => OnComplete(c, up)
    case RejectRetry => OnRejectRetry(c, up)
  }

  function Next(c: Context, input: Input): Context {
    match input
    case Fire(kind, up, granted) => OnFire(c, kind, up, granted)
    case Disconnect(up) => OnDisconnect(c, up).0
    case FeedAssociate(up, status, resultStatus, granted) => OnAssociateResult(c, up, status, resultStatus, granted).0
    case FeedDisconnect(up, status, reason, grantedReject, grantedComplete) =>
      OnDisconnectEvent(c, up, status, reason, grantedReject, grantedComplete).0
  }

  function Run(c: Context, inputs: seq<Input>): Context
    decreases |inputs|
  {
    if inputs == [] then c else Run(Next(c, inputs[0]), inputs[1..])
  }

  /** A context has an interface whenever one of its timers can fire: from its initialization to its
      destruction. */
  predicate HasInterface(input: Input) {
    input.Fire? ==> input.up.hasInterface
  }

  // ----- invariants -----

  /** The latest of all first-EAPOL timeouts and fed disconnects is a fed disconnect. */
  predicate DisconnectSinceTimeout(trace: seq<Action>) {
    && trace != []
    && (trace[|trace| - 1].DisconnectFed?
       || (!trace[|trace| - 1].TimedOut? && DisconnectSinceTimeout(trace[..|trace| - 1])))
  }

  /** Every retry that claims a confirmed disconnect follows one. */
  ghost predicate ConfirmedRetriesJustified(trace: seq<Action>) {
    forall i {:trigger trace[i]} :: 0 <= i < |trace| && trace[i].Retried? && trace[i].confirmed ==>
        DisconnectSinceTimeout(trace[..i])
  }

  function Saturated(n: nat): Byte { if n < 0xff then n else 0xff }

  /** What holds whether or not registrations succeed. */
  ghost predicate Sound(c: Context) {
    && c.Queued(FirstTimeout) <= 1 && c.Queued(Fallback) <= 1 && c.Queued(RejectRetry) <= 1
    && (c.Queued(Fallback) > 0 ==> c.retryPending && c.Queued(Complete) == 0)
    && (c.Queued(RejectRetry) > 0 ==> c.rejectPending)
    && (c.Queued(Complete) > 0 ==> DisconnectSinceTimeout(c.trace))
    && ConfirmedRetriesJustified(c.trace)
    && c.exact.timeouts == c.exact.cached + c.exact.scanned + c.exact.dropped + (if c.retryPending then 1 else 0)
    && c.counters.timeouts == Saturated(c.exact.timeouts)
    && c.counters.cached == Saturated(c.exact.cached) && c.counters.scanned == Saturated(c.exact.scanned)
  }

  /** A pending retry has a timer that will perform it, and a pending reject exactly one. */
  ghost predicate NotLost(c: Context) {
    && (c.retryPending ==> c.Queued(Fallback) > 0 || c.Queued(Complete) > 0)
    && (c.rejectPending ==> c.Queued(RejectRetry) == 1)
  }

  lemma TraceGrows(trace: seq<Action>, more: Action)
    requires ConfirmedRetriesJustified(trace)
    requires more.Retried? && more.confirmed ==> DisconnectSinceTimeout(trace)
    ensures ConfirmedRetriesJustified(trace + [more])
    ensures DisconnectSinceTimeout(trace + [more])
       <==> more.DisconnectFed? || (!more.TimedOut? && DisconnectSinceTimeout(trace))
  {
    var longer := trace + [more];
    assert longer[..|trace|] == trace;
    forall i {:trigger longer[i]} | 0 <= i < |longer| && longer[i].Retried? && longer[i].confirmed
      ensures DisconnectSinceTimeout(longer[..i])
    {
      if i < |trace| {
        assert longer[..i] == trace[..i] && longer[i] == trace[i];
      }
    }
  }

  lemma RetrySound(c: Context, up: Upstream, confirmed: bool)
    requires Sound(c) && (confirmed ==> DisconnectSinceTimeout(c.trace)) && c.Queued(Fallback) == 0
    ensures Sound(ScheduleRetry(c, up, confirmed))
    ensures up.hasInterface ==> !ScheduleRetry(c, up, confirmed).retryPending
  {
    hide ConfirmedRetriesJustified, DisconnectSinceTimeout;
    TraceGrows(c.trace, Retried(Cached, confirmed));
    TraceGrows(c.trace, Retried(Scan, confirmed));
  }

  lemma FirstTimeoutSound(c: Context, up: Upstream, granted: bool)
    requires Sound(c)
    ensures Sound(OnFirstTimeout(c, up, granted))
  {
    hide ConfirmedRetriesJustified, DisconnectSinceTimeout;
    TraceGrows(c.trace, TimedOut);
    TraceGrows(c.trace + [TimedOut], Deauthenticated);
    assert c.trace + [TimedOut] + [Deauthenticated] == c.trace + [TimedOut, Deauthenticated];
  }

  lemma FireSound(c: Context, kind: Kind, up: Upstream, granted: bool)
    requires Sound(c)
    ensures Sound(OnFire(c, kind, up, granted))
  {
    hide ConfirmedRetriesJustified, DisconnectSinceTimeout;
    if c.Queued(kind) > 0 {
      var c1 := c.WithQueued(kind, c.Queued(kind) - 1);
      match kind
      case FirstTimeout => FirstTimeoutSound(c1, up, granted);
      case Fallback => RetrySound(FallbackNoted(c1), up, false);
      case Complete => RetrySound(c1, up, true);
      case RejectRetry =>
        TraceGrows(c.trace, RejectRetried(Cached));
        TraceGrows(c.trace, RejectRetried(Scan));
    }
  }

  lemma NoteRejectSound(c: Context, granted: bool)
    requires Sound(c)
    ensures Sound(NoteReject(c, granted)) && NoteReject(c, granted).trace == c.trace
  {
    hide ConfirmedRetriesJustified, DisconnectSinceTimeout;
  }

  lemma NoteDisconnectSound(c: Context, granted: bool)
    requires Sound(c) && DisconnectSinceTimeout(c.trace)
    ensures Sound(NoteDisconnect(c, granted))
  {
    hide ConfirmedRetriesJustified, DisconnectSinceTimeout;
  }

  lemma FeedDisconnectSound(c: Context, up: Upstream, status: int, reason: int, grantedReject: bool,
                            grantedComplete: bool)
    requires Sound(c)
    ensures Sound(OnDisconnectEvent(c, up, status, reason, grantedReject, grantedComplete).0)
  {
    if up.hasInterface && up.driver && status == 0 {
      var c1 := c.(trace := c.trace + [DisconnectFed(reason)]);
      TraceGrows(c.trace, DisconnectFed(reason));
      hide ConfirmedRetriesJustified, DisconnectSinceTimeout, NoteDisconnect, NoteReject;
      assert Sound(c1);
      hide Sound;
      NoteRejectSound(c1, grantedReject);
      NoteDisconnectSound(if reason == TEMPORARY_REJECT then NoteReject(c1, grantedReject) else c1, grantedComplete);
    }
  }

  lemma DisconnectSound(c: Context, up: Upstream)
    requires Sound(c)
    ensures Sound(OnDisconnect(c, up).0)
  {
    hide ConfirmedRetriesJustified, DisconnectSinceTimeout;
    TraceGrows(c.trace, Deauthenticated);
  }

  lemma FeedAssociateSound(c: Context, up: Upstream, status: int, resultStatus: int, granted: bool)
    requires Sound(c)
    ensures Sound(OnAssociateResult(c, up, status, resultStatus, granted).0)
  {
    hide ConfirmedRetriesJustified, DisconnectSinceTimeout;
    TraceGrows(c.trace, AssociationFed);
  }

  /** Soundness is kept by every step, even one whose timer registration is refused. */
  lemma NextSound(c: Context, input: Input)
    requires Sound(c)
    ensures Sound(Next(c, input))
  {
    hide Sound, OnFire, OnDisconnect, OnAssociateResult, OnDisconnectEvent;
    match input
    case Fire(kind, up, granted) => FireSound(c, kind, up, granted);
    case Disconnect(up) => DisconnectSound(c, up);
    case FeedAssociate(up, status, resultStatus, granted) => FeedAssociateSound(c, up, status, resultStatus, granted);
    case FeedDisconnect(up, status, reason, grantedReject, grantedComplete) =>
      FeedDisconnectSound(c, up, status, reason, grantedReject, grantedComplete);
  }

  lemma {:induction false} RunSound(c: Context, inputs: seq<Input>)
    requires Sound(c)
    ensures Sound(Run(c, inputs))
    decreases |inputs|
  {
    hide Sound, Next;
    if inputs != [] {
      NextSound(c, inputs[0]);
      RunSound(Next(c, inputs[0]), inputs[1..]);
    }
  }

  // ----- which registrations decide whether a recovery has its timer -----

  /** The latest completion asked for since the latest fallback, or an earlier one since then, was granted. */
  predicate CompletionHeld(attempts: seq<Attempt>) {
    if attempts == [] then false
    else
      var front, last := attempts[..|attempts| - 1], attempts[|attempts| - 1];
      match last.kind
      case Complete => last.granted || CompletionHeld(front)
      case Fallback => false
      case _ => CompletionHeld(front)
  }

  /** A completion was granted since the latest fallback was asked for; or none was asked for since, and
      that fallback was granted. */
  predicate RetryHeld(attempts: seq<Attempt>) {
    if attempts == [] then false
    else
      var front, last := attempts[..|attempts| - 1], attempts[|attempts| - 1];
      match last.kind
      case Complete => last.granted || CompletionHeld(front)
      case Fallback => last.granted
      case _ => RetryHeld(front)
  }

  /** The latest temporary-reject retry asked for was granted. */
  predicate RejectHeld(attempts: seq<Attempt>) {
    if attempts == [] then false
    else
      var front, last := attempts[..|attempts| - 1], attempts[|attempts| - 1];
      if last.kind == RejectRetry then last.granted else RejectHeld(front)
  }

  predicate AskedFor(attempts: seq<Attempt>, kind: Kind) {
    exists i :: 0 <= i < |attempts| && attempts[i].kind == kind
  }

  predicate HasRetryTimer(c: Context) { c.Queued(Fallback) > 0 || c.Queued(Complete) > 0 }

  /** A pending recovery has a timer exactly if the registrations on its behalf say so. */
  ghost predicate HeldAsGranted(c: Context) {
    && (c.retryPending ==>
          && AskedFor(c.attempts, Fallback)
          && (HasRetryTimer(c) <==> RetryHeld(c.attempts))
          && (c.Queued(Complete) > 0 <==> CompletionHeld(c.attempts)))
    && (c.rejectPending ==>
          && AskedFor(c.attempts, RejectRetry)
          && (c.Queued(RejectRetry) == 1 <==> RejectHeld(c.attempts)))
  }

  lemma AttemptMore(attempts: seq<Attempt>, last: Attempt)
    ensures var more := attempts + [last];
            && CompletionHeld(more) == (match last.kind
                                        case Complete => last.granted || CompletionHeld(attempts)
                                        case Fallback => false
                                        case _ => CompletionHeld(attempts))
            && RetryHeld(more) == (match last.kind
                                   case Complete => last.granted || CompletionHeld(attempts)
                                   case Fallback => last.granted
                                   case _ => RetryHeld(attempts))
            && RejectHeld(more) == (if last.kind == RejectRetry then last.granted else RejectHeld(attempts))
            && forall kind :: AskedFor(more, kind) <==> AskedFor(attempts, kind) || kind == last.kind
  {
    var more := attempts + [last];
    assert more[..|attempts|] == attempts;
    assert more[|attempts|] == last;
    assert forall i :: 0 <= i < |attempts| ==> more[i] == attempts[i];
  }

  lemma FireHeld(c: Context, kind: Kind, up: Upstream, granted: bool)
    requires Sound(c) && HeldAsGranted(c) && up.hasInterface
    ensures HeldAsGranted(OnFire(c, kind, up, granted))
  {
    hide ConfirmedRetriesJustified, DisconnectSinceTimeout, CompletionHeld, RetryHeld, RejectHeld, AskedFor;
    AttemptMore(c.attempts, Attempt(Fallback, granted));
  }

  lemma NoteRejectHeld(c: Context, granted: bool)
    requires HeldAsGranted(c)
    ensures HeldAsGranted(NoteReject(c, granted))
  {
    hide CompletionHeld, RetryHeld, RejectHeld, AskedFor;
    AttemptMore(c.attempts, Attempt(RejectRetry, granted));
  }

  lemma NoteDisconnectHeld(c: Context, granted: bool)
    requires HeldAsGranted(c)
    ensures HeldAsGranted(NoteDisconnect(c, granted))
  {
    hide CompletionHeld, RetryHeld, RejectHeld, AskedFor;
    AttemptMore(c.attempts, Attempt(Complete, granted));
  }

  lemma FeedDisconnectHeld(c: Context, up: Upstream, status: int, reason: int, grantedReject: bool,
                           grantedComplete: bool)
    requires HeldAsGranted(c)
    ensures HeldAsGranted(OnDisconnectEvent(c, up, status, reason, grantedReject, grantedComplete).0)
  {
    if up.hasInterface && up.driver && status == 0 {
      var c1 := c.(trace := c.trace + [DisconnectFed(reason)]);
      assert HeldAsGranted(c1);
      hide HeldAsGranted, NoteReject, NoteDisconnect;
      NoteRejectHeld(c1, grantedReject);
      NoteDisconnectHeld(if reason == TEMPORARY_REJECT then NoteReject(c1, grantedReject) else c1, grantedComplete);
    }
  }

  lemma FeedAssociateHeld(c: Context, up: Upstream, status: int, resultStatus: int, granted: bool)
    requires HeldAsGranted(c)
    ensures HeldAsGranted(OnAssociateResult(c, up, status, resultStatus, granted).0)
  {
    hide CompletionHeld, RetryHeld, RejectHeld, AskedFor;
    AttemptMore(c.attempts, Attempt(FirstTimeout, granted));
  }

  lemma NextHeld(c: Context, input: Input)
    requires Sound(c) && HeldAsGranted(c) && HasInterface(input)
    ensures HeldAsGranted(Next(c, input))
  {
    hide Sound, OnFire, OnAssociateResult, OnDisconnectEvent, CompletionHeld, RetryHeld, RejectHeld, AskedFor;
    match input
    case Fire(kind, up, granted) => FireHeld(c, kind, up, granted);
    case Disconnect(up) =>
    case FeedAssociate(up, status, resultStatus, granted) => FeedAssociateHeld(c, up, status, resultStatus, granted);
    case FeedDisconnect(up, status, reason, grantedReject, grantedComplete) =>
      FeedDisconnectHeld(c, up, status, reason, grantedReject, grantedComplete);
  }

  lemma {:induction false} RunHeld(c: Context, inputs: seq<Input>)
    requires Sound(c) && HeldAsGranted(c)
    requires forall i :: 0 <= i < |inputs| ==> HasInterface(inputs[i])
    ensures HeldAsGranted(Run(c, inputs))
    decreases |inputs|
  {
    hide Sound, HeldAsGranted, Next, HasInterface;
    if inputs != [] {
      NextSound(c, inputs[0]);
      NextHeld(c, inputs[0]);
      RunHeld(Next(c, inputs[0]), inputs[1..]);
    }
  }

  /** Over every run: at most one timer of each single-shot kind, a fallback only while a retry is
      pending and no completion is queued, every timeout answered by exactly one retry, or still pending,
      or superseded; and no retry takes a disconnect for confirmed that was not fed after the timeout. */
  lemma EveryRunSound(inputs: seq<Input>)
    ensures Sound(Run(CREATED, inputs))
  {
    assert ConfirmedRetriesJustified([]);
    RunSound(CREATED, inputs);
  }

  /** Never doubled: retries and the pending one never exceed the timeouts. */
  lemma NeverDoubled(inputs: seq<Input>)
    ensures var c := Run(CREATED, inputs);
            c.exact.cached + c.exact.scanned + (if c.retryPending then 1 else 0) <= c.exact.timeouts
  {
    EveryRunSound(inputs);
  }

  /** Over every run, whatever is refused: a pending retry has a timer if and only if a completion was
      granted since the latest timeout, or none was asked for since and that timeout's fallback was
      granted; a pending reject has its timer if and only if the latest one asked for was granted. The
      first-EAPOL timer's own registrations decide nothing. */
  lemma HeldExactly(inputs: seq<Input>)
    requires forall i :: 0 <= i < |inputs| ==> HasInterface(inputs[i])
    ensures var c := Run(CREATED, inputs);
            && (c.retryPending ==> (HasRetryTimer(c) <==> RetryHeld(c.attempts)))
            && (c.rejectPending ==> (c.Queued(RejectRetry) == 1 <==> RejectHeld(c.attempts)))
            && (!c.rejectPending ==> c.Queued(RejectRetry) == 0)
  {
    EveryRunSound(inputs);
    RunHeld(CREATED, inputs);
  }

  /** Nothing asked for on behalf of a recovery was refused. */
  predicate NoneRefused(attempts: seq<Attempt>) {
    forall i :: 0 <= i < |attempts| ==> attempts[i].kind == FirstTimeout || attempts[i].granted
  }

  lemma {:induction false} HeldIfGranted(attempts: seq<Attempt>)
    requires NoneRefused(attempts)
    ensures AskedFor(attempts, Fallback) || AskedFor(attempts, Complete) ==> RetryHeld(attempts)
    ensures AskedFor(attempts, RejectRetry) ==> RejectHeld(attempts)
  {
    if attempts != [] {
      var front := attempts[..|attempts| - 1];
      HeldIfGranted(front);
      assert attempts == front + [attempts[|attempts| - 1]];
      AttemptMore(front, attempts[|attempts| - 1]);
    }
  }

  /** Never lost: unless a registration on behalf of a recovery is refused, a pending retry has a queued
      timer, and the temporary-reject timer is queued exactly once, exactly while its flag is set. */
  lemma NeverLost(inputs: seq<Input>)
    requires forall i :: 0 <= i < |inputs| ==> HasInterface(inputs[i])
    requires NoneRefused(Run(CREATED, inputs).attempts)
    ensures var c := Run(CREATED, inputs);
            && NotLost(c)
            && (c.Queued(RejectRetry) == if c.rejectPending then 1 else 0)
  {
    hide Run, RetryHeld, RejectHeld, NoneRefused;
    EveryRunSound(inputs);
    RunHeld(CREATED, inputs);
    HeldIfGranted(Run(CREATED, inputs).attempts);
  }

  const UP := Upstream(true, true, false, true, true, true, true, false)

  /** Associate, then a timeout whose fallback is refused. */
  const REFUSED_RUN: seq<Input> := [FeedAssociate(UP, 0, 0, true), Fire(FirstTimeout, UP, false)]

  /** The disconnect that follows, and its completion. */
  const ANSWERED_RUN: seq<Input> := [FeedDisconnect(UP, 0, 1, true, true), Fire(Complete, UP, true)]

  lemma RunTwo(c: Context, a: Input, b: Input)
    ensures Run(c, [a, b]) == Next(Next(c, a), b)
  {
    hide Next;
    assert [a, b][1..] == [b] && [b][1..] == [];
    assert Run(Next(c, a), [b]) == Run(Next(Next(c, a), b), []);
  }

  /** The context after the refused fallback. */
  const REFUSED := CREATED.(retryPending := true, counters := CREATED.counters.(timeouts := 1),
                            exact := Exact(1, 0, 0, 0),
                            trace := [AssociationFed, TimedOut, Deauthenticated],
                            attempts := [Attempt(FirstTimeout, true), Attempt(Fallback, false)])

  lemma RefusedReached()
    ensures Run(CREATED, REFUSED_RUN) == REFUSED
  {
    RunTwo(CREATED, REFUSED_RUN[0], REFUSED_RUN[1]);
    hide Run;
    var fed := CREATED.(queued := Queue(1, 0, 0, 0), trace := [AssociationFed],
                        attempts := [Attempt(FirstTimeout, true)]);
    assert [] + [AssociationFed] == [AssociationFed]
        && [] + [Attempt(FirstTimeout, true)] == [Attempt(FirstTimeout, true)];
    assert Next(CREATED, REFUSED_RUN[0]) == fed;
    assert fed.trace + [TimedOut, Deauthenticated] == REFUSED.trace;
    assert fed.attempts + [Attempt(Fallback, false)] == REFUSED.attempts;
    assert Next(fed, REFUSED_RUN[1]) == REFUSED;
  }

  /** A refused fallback leaves the retry without a timer, but not for good: the disconnect event that
      follows queues its completion, which performs it. */
  lemma RefusedThenAnswered()
    ensures var refused := Run(CREATED, REFUSED_RUN);
            && refused.retryPending && !HasRetryTimer(refused)
            && HasRetryTimer(Next(refused, ANSWERED_RUN[0]))
            && var answered := Run(refused, ANSWERED_RUN);
               !answered.retryPending && answered.trace == refused.trace + [DisconnectFed(1)] + [Retried(Cached, true)]
  {
    hide Run;
    RefusedReached();
    RunTwo(REFUSED, ANSWERED_RUN[0], ANSWERED_RUN[1]);
  }

  // ----- after a disconnect -----

  predicate Quiet(c: Context) {
    !c.retryPending && !c.rejectPending && c.queued == Queue(0, 0, 0, 0)
  }

  predicate IsDriverEvent(input: Input) { input.FeedAssociate? || input.FeedDisconnect? }

  predicate IsRecovery(action: Action) { action.TimedOut? || action.Retried? || action.RejectRetried? }

  /** `longer` continues `shorter` without a recovery action. */
  ghost predicate NoRecoverySince(shorter: seq<Action>, longer: seq<Action>) {
    shorter <= longer && forall i :: |shorter| <= i < |longer| ==> !IsRecovery(longer[i])
  }

  lemma {:induction false} QuietRun(c: Context, inputs: seq<Input>)
    requires Quiet(c) && forall i :: 0 <= i < |inputs| ==> !IsDriverEvent(inputs[i])
    ensures Quiet(Run(c, inputs)) && NoRecoverySince(c.trace, Run(c, inputs).trace)
    decreases |inputs|
  {
    if inputs != [] {
      var next := Next(c, inputs[0]);
      assert Quiet(next) && NoRecoverySince(c.trace, next.trace);
      hide Next, Quiet;
      QuietRun(next, inputs[1..]);
    }
  }

  /** After `hisi_wpa_disconnect`, in any context, nothing recovers until the driver feeds an event. */
  lemma DisconnectSilences(c: Context, up: Upstream, inputs: seq<Input>)
    requires up.hasInterface && forall i :: 0 <= i < |inputs| ==> !IsDriverEvent(inputs[i])
    ensures OnDisconnect(c, up).1 == 0
    ensures NoRecoverySince(c.trace, Run(OnDisconnect(c, up).0, inputs).trace)
  {
    QuietRun(OnDisconnect(c, up).0, inputs);
  }
}
