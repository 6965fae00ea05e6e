/** What every run of the recovery protocols does, read off its inputs: each action of the trace follows from the
    input that made it, retries go by the cached entry exactly when there is one to reuse, and every diagnostic
    counter is the saturated number of its occasions. */
module RecoveryPaths {
  import opened Bytes
  import opened Recovery

  /** A network with a set BSSID, and an entry known for it. */
  predicate HasEntry(up: Upstream) { up.network && up.bssidSet && up.bssKnown }

  /** The driver is there, and disconnected by itself. */
  predicate LocallyDown(up: Upstream) { up.driver && up.locallyDisconnected }

  /** The loop fires a timer of this kind, for a context that has its interface. */
  predicate Fires(c: Context, input: Input, kind: Kind) {
    input.Fire? && input.kind == kind && input.up.hasInterface && match kind
                                                                  case FirstTimeout => c.queued.firstTimeout > 0
                                                                  case Fallback => c.queued.fallback > 0
                                                                  case Complete => c.queued.complete > 0
                                                                  case RejectRetry => c.queued.rejectRetry > 0
  }

  function PathBy(reuse: bool): Path { if reuse then Cached else Scan }

  /** A disconnect of the driver that the driver layer takes. */
  predicate Takes(input: Input) {
    input.FeedDisconnect? && input.up.hasInterface && input.up.driver && input.status == 0
  }

  /** The actions of one input. */
  function ActionsOf(c: Context, input: Input): seq<Action> {
    if Fires(c, input, FirstTimeout) && input.up.associated && !input.up.eapolSeen then [TimedOut, Deauthenticated]
    else if Fires(c, input, Fallback) && c.retryPending
    then [Retried(PathBy(HasEntry(input.up) && LocallyDown(input.up)), false)]
    else if Fires(c, input, Complete) && c.retryPending then [Retried(PathBy(HasEntry(input.up)), true)]
    else if Fires(c, input, RejectRetry) && c.rejectPending then [RejectRetried(PathBy(HasEntry(input.up)))]
    else if input.Disconnect? && input.up.hasInterface then [Deauthenticated]
    else if input.FeedAssociate? && input.up.hasInterface && input.up.driver then [AssociationFed]
    else if Takes(input) then [DisconnectFed(input.reason)]
    else []
  }

  predicate IsRetry(action: Action) { action.Retried? || action.RejectRetried? }

  lemma TimeoutActs(c: Context, input: Input)
    requires input.Fire? && input.kind in {FirstTimeout, RejectRetry}
    ensures Next(c, input).trace == c.trace + ActionsOf(c, input)
  {
  }

  lemma RetryActs(c: Context, input: Input)
    requires input.Fire? && input.kind in {Fallback, Complete}
    ensures Next(c, input).trace == c.trace + ActionsOf(c, input)
  {
  }

  lemma FedActs(c: Context, input: Input)
    requires input.Disconnect? || input.FeedAssociate?
    ensures Next(c, input).trace == c.trace + ActionsOf(c, input)
  {
  }

  lemma DisconnectedActs(c: Context, reason: int, grantedReject: bool, grantedComplete: bool)
    ensures OnDisconnected(c, reason, grantedReject, grantedComplete).0.trace == c.trace + [DisconnectFed(reason)]
  {
  }

  lemma DisconnectActs(c: Context, input: Input)
    requires input.FeedDisconnect?
    ensures Next(c, input).trace == c.trace + ActionsOf(c, input)
  {
    hide OnDisconnected;
    DisconnectedActs(c, input.reason, input.grantedReject, input.grantedComplete);
  }

  /** Each input adds exactly these actions. */
  lemma StepActs(c: Context, input: Input)
    ensures Next(c, input).trace == c.trace + ActionsOf(c, input)
  {
    hide Next, ActionsOf;
    match input
    case Fire(FirstTimeout, _, _) => TimeoutActs(c, input);
    case Fire(Fallback, _, _) => RetryActs(c, input);
    case Fire(Complete, _, _) => RetryActs(c, input);
    case Fire(RejectRetry, _, _) => TimeoutActs(c, input);
    case FeedDisconnect(_, _, _, _, _) => DisconnectActs(c, input);
    case _ => FedActs(c, input);
  }

  predicate MakesRetry(c: Context, input: Input) { ActionsOf(c, input) != [] && IsRetry(ActionsOf(c, input)[0]) }

  /** The upstream's reassociation flag is set by the retries and by nothing else. */
  lemma ReassociateExact(c: Context, input: Input)
    ensures Next(c, input).reassociate <==> c.reassociate || MakesRetry(c, input)
  {
    hide Next, MakesRetry;
    match input
    case Fire(_, _, _) => FiredFlag(c, input);
    case FeedDisconnect(_, _, _, _, _) => DisconnectedFlag(c, input);
    case _ => CalledFlag(c, input);
  }

  lemma FiredFlag(c: Context, input: Input)
    requires input.Fire?
    ensures Next(c, input).reassociate <==> c.reassociate || MakesRetry(c, input)
  {
    var taken := c.WithQueued(input.kind, if c.Queued(input.kind) > 0 then c.Queued(input.kind) - 1 else 0);
    match input.kind
    case FirstTimeout => assert OnFirstTimeout(taken, input.up, input.granted).reassociate == c.reassociate;
    case _ =>
  }

  lemma CalledFlag(c: Context, input: Input)
    requires input.Disconnect? || input.FeedAssociate?
    ensures Next(c, input).reassociate == c.reassociate && !MakesRetry(c, input)
  {
  }

  lemma DisconnectedFlag(c: Context, input: Input)
    requires input.FeedDisconnect?
    ensures Next(c, input).reassociate == c.reassociate && !MakesRetry(c, input)
  {
  }

  // ----- over every run -----

  /** The action is one this input makes, by its kind and by what was read from upstream when it came. */
  predicate Justified(action: Action, input: Input) {
    match action
    case TimedOut => IsFire(input, FirstTimeout) && input.up.associated && !input.up.eapolSeen
    case Deauthenticated =>
      || (input.Disconnect? && input.up.hasInterface)
      || (IsFire(input, FirstTimeout) && input.up.associated && !input.up.eapolSeen)
    case Retried(path, confirmed) =>
      && IsFire(input, if confirmed then Complete else Fallback)
      && (path == Cached <==> HasEntry(input.up) && (confirmed || LocallyDown(input.up)))
    case RejectRetried(path) => IsFire(input, RejectRetry) && (path == Cached <==> HasEntry(input.up))
    case DisconnectFed(reason) => Takes(input) && input.reason == reason
    case AssociationFed => input.FeedAssociate? && input.up.hasInterface && input.up.driver
  }

  predicate IsFire(input: Input, kind: Kind) { input.Fire? && input.kind == kind && input.up.hasInterface }

  lemma ActionsJustified(c: Context, input: Input)
    ensures forall i :: 0 <= i < |ActionsOf(c, input)| ==> Justified(ActionsOf(c, input)[i], input)
  {
  }

  /** How long the trace is after the first `k` inputs. */
  function LengthAfter(c: Context, inputs: seq<Input>, k: nat): nat
    requires k <= |inputs|
  {
    |Run(c, inputs[..k]).trace|
  }

  /** The `k`-th input made the action at `i`. */
  predicate MadeBy(c: Context, inputs: seq<Input>, k: int, i: int) {
    0 <= k < |inputs| && LengthAfter(c, inputs, k) <= i < LengthAfter(c, inputs, k + 1)
  }

  /** The trace grows by each input's own actions: what stands between two such lengths is that input's. */
  ghost predicate AllJustified(c: Context, inputs: seq<Input>) {
    && c.trace <= Run(c, inputs).trace && LengthAfter(c, inputs, |inputs|) == |Run(c, inputs).trace|
    && forall k, i :: MadeBy(c, inputs, k, i) ==>
         0 <= i < |Run(c, inputs).trace| && Justified(Run(c, inputs).trace[i], inputs[k])
  }

  lemma LengthCons(c: Context, inputs: seq<Input>, k: nat)
    requires inputs != [] && k < |inputs|
    ensures LengthAfter(c, inputs, k + 1) == LengthAfter(Next(c, inputs[0]), inputs[1..], k)
    ensures LengthAfter(c, inputs, 0) == |c.trace|
  {
    hide Next;
    assert inputs[..k + 1][0] == inputs[0] && inputs[..k + 1][1..] == inputs[1..][..k];
    assert inputs[..0] == [];
  }

  lemma {:induction false} RunJustified(c: Context, inputs: seq<Input>)
    ensures AllJustified(c, inputs)
    decreases |inputs|
  {
    hide Next, Justified, LengthAfter, ActionsOf;
    if inputs == [] {
      assert LengthAfter(c, inputs, 0) == |Run(c, inputs).trace| by { NoInputs(c); }
    } else {
      var next, rest := Next(c, inputs[0]), inputs[1..];
      StepActs(c, inputs[0]);
      ActionsJustified(c, inputs[0]);
      RunJustified(next, rest);
      var trace := Run(c, inputs).trace;
      assert trace == Run(next, rest).trace;
      LengthCons(c, inputs, |rest|);
      forall k, i | MadeBy(c, inputs, k, i)
        ensures 0 <= i < |trace| && Justified(trace[i], inputs[k])
      {
        LengthCons(c, inputs, k);
        if k == 0 {
          NextLength(c, inputs);
          assert trace[i] == next.trace[i] == ActionsOf(c, inputs[0])[i - |c.trace|];
        } else {
          LengthCons(c, inputs, k - 1);
          assert inputs[k] == rest[k - 1] && MadeBy(next, rest, k - 1, i);
        }
      }
    }
  }

  lemma NoInputs(c: Context)
    ensures LengthAfter(c, [], 0) == |c.trace| && Run(c, []) == c
  {
    var none: seq<Input> := [];
    assert none[..0] == none;
  }

  lemma NextLength(c: Context, inputs: seq<Input>)
    requires inputs != []
    ensures LengthAfter(c, inputs, 1) == |Next(c, inputs[0]).trace|
  {
    hide Next;
    assert inputs[..1][1..] == [] && inputs[..1][0] == inputs[0];
    assert Run(Next(c, inputs[0]), []) == Next(c, inputs[0]);
  }

  /** Over every run, each action of the trace was made by one input and is justified by it: a reject retry goes by
      the cached entry if and only if the callback that made it found a network with a set BSSID and a known entry,
      a first-EAPOL retry if and only if, in addition, the disconnect was confirmed or the driver was locally
      disconnected. So no association is asked for without an entry, and no scan while one can be reused. */
  lemma EveryAction(inputs: seq<Input>, i: nat) returns (k: nat)
    requires i < |Run(CREATED, inputs).trace|
    ensures MadeBy(CREATED, inputs, k, i)
    ensures Justified(Run(CREATED, inputs).trace[i], inputs[k])
  {
    hide Justified, Run;
    RunJustified(CREATED, inputs);
    k := 0;
    StartsEmpty(inputs);
    while LengthAfter(CREATED, inputs, k + 1) <= i
      invariant k < |inputs| && LengthAfter(CREATED, inputs, k) <= i
      decreases |inputs| - k
    {
      k := k + 1;
    }
    assert MadeBy(CREATED, inputs, k, i);
  }

  lemma StartsEmpty(inputs: seq<Input>)
    ensures LengthAfter(CREATED, inputs, 0) == 0
    ensures inputs == [] ==> Run(CREATED, inputs).trace == []
  {
    assert inputs[..0] == [];
  }

  // ----- the counters -----

  /** How often each counter had occasion to grow. */
  datatype Occasions = Occasions(
    timeouts: nat, disconnectEvents: nat, fallbacks: nat, localDisconnects: nat, cached: nat, scanned: nat,
    rejects: nat, rejectCached: nat, rejectScanned: nat)
  {
    function Plus(that: Occasions): Occasions {
      Occasions(timeouts + that.timeouts, disconnectEvents + that.disconnectEvents, fallbacks + that.fallbacks,
                localDisconnects + that.localDisconnects, cached + that.cached, scanned + that.scanned,
                rejects + that.rejects, rejectCached + that.rejectCached, rejectScanned + that.rejectScanned)
    }
  }

  const NEVER := Occasions(0, 0, 0, 0, 0, 0, 0, 0, 0)

  function One(occasion: bool): nat { if occasion then 1 else 0 }

  /** The occasions of one input. */
  function OccasionsOf(c: Context, input: Input): Occasions {
    var acts := ActionsOf(c, input);
    Occasions(
      One(acts != [] && acts[0].TimedOut?),
      One(Takes(input) && c.retryPending && (input.reason != 8030 || input.grantedReject)),
      One(input.Fire? && input.kind == Fallback && c.queued.fallback > 0),
      One(Fires(c, input, Fallback) && c.retryPending && LocallyDown(input.up)),
      One(acts != [] && acts[0].Retried? && acts[0].path == Cached),
          One(acts != [] && acts[0].Retried? && acts[0].path == Scan),
      One(Takes(input) && input.reason == 8030),
      One(acts != [] && acts[0] == RejectRetried(Cached)), One(acts != [] && acts[0] == RejectRetried(Scan)))
  }

  function AllOccasions(c: Context, inputs: seq<Input>): Occasions
    decreases |inputs|
  {
    if inputs == [] then NEVER else OccasionsOf(c, inputs[0]).Plus(AllOccasions(Next(c, inputs[0]), inputs[1..]))
  }

  /** A counter of eight bits that stops at its largest value. */
  function Shown(n: nat): Byte { if n <= 255 then n else 255 }

  predicate Shows(counters: Counters, n: Occasions) {
    && counters.timeouts == Shown(n.timeouts) && counters.disconnectEvents == Shown(n.disconnectEvents)
    && counters.fallbacks == Shown(n.fallbacks) && counters.localDisconnects == Shown(n.localDisconnects)
    && counters.cached == Shown(n.cached) && counters.scanned == Shown(n.scanned)
    && counters.rejects == Shown(n.rejects) && counters.rejectCached == Shown(n.rejectCached)
    && counters.rejectScanned == Shown(n.rejectScanned)
  }

  lemma TimeoutCounter(c: Context, up: Upstream, granted: bool)
    ensures OnFirstTimeout(c, up, granted).counters ==
            if up.hasInterface && up.associated && !up.eapolSeen
            then c.counters.(timeouts := Increment(c.counters.timeouts)) else c.counters
  {
  }

  lemma TimeoutCounts(c: Context, input: Input, n: Occasions)
    requires Shows(c.counters, n) && input.Fire? && input.kind == FirstTimeout
    ensures Shows(Next(c, input).counters, n.Plus(OccasionsOf(c, input)))
  {
    hide OnFirstTimeout;
    TimeoutCounter(c.WithQueued(FirstTimeout, if c.Queued(FirstTimeout) > 0 then c.Queued(FirstTimeout) - 1 else 0),
                   input.up, input.granted);
  }

  /** The counters of a retry. */
  lemma RetryCounter(c: Context, up: Upstream, confirmed: bool)
    ensures var down := LocallyDown(up);
            var reuse := (confirmed || down) && up.network && up.bssidSet && up.bssKnown;
            var local := if !confirmed && down then Increment(c.counters.localDisconnects)
                         else c.counters.localDisconnects;
            ScheduleRetry(c, up, confirmed).counters ==
            if !up.hasInterface || !c.retryPending then c.counters
            else if reuse then c.counters.(localDisconnects := local, cached := Increment(c.counters.cached))
            else c.counters.(localDisconnects := local, scanned := Increment(c.counters.scanned))
  {
  }

  lemma FallbackCounts(c: Context, input: Input, n: Occasions)
    requires Shows(c.counters, n) && input.Fire? && input.kind == Fallback
    ensures Shows(Next(c, input).counters, n.Plus(OccasionsOf(c, input)))
  {
    hide ScheduleRetry;
    var taken := c.WithQueued(Fallback, if c.queued.fallback > 0 then c.queued.fallback - 1 else 0);
    RetryCounter(FallbackNoted(taken), input.up, false);
  }

  lemma CompleteCounts(c: Context, input: Input, n: Occasions)
    requires Shows(c.counters, n) && input.Fire? && input.kind == Complete
    ensures Shows(Next(c, input).counters, n.Plus(OccasionsOf(c, input)))
  {
    hide ScheduleRetry;
    var taken := c.WithQueued(Complete, if c.queued.complete > 0 then c.queued.complete - 1 else 0);
    RetryCounter(taken, input.up, true);
  }

  /** The counters of a reject retry. */
  lemma RejectCounter(c: Context, up: Upstream)
    ensures OnRejectRetry(c, up).counters ==
            if !up.hasInterface || !c.rejectPending then c.counters
            else if up.network && up.bssidSet && up.bssKnown
            then c.counters.(rejectCached := Increment(c.counters.rejectCached))
            else c.counters.(rejectScanned := Increment(c.counters.rejectScanned))
  {
  }

  lemma RejectCounts(c: Context, input: Input, n: Occasions)
    requires Shows(c.counters, n) && input.Fire? && input.kind == RejectRetry
    ensures Shows(Next(c, input).counters, n.Plus(OccasionsOf(c, input)))
  {
    hide OnRejectRetry;
    RejectCounter(c.WithQueued(RejectRetry, if c.queued.rejectRetry > 0 then c.queued.rejectRetry - 1 else 0),
                  input.up);
  }

  lemma CallCounts(c: Context, input: Input, n: Occasions)
    requires Shows(c.counters, n) && (input.Disconnect? || input.FeedAssociate?)
    ensures Shows(Next(c, input).counters, n.Plus(OccasionsOf(c, input)))
  {
    CallCounters(c, input);
    hide Next;
  }

  /** The owner's disconnect and an association leave the counters. */
  lemma CallCounters(c: Context, input: Input)
    requires input.Disconnect? || input.FeedAssociate?
    ensures Next(c, input).counters == c.counters
  {
  }

  /** The two counters of a disconnect. */
  lemma DisconnectCounter(c: Context, reason: int, grantedReject: bool, grantedComplete: bool)
    ensures var rejects := if reason == 8030 then Increment(c.counters.rejects) else c.counters.rejects;
            var events := if c.retryPending && (reason != 8030 || grantedReject)
                          then Increment(c.counters.disconnectEvents) else c.counters.disconnectEvents;
            OnDisconnected(c, reason, grantedReject, grantedComplete).0.counters ==
            c.counters.(rejects := rejects, disconnectEvents := events)
  {
  }

  lemma DisconnectCounts(c: Context, input: Input, n: Occasions)
    requires Shows(c.counters, n) && input.FeedDisconnect?
    ensures Shows(Next(c, input).counters, n.Plus(OccasionsOf(c, input)))
  {
    hide OnDisconnected;
    DisconnectCounter(c, input.reason, input.grantedReject, input.grantedComplete);
  }

  lemma StepCounts(c: Context, input: Input, n: Occasions)
    requires Shows(c.counters, n)
    ensures Shows(Next(c, input).counters, n.Plus(OccasionsOf(c, input)))
  {
    hide Shows, Next, OccasionsOf;
    match input
    case Fire(kind, up, granted) =>
      match kind {
        case FirstTimeout => TimeoutCounts(c, input, n);
        case Fallback => FallbackCounts(c, input, n);
        case Complete => CompleteCounts(c, input, n);
        case RejectRetry => RejectCounts(c, input, n);
      }
    case Disconnect(up) => CallCounts(c, input, n);
    case FeedAssociate(up, status, resultStatus, granted) => CallCounts(c, input, n);
    case FeedDisconnect(up, status, reason, grantedReject, grantedComplete) => DisconnectCounts(c, input, n);
  }

  lemma PlusAssociates(a: Occasions, b: Occasions, c: Occasions)
    ensures a.Plus(b).Plus(c) == a.Plus(b.Plus(c))
  {
  }

  lemma {:induction false} RunCounters(c: Context, inputs: seq<Input>, n: Occasions)
    requires Shows(c.counters, n)
    ensures Shows(Run(c, inputs).counters, n.Plus(AllOccasions(c, inputs)))
    decreases |inputs|
  {
    hide Next, OccasionsOf, Shows;
    if inputs == [] {
      assert n.Plus(NEVER) == n;
    } else {
      var first := OccasionsOf(c, inputs[0]);
      StepCounts(c, inputs[0], n);
      RunCounters(Next(c, inputs[0]), inputs[1..], n.Plus(first));
      PlusAssociates(n, first, AllOccasions(Next(c, inputs[0]), inputs[1..]));
    }
  }

  /** Over every run, each counter shows how often it had occasion to grow, up to 255. */
  lemma CountersExact(inputs: seq<Input>)
    ensures Shows(Run(CREATED, inputs).counters, AllOccasions(CREATED, inputs))
  {
    hide Run, AllOccasions;
    RunCounters(CREATED, inputs, NEVER);
    assert NEVER.Plus(AllOccasions(CREATED, inputs)) == AllOccasions(CREATED, inputs);
  }

  /** What the calls return. */
  lemma Codes(c: Context, up: Upstream, status: int, resultStatus: int, reason: int, first: bool, second: bool)
    ensures OnDisconnect(c, up).1 == if up.hasInterface then 0 else -1
    ensures OnAssociateResult(c, up, status, resultStatus, first).1 == if up.hasInterface
            && up.driver then status else -1
    ensures OnDisconnectEvent(c, up, status, reason, first, second).1 ==
            if !up.hasInterface || !up.driver then -1
            else if status != 0 then status
            else if (reason == 8030 && !first) || (c.retryPending && !second) then -1
            else 0
  {
  }
}
