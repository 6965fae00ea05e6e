/** What the owner of the context learns of the station: every interleaving of observations of hostap's
    state with reads of the event ring. */
module Observations {
  import opened Bytes
  import opened EventRing
  import opened Supplicant

  datatype Moment = See(seen: Seen) | Read

  /** The ring and the state observed last, from a created context on. */
  function After(life: seq<Moment>): (Ring, WpaState) {
    if life == [] then (EMPTY, InterfaceDisabled)
    else
      var (ring, observed) := After(life[..|life| - 1]);
      match life[|life| - 1]
      case See(seen) => Observed(ring, observed, seen)
      case Read => (Next(ring).0, observed)
  }

  /** The state of the last observation; the context starts from a disabled interface. */
  function LastSeen(life: seq<Moment>): WpaState {
    if life == [] then InterfaceDisabled
    else if life[|life| - 1].See? then life[|life| - 1].seen.state
    else LastSeen(life[..|life| - 1])
  }

  /** The `k`-th moment shows a state other than the one before, and not a scan. */
  predicate Changes(life: seq<Moment>, k: nat)
    requires k < |life|
  {
    life[k].See? && life[k].seen.state != LastSeen(life[..k]) && life[k].seen.state != Scanning
  }

  function ChangeCount(life: seq<Moment>): nat {
    if life == [] then 0
    else ChangeCount(life[..|life| - 1]) + if Changes(life, |life| - 1) then 1 else 0
  }

  /** The event a change to a state stands for: 1 is connecting, 2 associated, 3 connected, 4 disconnected.
      Only a disconnection carries a status, tagged with the layer that failed first: authentication,
      association or, of the disconnection's reason, its low 16 bits. */
  predicate Tells(e: Entry, seen: Seen) {
    && (e.kind == 1 <==> seen.state in {Authenticating, Associating})
    && (e.kind == 2 <==> seen.state in {Associated, FourWayHandshake, GroupHandshake})
    && (e.kind == 3 <==> seen.state == Completed)
    && (e.kind == 4 <==> seen.state in {Disconnected, InterfaceDisabled, Inactive})
    && e.timestampMs == seen.timestampMs
    && var quiet := seen.authStatus == 0 && seen.assocStatus == 0 && seen.disconnectReason == 0;
       && (e.status == 0 <==> e.kind != 4 || quiet)
       && (e.kind == 4 && !quiet ==>
             && e.status / 0x1000_0000 ==
                (if seen.authStatus != 0 then 1 else if seen.assocStatus != 0 then 2 else 3)
             && e.status % 0x1000_0000 == e.status % 0x1_0000
             && e.status % 0x1_0000 ==
                (if seen.authStatus != 0 then seen.authStatus
                 else if seen.assocStatus != 0 then seen.assocStatus
                 else seen.disconnectReason % 0x1_0000))
  }

  /** In every life an observation pushes one event exactly when it shows a change to a state other than
      scanning; the event tells that change, and it is dropped, and counted, only when seven are queued. */
  lemma {:induction false} ChangeTold(life: seq<Moment>, seen: Seen)
    ensures var (ring, observed) := After(life);
            var (next, now) := After(life + [See(seen)]);
            && observed == LastSeen(life) && now == seen.state
            && next.delivered == ring.delivered && next.reported == ring.reported
            && (seen.state in {LastSeen(life), Scanning} ==> next == ring)
            && (seen.state !in {LastSeen(life), Scanning} && |ring.queue| == 7 ==>
                  next.accepted == ring.accepted && next.rejected == ring.rejected + 1)
            && (seen.state !in {LastSeen(life), Scanning} && |ring.queue| != 7 ==>
                  && |next.accepted| == |ring.accepted| + 1 && next.accepted[..|ring.accepted|] == ring.accepted
                  && next.rejected == ring.rejected
                  && Tells(next.accepted[|ring.accepted|], seen))
  {
    LastObserved(life);
    assert (life + [See(seen)])[..|life|] == life;
  }

  lemma {:induction false} LastObserved(life: seq<Moment>)
    ensures After(life).1 == LastSeen(life)
  {
    if life != [] {
      LastObserved(life[..|life| - 1]);
    }
  }

  /** No change goes missing: in every life the events the owner has read, those still queued and those
      dropped are as many as the changes shown. */
  lemma {:induction false} EveryChangeCounted(life: seq<Moment>)
    ensures var ring := After(life).0;
            |ring.delivered| + |ring.queue| + ring.rejected == ChangeCount(life)
  {
    if life != [] {
      var front := life[..|life| - 1];
      EveryChangeCounted(front);
      LastObserved(front);
    }
  }
}
