/** The bounded event ring of the supplicant context: `push_event` and `hisi_wpa_next_event`. */
module EventRing {
  import opened Bytes

  const CAPACITY := 8

  datatype Entry = Entry(kind: Byte, status: int, timestampMs: int)

  /** What `hisi_wpa_next_event` hands out. */
  datatype Output = Ordinary(entry: Entry) | Overflow(dropped: U32)

  /** The ring as a value, with the history its promises are about. */
  datatype Ring = Ring(
    queue: seq<Entry>, dropped: U32, totalDropped: U32, maxDepth: nat,
    accepted: seq<Entry>, delivered: seq<Entry>, rejected: nat, reported: nat)

  const EMPTY := Ring([], 0, 0, 0, [], [], 0, 0)

  function Bump(n: U32): U32 { if n != U32_MAX then n + 1 else n }

  function Push(r: Ring, e: Entry): Ring {
    if |r.queue| == CAPACITY - 1 then
      r.(dropped := Bump(r.dropped), totalDropped := Bump(r.totalDropped), rejected := r.rejected + 1)
    else
      r.(queue := r.queue + [e], accepted := r.accepted + [e],
         maxDepth := if |r.queue| + 1 > r.maxDepth then |r.queue| + 1 else r.maxDepth)
  }

  function Next(r: Ring): (Ring, Option<Output>) {
    if r.dropped != 0 then (r.(dropped := 0, reported := r.reported + r.dropped), Some(Overflow(r.dropped)))
    else if r.queue == [] then (r, None)
    else (r.(queue := r.queue[1..], delivered := r.delivered + [r.queue[0]]), Some(Ordinary(r.queue[0])))
  }

  // ----- the array -----

  class EventBuffer {
    var events: array<Entry>
    var read: nat
    var write: nat
    var dropped: U32
    var totalDropped: U32
    var maxDepth: nat
    ghost var accepted: seq<Entry>
    ghost var delivered: seq<Entry>
    ghost var rejected: nat
    ghost var reported: nat

    ghost predicate Valid()
      reads this`events, this`read, this`write
    {
      events.Length == CAPACITY && read < CAPACITY && write < CAPACITY
    }

    /** `(write + capacity - read) % capacity`. */
    function Depth(): (d: nat)
      requires Valid()
      reads this`events, this`read, this`write
      ensures d < CAPACITY
    {
      (write + CAPACITY - read) % CAPACITY
    }

    ghost function Contents(): (s: seq<Entry>)
      requires Valid()
      reads this`events, this`read, this`write, events
      ensures |s| == Depth()
    {
      if read <= write then events[read..write] else events[read..] + events[..write]
    }

    ghost function View(): Ring
      requires Valid()
      reads this, events
    {
      Ring(Contents(), dropped, totalDropped, maxDepth, accepted, delivered, rejected, reported)
    }

    constructor ()
      ensures Valid() && View() == EMPTY && fresh(events)
    {
      events := new Entry[CAPACITY](_ => Entry(0, 0, 0));
      read, write, dropped, totalDropped, maxDepth := 0, 0, 0, 0, 0;
      accepted, delivered, rejected, reported := [], [], 0, 0;
    }

    /** `push_event`; the time stamp is read by the caller of the model. */
    method PushEvent(kind: Byte, status: int, timestampMs: int)
      requires Valid()
      modifies this, events
      ensures Valid() && events == old(events) && View() == Push(old(View()), Entry(kind, status, timestampMs))
    {
      var next := (write + 1) % CAPACITY;
      if next == read {
        dropped, totalDropped, rejected := Bump(dropped), Bump(totalDropped), rejected + 1;
        return;
      }
      hide Contents;
      var e := Entry(kind, status, timestampMs);
      Put(e);
      accepted := accepted + [e];
      if Depth() > maxDepth {
        maxDepth := Depth();
      }
    }

    /** `hisi_wpa_next_event`: a pending drop count comes first. */
    method NextEvent() returns (output: Option<Output>)
      requires Valid()
      modifies this
      ensures Valid() && events == old(events) && (View(), output) == Next(old(View()))
    {
      hide Contents;
      if dropped != 0 {
        output := Some(Overflow(dropped));
        dropped, reported := 0, reported + dropped;
        return;
      }
      if read == write {
        assert Depth() == 0;
        return None;
      }
      var first := Take();
      delivered := delivered + [first];
      output := Some(Ordinary(first));
    }

    /** Read the oldest entry and move past it. */
    method Take() returns (first: Entry)
      requires Valid() && read != write
      modifies this`read
      ensures Valid() && old(Contents()) != [] && first == old(Contents())[0] && Contents() == old(Contents())[1..]
    {
      first := events[read];
      ghost var before := Contents();
      if read + 1 == CAPACITY {
        read := 0;
        assert before == [first] + events[..write];
      } else {
        read := read + 1;
        assert events[read - 1..][1..] == events[read..];
      }
    }

    /** Store an entry behind the newest one. */
    method Put(e: Entry)
      requires Valid() && (write + 1) % CAPACITY != read
      modifies this`write, events
      ensures Valid() && Contents() == old(Contents()) + [e]
    {
      ghost var before := Contents();
      events[write] := e;
      if write + 1 == CAPACITY {
        write := 0;
        assert events[read..] == before + [e];
      } else {
        write := write + 1;
        if read < write {
          assert events[read..write] == before + [e];
        } else {
          assert events[read..] + events[..write - 1] == before;
          assert events[..write] == events[..write - 1] + [e];
        }
      }
    }
  }

  // ----- every interleaving -----

  datatype Op = DoPush(entry: Entry) | DoNext

  function Step(r: Ring, op: Op): Ring {
    match op
    case DoPush(entry) => Push(r, entry)
    case DoNext => Next(r).0
  }

  function Run(ops: seq<Op>): Ring {
    if ops == [] then EMPTY else Step(Run(ops[..|ops| - 1]), ops[|ops| - 1])
  }

  /** The deepest the ring has been after any prefix of the run. */
  function Peak(ops: seq<Op>): nat {
    if ops == [] then 0
    else
      var before, depth := Peak(ops[..|ops| - 1]), |Run(ops).queue|;
      if depth > before then depth else before
  }

  function Capped(n: nat): U32 { if n < U32_MAX then n else U32_MAX }

  /** Accepted events are exactly those delivered and those still queued, in push order; the depth never
      exceeds seven and its running maximum is recorded; the total is the number of rejected pushes up to
      saturation, and below it the reported and the pending drop counts add up to it. */
  lemma {:induction false} NothingLostSilently(ops: seq<Op>)
    ensures var r := Run(ops);
            && r.accepted == r.delivered + r.queue
            && |r.queue| <= 7 && r.maxDepth == Peak(ops)
            && r.totalDropped == Capped(r.rejected)
            && (r.rejected <= U32_MAX ==> r.reported + r.dropped == r.rejected == r.totalDropped)
            && r.reported + r.dropped <= r.rejected
  {
    if ops != [] {
      var before, op := Run(ops[..|ops| - 1]), ops[|ops| - 1];
      NothingLostSilently(ops[..|ops| - 1]);
      match op
      case DoPush(entry) => assert before.delivered + (before.queue + [entry]) ==
          before.delivered + before.queue + [entry];
      case DoNext =>
        if before.dropped == 0 && before.queue != [] {
          assert before.delivered + before.queue == before.delivered + [before.queue[0]] + before.queue[1..];
        }
    }
  }

  /** The pushes of a run, in order, with the verdict the ring gave: an event is accepted exactly when
      fewer than seven are queued at that moment. */
  lemma {:induction false} AcceptedInPushOrder(ops: seq<Op>)
    ensures Run(ops).accepted == AcceptedOf(ops) && Run(ops).rejected + |Run(ops).accepted| == PushCount(ops)
  {
    if ops != [] {
      AcceptedInPushOrder(ops[..|ops| - 1]);
      NothingLostSilently(ops[..|ops| - 1]);
    }
  }

  function AcceptedOf(ops: seq<Op>): seq<Entry> {
    if ops == [] then []
    else
      var front, op := ops[..|ops| - 1], ops[|ops| - 1];
      AcceptedOf(front) + if op.DoPush? && |Run(front).queue| < 7 then [op.entry] else []
  }

  /** What a read hands out in any run, below 2^32 rejections: the number of rejections not yet reported, if
      there is one; otherwise the oldest accepted event not yet delivered; nothing if there is neither. */
  lemma OldestOrDropped(ops: seq<Op>)
    requires Run(ops).rejected <= U32_MAX
    ensures var r := Run(ops);
            var (next, output) := Next(r);
            && (r.rejected > r.reported ==>
                  output == Some(Overflow(r.rejected - r.reported))
                  && next.reported == r.rejected && next.delivered == r.delivered)
            && (r.rejected == r.reported && |r.accepted| > |r.delivered| ==>
                  var oldest := r.accepted[|r.delivered|];
                  output == Some(Ordinary(oldest)) && next.delivered == r.delivered + [oldest])
            && (output == None <==> r.rejected == r.reported && r.accepted == r.delivered)
            && next.accepted == r.accepted && next.rejected == r.rejected
  {
    NothingLostSilently(ops);
  }

  function PushCount(ops: seq<Op>): nat {
    if ops == [] then 0 else PushCount(ops[..|ops| - 1]) + if ops[|ops| - 1].DoPush? then 1 else 0
  }
}
