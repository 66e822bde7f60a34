/** The e1000 driver and its NIC around two descriptor rings in shared memory.

    Receive: the NIC fills descriptors from RDH up to, not including, RDT; the driver
    takes them at `rxHead` and hands each back by moving RDT onto it.  Transmit: the
    driver fills the descriptor at `txTail` and moves TDT past it; the NIC sends
    descriptors from TDH up to, not including, TDT and writes DD back.  The NIC's rules
    are those of sections 3.2.6 and 3.4 of the Intel PCI/PCI-X Family of Gigabit
    Ethernet Controllers Software Developer's Manual. */
module Rings {
  import opened Common

  const NDESC: nat := 16
  const BUF_SIZE: nat := 2048

  type Frame = seq<byte>

  /** A descriptor's slot `k` places after slot `i`. */
  function At(i: nat, k: nat): (s: nat)
    ensures s < NDESC
  {
    (i + k) % NDESC
  }

  /** How many slots lie from `a` up to `b`, going round. */
  function Dist(a: nat, b: nat): (d: nat)
    requires a < NDESC && b < NDESC
    ensures d < NDESC && At(a, d) == b
  {
    if a <= b then b - a else b + NDESC - a
  }

  lemma AtDist(a: nat, k: nat)
    requires a < NDESC && k < NDESC
    ensures Dist(a, At(a, k)) == k
  {
  }

  lemma AfterOne(a: nat, k: nat)
    requires a < NDESC && k < NDESC
    ensures At(a, 0) == a && At(At(a, 1), k) == At(a, k + 1)
    ensures At(At(a, 1), k) == a <==> k == NDESC - 1
  {
  }

  lemma DistAfterOne(a: nat, b: nat)
    requires a < NDESC && b < NDESC
    ensures Dist(a, b) == 0 <==> a == b
    ensures a != b ==> Dist(At(a, 1), b) == Dist(a, b) - 1
    ensures Dist(a, At(b, 1)) == if Dist(a, b) == NDESC - 1 then 0 else Dist(a, b) + 1
  {
  }

  predicate Done(status: byte) {
    status % 2 == 1
  }
}

/** Receiving. */
module Receive {
  import opened Common
  import opened Rings

  datatype Desc = Desc(status: byte, len: nat)

  datatype Rx = Rx(descs: seq<Desc>, bufs: seq<seq<byte>>, rdh: nat, rdt: nat, head: nat)

  /** The ring as the driver's start-up leaves it: every status clear, RDH at slot 0
      and RDT at the last slot. */
  ghost predicate Start(s: Rx) {
    && |s.descs| == NDESC && |s.bufs| == NDESC
    && (forall i :: 0 <= i < NDESC ==> s.descs[i].status == 0 && |s.bufs[i]| == BUF_SIZE)
    && s.rdh == 0 && s.rdt == NDESC - 1 && s.head == 0
  }

  ghost predicate Shape(s: Rx) {
    && |s.descs| == NDESC && |s.bufs| == NDESC
    && s.rdh < NDESC && s.rdt < NDESC && s.head < NDESC
    && forall i :: 0 <= i < NDESC ==> |s.bufs[i]| == BUF_SIZE
  }

  // ---------- the two parties ----------

  /** The NIC stores one frame (at most a buffer's worth; long packets are off), or
      drops it when it owns no descriptor.  `status` is what it writes back: any byte
      with DD set. */
  ghost function NicStep(s: Rx, f: Frame, status: byte): Rx
    requires Shape(s) && |f| <= BUF_SIZE
  {
    if s.rdh == s.rdt then s
    else s.(descs := s.descs[s.rdh := Desc(status, |f|)],
            bufs := s.bufs[s.rdh := f + s.bufs[s.rdh][|f|..]],
            rdh := At(s.rdh, 1))
  }

  /** The driver's poll. */
  ghost function PollStep(s: Rx): (Rx, Option<Frame>)
    requires Shape(s)
  {
    var d := s.descs[s.head];
    if !Done(d.status) then (s, None)
    else
      (s.(descs := s.descs[s.head := d.(status := 0)], rdt := s.head, head := At(s.head, 1)),
       Some(s.bufs[s.head][..Min(d.len, BUF_SIZE)]))
  }

  // ---------- what the ring holds ----------

  ghost function Waiting(s: Rx): nat
    requires Shape(s)
  {
    Dist(s.head, s.rdh)
  }

  ghost function FrameAt(s: Rx, i: nat): Frame
    requires Shape(s) && i < NDESC
  {
    s.bufs[i][..Min(s.descs[i].len, BUF_SIZE)]
  }

  /** The frames between the driver's head and RDH, oldest first. */
  ghost function Pending(s: Rx): (p: seq<Frame>)
    requires Shape(s)
    ensures |p| == Waiting(s)
  {
    seq(Waiting(s), k requires 0 <= k < Waiting(s) => FrameAt(s, At(s.head, k)))
  }

  /** RDT is one behind the head, and the slots from the head up to RDH are exactly the
      ones with DD set. */
  ghost predicate RingOk(s: Rx) {
    && Shape(s)
    && At(s.rdt, 1) == s.head
    && forall k :: 0 <= k < NDESC ==> (Done(s.descs[At(s.head, k)].status) <==> k < Waiting(s))
  }

  // ---------- every interleaving ----------

  datatype Event = Arrive(frame: Frame, status: byte) | Poll

  /** `accepted`: the frames the NIC stored; `polled`: the frames the driver returned. */
  datatype Run = Run(ring: Rx, accepted: seq<Frame>, polled: seq<Frame>)

  ghost predicate Enabled(e: Event) {
    e.Arrive? ==> |e.frame| <= BUF_SIZE && Done(e.status)
  }

  ghost predicate Refuses(r: Run) {
    r.ring.rdh == r.ring.rdt
  }

  ghost function Step(r: Run, e: Event): Run
    requires Shape(r.ring) && Enabled(e)
  {
    match e
    case Arrive(f, status) =>
      Run(NicStep(r.ring, f, status), if Refuses(r) then r.accepted else r.accepted + [f], r.polled)
    case Poll =>
      var (s, out) := PollStep(r.ring);
      Run(s, r.accepted, if out.Some? then r.polled + [out.value] else r.polled)
  }

  ghost predicate Inv(r: Run) {
    RingOk(r.ring) && r.accepted == r.polled + Pending(r.ring)
  }

  lemma SameSlot(a: nat, j: nat, k: nat)
    requires a < NDESC && j < NDESC && k < NDESC && At(a, j) == At(a, k)
    ensures j == k
  {
  }

  lemma FullMeansAllButOne(s: Rx)
    requires RingOk(s)
    ensures s.rdh == s.rdt <==> Waiting(s) == NDESC - 1
  {
  }

  lemma ArriveKeeps(r: Run, f: Frame, status: byte)
    requires Inv(r) && |f| <= BUF_SIZE && Done(status)
    ensures Inv(Step(r, Arrive(f, status)))
  {
    var s := r.ring;
    FullMeansAllButOne(s);
    hide At, Dist;
    if s.rdh != s.rdt {
      var t := NicStep(s, f, status);
      var w := Waiting(s);
      DistAfterOne(s.head, s.rdh);
      assert Waiting(t) == w + 1;
      forall k | 0 <= k < NDESC && k != w
        ensures t.descs[At(t.head, k)] == s.descs[At(s.head, k)] && t.bufs[At(t.head, k)] == s.bufs[At(s.head, k)]
      {
        if At(s.head, k) == s.rdh {
          SameSlot(s.head, k, w);
        }
      }
      assert Pending(t) == Pending(s) + [f];
    }
  }

  lemma TakenSlots(s: Rx)
    requires RingOk(s) && 0 < Waiting(s)
    ensures var t := PollStep(s).0;
            && Shape(t) && Waiting(t) == Waiting(s) - 1
            && (forall k :: 0 <= k < NDESC - 1 ==> At(t.head, k) == At(s.head, k + 1) && At(t.head, k) != s.head)
            && At(t.head, NDESC - 1) == s.head
  {
    hide At, Dist;
    AfterOne(s.head, 0);
    assert Done(s.descs[At(s.head, 0)].status);
    DistAfterOne(s.head, s.rdh);
    forall k | 0 <= k < NDESC
      ensures At(At(s.head, 1), k) == At(s.head, k + 1) && (At(At(s.head, 1), k) == s.head <==> k == NDESC - 1)
    {
      AfterOne(s.head, k);
    }
  }

  lemma PollKeepsRing(s: Rx)
    requires RingOk(s) && 0 < Waiting(s)
    ensures RingOk(PollStep(s).0)
  {
    TakenSlots(s);
    assert Done(s.descs[At(s.head, 0)].status);
    hide At, Dist;
    var t := PollStep(s).0;
    forall k | 0 <= k < NDESC
      ensures Done(t.descs[At(t.head, k)].status) <==> k < Waiting(t)
    {
      if k < NDESC - 1 {
        assert t.descs[At(t.head, k)] == s.descs[At(s.head, k + 1)];
      }
    }
  }

  lemma PollKeeps(r: Run)
    requires Inv(r)
    ensures Inv(Step(r, Poll))
    ensures PollStep(r.ring).1.Some? <==> 0 < Waiting(r.ring)
  {
    var s := r.ring;
    var (t, out) := PollStep(s);
    assert At(s.head, 0) == s.head;
    assert Done(s.descs[At(s.head, 0)].status) <==> 0 < Waiting(s);
    if out.Some? {
      TakenSlots(s);
      PollKeepsRing(s);
      assert Pending(s) == [out.value] + Pending(t);
    }
  }

  lemma StepKeeps(r: Run, e: Event)
    requires Inv(r) && Enabled(e)
    ensures Inv(Step(r, e))
  {
    match e {
      case Arrive(f, status) => ArriveKeeps(r, f, status);
      case Poll => PollKeeps(r);
    }
  }

  ghost predicate Reaches(r: Run, es: seq<Event>, q: Run)
    decreases |es|
  {
    if es == [] then q == r
    else Shape(r.ring) && Enabled(es[0]) && Reaches(Step(r, es[0]), es[1..], q)
  }

  lemma {:induction false} RunKeeps(r: Run, es: seq<Event>, q: Run)
    requires Inv(r) && Reaches(r, es, q)
    ensures Inv(q)
    decreases |es|
  {
    if es != [] {
      StepKeeps(r, es[0]);
      hide Inv, Step;
      RunKeeps(Step(r, es[0]), es[1..], q);
    }
  }

  /** Over every interleaving of arrivals and polls: RDT stays one behind the head, the
      DD slots are exactly those from the head up to RDH, frames come out in arrival
      order with none lost or repeated, and the NIC turns a frame away exactly when
      NDESC - 1 frames wait. */
  lemma EveryRun(s: Rx, es: seq<Event>, q: Run)
    requires Start(s) && Reaches(Run(s, [], []), es, q)
    ensures RingOk(q.ring)
    ensures q.accepted == q.polled + Pending(q.ring)
    ensures Refuses(q) <==> |Pending(q.ring)| == NDESC - 1
    ensures PollStep(q.ring).1 == if Pending(q.ring) == [] then None else Some(Pending(q.ring)[0])
  {
    assert Pending(s) == [];
    RunKeeps(Run(s, [], []), es, q);
    FullMeansAllButOne(q.ring);
    PollKeeps(q);
    assert At(q.ring.head, 0) == q.ring.head;
  }
}

/** Sending. */
module Transmit {
  import opened Common
  import opened Rings

  /** Command bits: end of packet, insert checksum, report status. */
  const CMD: byte := 0x0B

  datatype Desc = Desc(len: nat, cmd: byte, status: byte)

  datatype Tx = Tx(descs: seq<Desc>, bufs: seq<seq<byte>>, tdh: nat, tdt: nat, tail: nat)

  ghost predicate Shape(s: Tx) {
    && |s.descs| == NDESC && |s.bufs| == NDESC
    && s.tdh < NDESC && s.tdt < NDESC && s.tail < NDESC
    && forall i :: 0 <= i < NDESC ==> |s.bufs[i]| == BUF_SIZE && s.descs[i].len <= BUF_SIZE
  }

  ghost predicate Start(s: Tx) {
    Shape(s) && s.tdh == 0 && s.tdt == 0 && s.tail == 0
  }

  predicate Sendable(f: Frame) {
    0 < |f| <= BUF_SIZE
  }

  // ---------- the two parties ----------

  /** The driver fills the tail descriptor and moves TDT past it. */
  ghost function Submit(s: Tx, f: Frame): Tx
    requires Shape(s) && Sendable(f)
  {
    var i := s.tail;
    s.(bufs := s.bufs[i := f + s.bufs[i][|f|..]],
       descs := s.descs[i := Desc(|f|, CMD, 0)],
       tail := At(i, 1),
       tdt := At(i, 1))
  }

  ghost predicate Reports(d: Desc) {
    d.cmd / 8 % 2 == 1
  }

  /** The NIC sends the descriptor at TDH, if TDH has not reached TDT, and writes DD
      back when asked to report. */
  ghost function NicStep(s: Tx, status: byte): Tx
    requires Shape(s)
  {
    if s.tdh == s.tdt then s
    else
      var d := s.descs[s.tdh];
      s.(descs := if Reports(d) then s.descs[s.tdh := d.(status := status)] else s.descs, tdh := At(s.tdh, 1))
  }

  ghost function FrameAt(s: Tx, i: nat): Frame
    requires Shape(s) && i < NDESC
  {
    s.bufs[i][..s.descs[i].len]
  }

  // ---------- what the ring holds ----------

  ghost function Unfinished(s: Tx): nat
    requires Shape(s)
  {
    Dist(s.tdh, s.tail)
  }

  /** The frames from TDH up to the driver's tail, oldest first. */
  ghost function InFlight(s: Tx): (p: seq<Frame>)
    requires Shape(s)
    ensures |p| == Unfinished(s)
  {
    seq(Unfinished(s), k requires 0 <= k < Unfinished(s) => FrameAt(s, At(s.tdh, k)))
  }

  /** TDT is the tail, and the descriptors the NIC owns are ready to send. */
  ghost predicate RingOk(s: Tx) {
    && Shape(s) && s.tdt == s.tail
    && forall k :: 0 <= k < Unfinished(s) ==>
         var d := s.descs[At(s.tdh, k)];
         d.cmd == CMD && !Done(d.status)
  }

  // ---------- every run ----------

  /** `submitted`: the frames given to the ring; `wire`: the frames the NIC sent. */
  datatype Run = Run(ring: Tx, submitted: seq<Frame>, wire: seq<Frame>)

  ghost predicate Inv(r: Run) {
    RingOk(r.ring) && r.submitted == r.wire + InFlight(r.ring)
  }

  ghost function Offer(r: Run, f: Frame): Run
    requires Shape(r.ring) && Sendable(f)
  {
    Run(Submit(r.ring, f), r.submitted + [f], r.wire)
  }

  ghost function Drain(r: Run, status: byte): Run
    requires Shape(r.ring)
  {
    Run(NicStep(r.ring, status), r.submitted,
        if r.ring.tdh == r.ring.tdt then r.wire else r.wire + [FrameAt(r.ring, r.ring.tdh)])
  }

  /** What the NIC does while the driver waits: one status per descriptor it sends. */
  ghost function DrainAll(r: Run, statuses: seq<byte>): (q: Run)
    requires Shape(r.ring)
    ensures Shape(q.ring)
    decreases |statuses|
  {
    if statuses == [] then r else DrainAll(Drain(r, statuses[0]), statuses[1..])
  }

  /** `send`: refuse an empty or oversized frame; otherwise submit it, wait while the NIC
      makes some progress, and report whether the frame's own descriptor has DD. */
  ghost function SendStep(r: Run, f: Frame, statuses: seq<byte>): (Run, bool)
    requires Shape(r.ring)
  {
    if !Sendable(f) then (r, false)
    else
      var i := r.ring.tail;
      var q := DrainAll(Offer(r, f), statuses);
      (q, Done(q.ring.descs[i].status))
  }

  lemma AppendFlight(s: Tx, f: Frame)
    requires RingOk(s) && Sendable(f) && Unfinished(s) < NDESC - 1
    ensures RingOk(Submit(s, f)) && InFlight(Submit(s, f)) == InFlight(s) + [f]
  {
    var t := Submit(s, f);
    var u := Unfinished(s);
    assert Unfinished(t) == u + 1;
    assert At(s.tdh, u) == s.tail;
    forall k | 0 <= k < u
      ensures At(s.tdh, k) != s.tail
    {
      AtDist(s.tdh, k);
      AtDist(s.tdh, u);
    }
  }

  /** The tail descriptor is never one the NIC owns, so filling it overwrites nothing
      that is still to be sent. */
  lemma TailIsNotOwned(s: Tx, k: nat)
    requires RingOk(s) && k < Unfinished(s)
    ensures At(s.tdh, k) != s.tail
  {
  }

  /** Submitting keeps the books exactly when at most NDESC - 2 descriptors are
      unfinished. */
  lemma OfferKeeps(r: Run, f: Frame)
    requires Inv(r) && Sendable(f)
    ensures Inv(Offer(r, f)) <==> Unfinished(r.ring) <= NDESC - 2
  {
    if Unfinished(r.ring) <= NDESC - 2 {
      AppendFlight(r.ring, f);
    } else {
      assert Unfinished(Submit(r.ring, f)) == 0;
      assert |Offer(r, f).submitted| == |r.wire| + NDESC;
    }
  }

  lemma SentSlots(s: Tx, status: byte)
    requires RingOk(s) && 0 < Unfinished(s)
    ensures s.tdh != s.tdt
    ensures var t := NicStep(s, status);
            && Shape(t) && Unfinished(t) == Unfinished(s) - 1 && At(s.tdh, 0) == s.tdh
            && forall k :: 0 <= k < Unfinished(t) ==> At(t.tdh, k) == At(s.tdh, k + 1) && At(t.tdh, k) != s.tdh
  {
    hide At, Dist;
    DistAfterOne(s.tdh, s.tail);
    forall k | 0 <= k < NDESC - 1
      ensures At(At(s.tdh, 1), k) == At(s.tdh, k + 1) && At(At(s.tdh, 1), k) != s.tdh && At(s.tdh, 0) == s.tdh
    {
      AfterOne(s.tdh, k);
    }
  }

  lemma DrainKeeps(r: Run, status: byte)
    requires Inv(r) && Done(status)
    ensures Inv(Drain(r, status))
    ensures Unfinished(Drain(r, status).ring) == if Unfinished(r.ring) == 0 then 0 else Unfinished(r.ring) - 1
  {
    hide At, Dist;
    var s := r.ring;
    DistAfterOne(s.tdh, s.tail);
    if Unfinished(s) > 0 {
      SentSlots(s, status);
      DrainRing(s, status);
      SentFlight(s, status);
    }
  }

  lemma SentFlight(s: Tx, status: byte)
    requires RingOk(s) && 0 < Unfinished(s) && Shape(NicStep(s, status))
    ensures InFlight(s) == [FrameAt(s, s.tdh)] + InFlight(NicStep(s, status))
  {
    SentSlots(s, status);
    hide At, Dist;
    var t := NicStep(s, status);
    forall k | 0 <= k < Unfinished(t)
      ensures FrameAt(t, At(t.tdh, k)) == FrameAt(s, At(s.tdh, k + 1))
    {
    }
  }

  /** Slot i holds the newest frame: it shows DD once nothing is left to send. */
  ghost predicate Newest(s: Tx, i: nat)
    requires Shape(s)
  {
    i < NDESC && At(i, 1) == s.tail && (Unfinished(s) == 0 ==> Done(s.descs[i].status))
  }

  lemma DrainNewest(s: Tx, i: nat, status: byte)
    requires RingOk(s) && Newest(s, i) && Done(status)
    ensures Newest(NicStep(s, status), i)
  {
    if Unfinished(s) == 1 {
      assert At(s.tdh, 0) == s.tdh && i == s.tdh;
    }
  }

  lemma DrainRing(s: Tx, status: byte)
    requires RingOk(s)
    ensures RingOk(NicStep(s, status))
  {
    if Unfinished(s) > 0 {
      SentSlots(s, status);
      hide At, Dist;
    }
  }

  lemma DoneMeansEmpty(s: Tx, i: nat)
    requires Shape(s) && RingOk(s) && Newest(s, i) && Done(s.descs[i].status)
    ensures s.tdh == s.tdt
  {
    NewestPending(s, i);
  }

  /** After a submit the new descriptor is the newest, or TDT has met TDH. */
  lemma OfferNewest(s: Tx, f: Frame)
    requires RingOk(s) && Sendable(f)
    ensures var t := Submit(s, f);
            if Unfinished(s) <= NDESC - 2 then RingOk(t) && Newest(t, s.tail) else t.tdh == t.tdt
  {
    if Unfinished(s) <= NDESC - 2 {
      AppendFlight(s, f);
      assert Unfinished(Submit(s, f)) == Unfinished(s) + 1;
    }
  }

  lemma {:induction false} DrainAllKeeps(r: Run, i: nat, statuses: seq<byte>)
    requires Inv(r) && Newest(r.ring, i) && forall k :: 0 <= k < |statuses| ==> Done(statuses[k])
    ensures var q := DrainAll(r, statuses);
            Inv(q) && Newest(q.ring, i) && q.submitted == r.submitted && Unfinished(q.ring) <= Unfinished(r.ring)
    decreases |statuses|
  {
    if statuses != [] {
      DrainKeeps(r, statuses[0]);
      DrainNewest(r.ring, i, statuses[0]);
      hide RingOk, Newest, Drain;
      DrainAllKeeps(Drain(r, statuses[0]), i, statuses[1..]);
    }
  }

  lemma NewestPending(s: Tx, i: nat)
    requires RingOk(s) && Newest(s, i)
    ensures Done(s.descs[i].status) <==> Unfinished(s) == 0
  {
    hide At, Dist, Done;
    var u := Unfinished(s);
    if u > 0 {
      SlotBefore(s.tdh, s.tail, i);
      assert s.descs[At(s.tdh, u - 1)] == s.descs[i];
    }
  }

  lemma SlotBefore(a: nat, b: nat, i: nat)
    requires a < NDESC && b < NDESC && i < NDESC && At(i, 1) == b && 0 < Dist(a, b)
    ensures At(a, Dist(a, b) - 1) == i
  {
  }

  /** Whether a send is one the ring has room for; a frame that is refused needs none. */
  ghost predicate Careful(r: Run, f: Frame)
    requires Shape(r.ring)
  {
    Sendable(f) ==> Unfinished(r.ring) <= NDESC - 2
  }

  /** A send keeps the books if and only if at most NDESC - 2 descriptors are unfinished, and it
      reports success exactly when this frame and all earlier ones are on the wire. */
  lemma SendKeeps(r: Run, f: Frame, statuses: seq<byte>)
    requires Inv(r)
    requires forall k :: 0 <= k < |statuses| ==> Done(statuses[k])
    ensures var (q, ok) := SendStep(r, f, statuses);
            && (Inv(q) <==> Careful(r, f))
            && q.submitted == (if 0 < |f| <= 2048 then r.submitted + [f] else r.submitted)
            && (ok <==> 0 < |f| <= 2048 && q.wire == q.submitted)
  {
    if !Careful(r, f) {
      OfferKeeps(r, f);
      FullRingStalls(r, f, statuses);
    } else if Sendable(f) {
      var i := r.ring.tail;
      var o := Offer(r, f);
      OfferKeeps(r, f);
      assert Unfinished(o.ring) == Unfinished(r.ring) + 1;
      DrainAllKeeps(o, i, statuses);
      NewestPending(DrainAll(o, statuses).ring, i);
      assert |InFlight(DrainAll(o, statuses).ring)| == Unfinished(DrainAll(o, statuses).ring);
    }
  }

  /** With NDESC - 1 unfinished, the next send makes TDT meet TDH: the NIC sees an empty
      ring, and none of the NDESC submitted frames leaves, however long the driver waits. */
  lemma FullRingStalls(r: Run, f: Frame, statuses: seq<byte>)
    requires Inv(r) && Unfinished(r.ring) == NDESC - 1 && Sendable(f)
    ensures var (q, ok) := SendStep(r, f, statuses);
            !ok && q == Offer(r, f) && |q.submitted| == |q.wire| + NDESC
  {
    var o := Offer(r, f);
    assert o.ring.tdh == o.ring.tdt;
    Stalled(o, statuses);
    assert !Done(o.ring.descs[r.ring.tail].status);
  }

  lemma {:induction false} Stalled(r: Run, statuses: seq<byte>)
    requires Shape(r.ring) && r.ring.tdh == r.ring.tdt
    ensures DrainAll(r, statuses) == r
    decreases |statuses|
  {
    if statuses != [] {
      Stalled(Drain(r, statuses[0]), statuses[1..]);
    }
  }

  // ---------- every run ----------

  datatype Event = Send(frame: Frame, statuses: seq<byte>) | Nic(status: byte)

  /** What the NIC writes back has the done bit. */
  ghost predicate Possible(e: Event) {
    match e
    case Send(f, statuses) => forall k :: 0 <= k < |statuses| ==> Done(statuses[k])
    case Nic(status) => Done(status)
  }

  ghost function Step(r: Run, e: Event): (q: Run)
    requires Shape(r.ring)
    ensures Shape(q.ring)
  {
    match e
    case Send(f, statuses) => SendStep(r, f, statuses).0
    case Nic(status) => Drain(r, status)
  }

  /** The state a run of events ends in. */
  ghost function Exec(r: Run, es: seq<Event>): (q: Run)
    requires Shape(r.ring)
    ensures Shape(q.ring)
    decreases |es|
  {
    if es == [] then r else Exec(Step(r, es[0]), es[1..])
  }

  /** Every send of the run finds at most NDESC - 2 descriptors unfinished. */
  ghost predicate AlwaysCareful(r: Run, es: seq<Event>)
    requires Shape(r.ring)
    decreases |es|
  {
    es != [] ==> (es[0].Send? ==> Careful(r, es[0].frame)) && AlwaysCareful(Step(r, es[0]), es[1..])
  }

  /** A whole ring's length of submitted frames is neither on the wire nor among those the NIC owns. */
  ghost predicate Behind(r: Run) {
    && Shape(r.ring) && r.ring.tdt == r.ring.tail
    && |r.submitted| >= |r.wire| + Unfinished(r.ring) + NDESC
  }

  lemma BehindIsUnsound(r: Run)
    requires Behind(r)
    ensures !Inv(r)
  {
  }

  lemma OfferStaysBehind(r: Run, f: Frame)
    requires Behind(r) && Sendable(f)
    ensures Behind(Offer(r, f))
  {
    hide At, Dist;
    DistAfterOne(r.ring.tdh, r.ring.tail);
  }

  lemma DrainStaysBehind(r: Run, status: byte)
    requires Behind(r)
    ensures Behind(Drain(r, status))
  {
    hide At, Dist;
    DistAfterOne(r.ring.tdh, r.ring.tail);
  }

  lemma {:induction false} DrainAllStaysBehind(r: Run, statuses: seq<byte>)
    requires Behind(r)
    ensures Behind(DrainAll(r, statuses))
    decreases |statuses|
  {
    hide Unfinished, Drain;
    if statuses != [] {
      DrainStaysBehind(r, statuses[0]);
      DrainAllStaysBehind(Drain(r, statuses[0]), statuses[1..]);
    }
  }

  /** Whatever is sent later, the ring never catches up again. */
  lemma {:induction false} StaysBehind(r: Run, es: seq<Event>)
    requires Behind(r)
    ensures Behind(Exec(r, es))
    decreases |es|
  {
    hide Unfinished, Drain, Offer, DrainAll;
    if es != [] {
      match es[0] {
        case Send(f, statuses) =>
          if Sendable(f) {
            OfferStaysBehind(r, f);
            DrainAllStaysBehind(Offer(r, f), statuses);
          }
        case Nic(status) =>
          DrainStaysBehind(r, status);
      }
      StaysBehind(Step(r, es[0]), es[1..]);
    }
  }

  lemma CarelessFallsBehind(r: Run, f: Frame, statuses: seq<byte>)
    requires Inv(r) && !Careful(r, f)
    ensures Behind(SendStep(r, f, statuses).0)
  {
    FullRingStalls(r, f, statuses);
    hide At, Dist;
    DistAfterOne(r.ring.tdh, r.ring.tail);
  }

  /** Whatever the driver sends and however long it waits: at the end of a run from a sound state the books are
      right if and only if every send of the run was careful. */
  lemma {:induction false} SoundWhenCareful(r: Run, es: seq<Event>)
    requires Inv(r) && forall i :: 0 <= i < |es| ==> Possible(es[i])
    ensures Inv(Exec(r, es)) <==> AlwaysCareful(r, es)
    ensures !AlwaysCareful(r, es) ==> Behind(Exec(r, es))
    decreases |es|
  {
    if es != [] {
      var q := Step(r, es[0]);
      assert Possible(es[0]);
      match es[0] {
        case Send(f, statuses) =>
          SendKeeps(r, f, statuses);
          if !Careful(r, f) {
            CarelessFallsBehind(r, f, statuses);
          }
        case Nic(status) =>
          DrainKeeps(r, status);
      }
      hide Step, Inv, Careful, Possible, Behind;
      if Inv(q) {
        SoundWhenCareful(q, es[1..]);
      } else {
        StaysBehind(q, es[1..]);
        BehindIsUnsound(Exec(q, es[1..]));
      }
    }
  }

  /** Over every run from set-up: when every send was careful the wire carries a prefix of the submitted frames, in
      order, and what is missing is exactly what the NIC still owns; when one was not, at least NDESC submitted
      frames are not on the wire at the end, however the run goes on. */
  lemma EveryRun(s: Tx, es: seq<Event>)
    requires Start(s) && forall i :: 0 <= i < |es| ==> Possible(es[i])
    ensures var r := Run(s, [], []);
            var q := Exec(r, es);
            if AlwaysCareful(r, es)
            then RingOk(q.ring) && q.submitted == q.wire + InFlight(q.ring) && q.wire <= q.submitted && Commands(q.ring)
            else |q.submitted| >= |q.wire| + NDESC
  {
    var r := Run(s, [], []);
    assert InFlight(s) == [];
    SoundWhenCareful(r, es);
    var q := Exec(r, es);
    if AlwaysCareful(r, es) {
      CommandsReady(q.ring);
    }
    hide RingOk, Commands, At, Dist, Exec, AlwaysCareful, InFlight;
  }

  lemma CommandsReady(s: Tx)
    requires RingOk(s)
    ensures Commands(s)
  {
    hide At, Dist;
  }

  /** The descriptors the NIC owns ask for a whole packet, with its checksum, to be reported when sent. */
  ghost predicate Commands(s: Tx)
    requires Shape(s)
  {
    forall k :: 0 <= k < Unfinished(s) ==>
      var d := s.descs[At(s.tdh, k)];
      d.cmd % 2 == 1 && d.cmd / 2 % 2 == 1 && d.cmd / 8 % 2 == 1
  }

  ghost function SendTimes(r: Run, f: Frame, n: nat): (q: Run)
    requires Shape(r.ring)
    ensures Shape(q.ring)
    decreases n
  {
    if n == 0 then r else SendTimes(SendStep(r, f, []).0, f, n - 1)
  }

  /** The limit is reached: a NIC that sends nothing while the driver times out NDESC - 1
      times leaves the ring one send away from stalling. */
  lemma {:induction false} TimeoutsFillTheRing(r: Run, f: Frame, n: nat)
    requires Inv(r) && Sendable(f) && Unfinished(r.ring) + n <= NDESC - 1
    ensures Inv(SendTimes(r, f, n)) && Unfinished(SendTimes(r, f, n).ring) == Unfinished(r.ring) + n
    decreases n
  {
    if n > 0 {
      OfferKeeps(r, f);
      assert SendStep(r, f, []).0 == Offer(r, f);
      assert Unfinished(Offer(r, f).ring) == Unfinished(r.ring) + 1;
      TimeoutsFillTheRing(Offer(r, f), f, n - 1);
    }
  }
}

/** The driver object and the NIC's own steps on the shared rings. */
module E1000Driver {
  import opened Common
  import opened Rings
  import R = Receive
  import T = Transmit

  class E1000 {
    const rxRing: array<R.Desc>
    const rxBufs: array<seq<byte>>
    const txRing: array<T.Desc>
    const txBufs: array<seq<byte>>
    var rdh: nat
    var rdt: nat
    var tdh: nat
    var tdt: nat
    var rxHead: nat
    var txTail: nat
    ghost var accepted: seq<Frame>
    ghost var polled: seq<Frame>
    ghost var submitted: seq<Frame>
    ghost var wire: seq<Frame>

    ghost function Rx(): R.Run
      reads this, rxRing, rxBufs
    {
      R.Run(R.Rx(rxRing[..], rxBufs[..], rdh, rdt, rxHead), accepted, polled)
    }

    ghost function Tx(): T.Run
      reads this, txRing, txBufs
    {
      T.Run(T.Tx(txRing[..], txBufs[..], tdh, tdt, txTail), submitted, wire)
    }

    ghost predicate Valid()
      reads this, rxRing, rxBufs, txRing, txBufs
    {
      rxBufs != txBufs && R.Inv(Rx()) && T.Inv(Tx())
    }

    /** Ring set-up: descriptors cleared, RDH 0, RDT at the last slot, TDH and TDT 0. */
    constructor ()
      ensures Valid() && fresh(rxRing) && fresh(rxBufs) && fresh(txRing) && fresh(txBufs)
      ensures R.Start(Rx().ring) && Rx().accepted == [] && Rx().polled == []
      ensures T.Start(Tx().ring) && Tx().submitted == [] && Tx().wire == []
    {
      rxRing := new R.Desc[NDESC](_ => R.Desc(0, 0));
      txRing := new T.Desc[NDESC](_ => T.Desc(0, 0, 0));
      rxBufs := new seq<byte>[NDESC](_ => seq(BUF_SIZE, _ => 0));
      txBufs := new seq<byte>[NDESC](_ => seq(BUF_SIZE, _ => 0));
      rdh, rdt, rxHead := 0, NDESC - 1, 0;
      tdh, tdt, txTail := 0, 0, 0;
      accepted, polled, submitted, wire := [], [], [], [];
      new;
      R.EveryRun(Rx().ring, [], Rx());
      T.EveryRun(Tx().ring, []);
    }

    /** The NIC takes in a frame, or drops it when it owns no descriptor. */
    method NicReceive(f: Frame, status: byte) returns (taken: bool)
      requires Valid() && |f| <= BUF_SIZE && Done(status)
      modifies this, rxRing, rxBufs
      ensures Valid() && Rx() == R.Step(old(Rx()), R.Arrive(f, status)) && Tx() == old(Tx())
      ensures taken <==> |R.Pending(old(Rx()).ring)| < NDESC - 1
    {
      ghost var r := Rx();
      R.StepKeeps(r, R.Arrive(f, status));
      R.FullMeansAllButOne(r.ring);
      hide R.Inv, T.Inv;
      taken := rdh != rdt;
      if taken {
        rxBufs[rdh] := f + rxBufs[rdh][|f|..];
        rxRing[rdh] := R.Desc(status, |f|);
        rdh := (rdh + 1) % NDESC;
        accepted := accepted + [f];
      }
      assert Rx() == R.Step(r, R.Arrive(f, status));
    }

    /** The driver's poll: the oldest waiting frame, if any. */
    method PollRecv() returns (out: Option<Frame>)
      requires Valid()
      modifies this, rxRing
      ensures Valid() && Rx() == R.Step(old(Rx()), R.Poll) && Tx() == old(Tx())
      ensures out == if R.Pending(old(Rx()).ring) == [] then None else Some(R.Pending(old(Rx()).ring)[0])
    {
      ghost var r := Rx();
      R.PollKeeps(r);
      assert At(r.ring.head, 0) == r.ring.head;
      var i := rxHead;
      var d := rxRing[i];
      if !Done(d.status) {
        return None;
      }
      out := Some(rxBufs[i][..Min(d.len, BUF_SIZE)]);
      rxRing[i] := d.(status := 0);
      rdt := i;
      rxHead := (i + 1) % NDESC;
      polled := polled + [out.value];
      assert Rx() == R.Step(r, R.Poll);
    }

    /** The NIC sends the next descriptor it owns. */
    method NicTransmit(status: byte)
      requires T.Shape(Tx().ring) && Done(status)
      modifies this, txRing
      ensures Tx() == T.Drain(old(Tx()), status) && Rx() == old(Rx())
      ensures old(Valid()) ==> Valid()
    {
      ghost var r := Tx();
      if Valid() {
        T.DrainKeeps(r, status);
      }
      if tdh != tdt {
        wire := wire + [txBufs[tdh][..txRing[tdh].len]];
        if txRing[tdh].cmd / 8 % 2 == 1 {
          txRing[tdh] := txRing[tdh].(status := status);
        }
        tdh := (tdh + 1) % NDESC;
      }
      assert Tx() == T.Drain(r, status);
    }

    /** Fill the tail descriptor and move TDT. */
    method Submit(f: Frame)
      requires Valid() && T.Sendable(f)
      modifies this, txRing, txBufs
      ensures Tx() == T.Offer(old(Tx()), f) && Rx() == old(Rx())
      ensures T.Unfinished(old(Tx()).ring) <= NDESC - 2 ==> Valid()
    {
      ghost var r := Tx();
      T.OfferKeeps(r, f);
      var i := txTail;
      txBufs[i] := f + txBufs[i][|f|..];
      txRing[i] := T.Desc(|f|, T.CMD, 0);
      txTail := (i + 1) % NDESC;
      tdt := txTail;
      submitted := submitted + [f];
      assert Tx() == T.Offer(r, f);
    }

    /** Spin on the DD bit of descriptor i.  `statuses` is the NIC's progress meanwhile:
        between polls it may finish one descriptor.  Seeing DD ends the wait early, and
        by then the NIC has nothing left to do. */
    method Wait(i: nat, statuses: seq<byte>) returns (ok: bool)
      requires T.Shape(Tx().ring) && i < NDESC && forall k :: 0 <= k < |statuses| ==> Done(statuses[k])
      requires tdh == tdt || (T.RingOk(Tx().ring) && T.Newest(Tx().ring, i))
      modifies this, txRing
      ensures Tx() == T.DrainAll(old(Tx()), statuses) && ok == Done(txRing[i].status) && Rx() == old(Rx())
      ensures old(Valid()) ==> Valid()
    {
      hide T.Inv, R.Inv, At, Dist, T.RingOk, T.Newest, T.FrameAt;
      ghost var o := Tx();
      var k := 0;
      while k < |statuses|
        invariant 0 <= k <= |statuses|
        invariant T.Shape(Tx().ring) && Rx() == old(Rx()) && (old(Valid()) ==> Valid())
        invariant tdh == tdt || (T.RingOk(Tx().ring) && T.Newest(Tx().ring, i))
        invariant T.DrainAll(Tx(), statuses[k..]) == T.DrainAll(o, statuses)
      {
        if Done(txRing[i].status) {
          if tdh != tdt {
            T.DoneMeansEmpty(Tx().ring, i);
          }
          T.Stalled(Tx(), statuses[k..]);
          return true;
        }
        if tdh != tdt {
          T.DrainNewest(Tx().ring, i, statuses[k]);
          T.DrainRing(Tx().ring, statuses[k]);
        }
        assert statuses[k..][1..] == statuses[k + 1..];
        NicTransmit(statuses[k]);
        k := k + 1;
      }
      return Done(txRing[i].status);
    }

    method Send(f: Frame, statuses: seq<byte>) returns (ok: bool)
      requires Valid()
      requires forall k :: 0 <= k < |statuses| ==> Done(statuses[k])
      modifies this, txRing, txBufs
      ensures (Tx(), ok) == T.SendStep(old(Tx()), f, statuses) && Rx() == old(Rx())
      ensures T.Unfinished(old(Tx()).ring) <= NDESC - 2 ==> Valid()
    {
      ghost var r := Tx();
      if |f| == 0 || |f| > BUF_SIZE {
        return false;
      }
      T.OfferNewest(r.ring, f);
      hide T.Inv, R.Inv, At, Dist, T.Submit;
      var i := txTail;
      Submit(f);
      ok := Wait(i, statuses);
    }
  }
}
