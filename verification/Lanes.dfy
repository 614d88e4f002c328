/**
 * What every device instance keeps in every run: FIFO numbering, counter conservation, and wire
 * output that is a function of the accepted packets alone.
 */
module Lanes {
  import opened Words
  import opened Options
  import opened Pool
  import opened Device
  import opened Dispatch
  import opened Protocol
  import opened Ownership

  // ---- The specification, from the accepted packets alone ----

  /** The total length of a sequence of packets. */
  function Bytes(pkts: seq<Packet>): nat {
    if pkts == [] then 0 else Bytes(pkts[..|pkts| - 1]) + |pkts[|pkts| - 1].frame|
  }

  /** The work item of the `k`-th accepted packet: ids count 1, 2, 3, ...; bytes accumulate. */
  function WorkFor(accepted: seq<Packet>, k: nat): Work
    requires k < |accepted|
  {
    Work(accepted[k], U32(k + 1), U32(Bytes(accepted[..k + 1])))
  }

  /** The datagrams of the first |configs| accepted packets, each under the configuration it met. */
  function Sent(accepted: seq<Packet>, configs: seq<Chains>): seq<Datagram>
    requires |configs| <= |accepted|
  {
    if configs == [] then []
    else
      var n := |configs| - 1;
      Sent(accepted, configs[..n]) + Output(configs[n], WireFrame(WorkFor(accepted, n)))
  }

  /** The datagrams of one device's worker, out of everything on the wire. */
  function Emitted(wire: seq<Tagged>, d: DevId): seq<Datagram> {
    if wire == [] then []
    else
      var n := |wire| - 1;
      Emitted(wire[..n], d) + if wire[n].dev == d then [wire[n].datagram] else []
  }

  // ---- One device seen on its own ----

  datatype Counters = Counters(pkts: u32, bytes: u32, drops: u16)

  /**
   * A device instance: its history, its counters while it lives, the contents of its items in
   * flight, whether the oldest of them has been sent, and its part of the wire.
   */
  datatype LaneView = LaneView(
    hist: History, counters: Option<Counters>, flight: seq<Work>, sent: bool, out: seq<Datagram>)

  /** The items of a device that are not freed yet, oldest first. */
  ghost function InFlight(s: State, d: DevId): seq<Item> {
    if d in s.devs then
      (if s.devs[d].running.Some? then [s.devs[d].running.value.item] else []) + s.devs[d].queue
    else if d in s.stranded then s.stranded[d]
    else []
  }

  function Contents(data: Table, q: seq<Item>): (r: seq<Work>)
    ensures |r| == |q| && forall j :: 0 <= j < |q| ==> r[j] == data[q[j]]
  {
    seq(|q|, j requires 0 <= j < |q| => data[q[j]])
  }

  ghost function ViewOf(s: State, d: DevId): LaneView
    requires d in s.hist
  {
    LaneView(
      s.hist[d],
      if d in s.devs then Some(Counters(s.devs[d].pkts, s.devs[d].bytes, s.devs[d].drops)) else None,
      Contents(s.data, InFlight(s, d)),
      d in s.devs && s.devs[d].running.Some? && s.devs[d].running.value.sent,
      Emitted(s.wire, d))
  }

  /** Items in flight hold the packets accepted last, in order, correctly numbered. */
  ghost predicate Fifo(accepted: seq<Packet>, done: nat, flight: seq<Work>) {
    && |accepted| == done + |flight|
    && forall j :: 0 <= j < |flight| ==> flight[j] == WorkFor(accepted, done + j)
  }

  /** The counters a history gives rise to. */
  function Tally(accepted: seq<Packet>, dropped: nat): Counters {
    Counters(U32(|accepted|), U32(Bytes(accepted)), U16(dropped))
  }

  /** The counters account for every packet that entered the locked section. */
  ghost predicate Counted(entered: nat, accepted: seq<Packet>, dropped: nat, counters: Option<Counters>) {
    && entered == |accepted| + dropped
    && (counters.Some? ==> counters.value == Tally(accepted, dropped))
  }

  /** How many packets the worker has handed to the filters. */
  ghost function Dispatched(v: LaneView): nat {
    v.hist.done + if v.sent then 1 else 0
  }

  /** What the worker has sent is what the specification says, no more and no less. */
  ghost predicate OnTheWire(accepted: seq<Packet>, configs: seq<Chains>, dispatched: nat, out: seq<Datagram>) {
    && |configs| == dispatched <= |accepted|
    && out == Sent(accepted, configs)
  }

  /** The captured frames handed to the filters have been freed, each once, in order. */
  ghost predicate FreedUpTo(accepted: seq<Packet>, dispatched: nat, released: seq<Packet>) {
    dispatched <= |accepted| && released == accepted[..dispatched]
  }

  ghost predicate Good(v: LaneView) {
    && Fifo(v.hist.accepted, v.hist.done, v.flight)
    && Counted(v.hist.entered, v.hist.accepted, |v.hist.dropped|, v.counters)
    && OnTheWire(v.hist.accepted, v.hist.configs, Dispatched(v), v.out)
    && FreedUpTo(v.hist.accepted, Dispatched(v), v.hist.released)
  }

  ghost predicate Lanes(s: State) {
    && (forall d :: d in s.hist ==> Good(ViewOf(s, d)))
    && (forall k :: 0 <= k < |s.wire| ==> s.wire[k].dev in s.hist)
  }

  // ---- What a device sees of each step ----

  function ViewAccept(v: LaneView, pkt: Packet): LaneView
    requires v.counters.Some?
  {
    var c := v.counters.value;
    var n := Counters(U32(c.pkts + 1), U32(c.bytes + U32(|pkt.frame|)), c.drops);
    v.(counters := Some(n), flight := v.flight + [Work(pkt, n.pkts, n.bytes)],
       hist := v.hist.(entered := v.hist.entered + 1, accepted := v.hist.accepted + [pkt]))
  }

  function ViewDrop(v: LaneView, pkt: Packet): LaneView
    requires v.counters.Some?
  {
    v.(counters := Some(v.counters.value.(drops := U16(v.counters.value.drops + 1))),
       hist := v.hist.(entered := v.hist.entered + 1, dropped := v.hist.dropped + [pkt]))
  }

  function ViewSend(v: LaneView, chains: Chains): LaneView
    requires v.flight != []
  {
    var released := v.hist.released + [v.flight[0].pkt];
    v.(hist := v.hist.(configs := v.hist.configs + [chains], released := released), sent := true,
       out := v.out + Output(chains, WireFrame(v.flight[0])))
  }

  function ViewFree(v: LaneView): LaneView
    requires v.flight != []
  {
    v.(hist := v.hist.(done := v.hist.done + 1), flight := v.flight[1..], sent := false)
  }

  // ---- Lemmas about the specification ----

  lemma WorkForPrefix(accepted: seq<Packet>, pkt: Packet, k: nat)
    requires k < |accepted|
    ensures WorkFor(accepted + [pkt], k) == WorkFor(accepted, k)
  {
    assert (accepted + [pkt])[..k + 1] == accepted[..k + 1];
  }

  lemma {:induction false} SentPrefix(accepted: seq<Packet>, pkt: Packet, configs: seq<Chains>)
    requires |configs| <= |accepted|
    ensures Sent(accepted + [pkt], configs) == Sent(accepted, configs)
  {
    if configs != [] {
      var n := |configs| - 1;
      SentPrefix(accepted, pkt, configs[..n]);
      WorkForPrefix(accepted, pkt, n);
    }
  }

  lemma SentStep(accepted: seq<Packet>, configs: seq<Chains>, c: Chains)
    requires |configs| < |accepted|
    ensures Sent(accepted, configs + [c])
         == Sent(accepted, configs) + Output(c, WireFrame(WorkFor(accepted, |configs|)))
  {
    assert (configs + [c])[..|configs|] == configs;
  }

  lemma {:induction false} EmittedTag(wire: seq<Tagged>, e: DevId, out: seq<Datagram>, d: DevId)
    ensures Emitted(wire + Tag(e, out), d) == Emitted(wire, d) + if d == e then out else []
  {
    if out == [] {
      assert wire + Tag(e, out) == wire;
    } else {
      var n := |out| - 1;
      EmittedTag(wire, e, out[..n], d);
      assert Tag(e, out)[..n] == Tag(e, out[..n]);
      assert (wire + Tag(e, out))[..|wire| + n] == wire + Tag(e, out[..n]);
      assert out == out[..n] + [out[n]];
    }
  }

  lemma {:induction false} EmittedNone(wire: seq<Tagged>, d: DevId)
    requires forall k :: 0 <= k < |wire| ==> wire[k].dev != d
    ensures Emitted(wire, d) == []
  {
    if wire != [] {
      EmittedNone(wire[..|wire| - 1], d);
    }
  }

  lemma BytesStep(accepted: seq<Packet>, pkt: Packet)
    ensures Bytes(accepted + [pkt]) == Bytes(accepted) + |pkt.frame|
  {
    assert (accepted + [pkt])[..|accepted|] == accepted;
  }

  /** Counting on in wrapped counters: `p` packets and `b` bytes so far, one more of length `n`. */
  lemma CountOn(p: nat, b: nat, n: nat, total: nat)
    requires total == b + n
    ensures U32(U32(p) + 1) == U32(p + 1) && U32(U32(b) + U32(n)) == U32(total)
  {
    WrappedSum(p, 1);
    WrappedSums(b, n);
  }

  lemma AcceptCounts(accepted: seq<Packet>, dropped: nat, pkt: Packet)
    ensures var c := Tally(accepted, dropped);
      Tally(accepted + [pkt], dropped) == Counters(U32(c.pkts + 1), U32(c.bytes + U32(|pkt.frame|)), c.drops)
  {
    BytesStep(accepted, pkt);
    CountOn(|accepted|, Bytes(accepted), |pkt.frame|, Bytes(accepted + [pkt]));
  }

  lemma WorkForLast(accepted: seq<Packet>, dropped: nat, pkt: Packet)
    ensures var t := Tally(accepted + [pkt], dropped);
      WorkFor(accepted + [pkt], |accepted|) == Work(pkt, t.pkts, t.bytes)
  {
    assert (accepted + [pkt])[..|accepted| + 1] == accepted + [pkt];
  }

  /** The stamp written under the lock is the next item of the specification. */
  lemma ExtendFifo(accepted: seq<Packet>, done: nat, flight: seq<Work>, pkt: Packet, w: Work)
    requires Fifo(accepted, done, flight) && w == WorkFor(accepted + [pkt], |accepted|)
    ensures Fifo(accepted + [pkt], done, flight + [w])
  {
    forall j | 0 <= j < |flight + [w]| ensures (flight + [w])[j] == WorkFor(accepted + [pkt], done + j) {
      if j < |flight| {
        WorkForPrefix(accepted, pkt, done + j);
      }
    }
  }

  /** The counters after an accepted packet are those of the longer history, and so is the stamp. */
  lemma AcceptFields(v: LaneView, pkt: Packet)
    requires v.counters == Some(Tally(v.hist.accepted, |v.hist.dropped|))
    ensures var t, r := Tally(v.hist.accepted + [pkt], |v.hist.dropped|), ViewAccept(v, pkt);
      && r.counters == Some(t) && r.flight == v.flight + [Work(pkt, t.pkts, t.bytes)]
      && Work(pkt, t.pkts, t.bytes) == WorkFor(v.hist.accepted + [pkt], |v.hist.accepted|)
  {
    AcceptCounts(v.hist.accepted, |v.hist.dropped|, pkt);
    WorkForLast(v.hist.accepted, |v.hist.dropped|, pkt);
  }

  lemma AcceptIsGood(v: LaneView, pkt: Packet)
    requires Good(v) && v.counters.Some?
    ensures Good(ViewAccept(v, pkt))
  {
    var accepted := v.hist.accepted;
    AcceptFields(v, pkt);
    var t := Tally(accepted + [pkt], |v.hist.dropped|);
    ExtendFifo(accepted, v.hist.done, v.flight, pkt, Work(pkt, t.pkts, t.bytes));
    SentPrefix(accepted, pkt, v.hist.configs);
    var r := ViewAccept(v, pkt);
    assert Fifo(r.hist.accepted, r.hist.done, r.flight);
    assert Counted(r.hist.entered, r.hist.accepted, |r.hist.dropped|, r.counters);
    assert (accepted + [pkt])[..Dispatched(v)] == accepted[..Dispatched(v)];
  }

  lemma DropIsGood(v: LaneView, pkt: Packet)
    requires Good(v) && v.counters.Some?
    ensures Good(ViewDrop(v, pkt))
  {
    DropCounts(v.hist.accepted, |v.hist.dropped|);
  }

  lemma DropCounts(accepted: seq<Packet>, dropped: nat)
    ensures var c := Tally(accepted, dropped);
      Tally(accepted, dropped + 1) == c.(drops := U16(c.drops + 1))
  {
    WrappedSum16(dropped, 1);
  }

  lemma SendIsGood(v: LaneView, chains: Chains)
    requires Good(v) && !v.sent && v.flight != []
    ensures Good(ViewSend(v, chains))
  {
    SendOnTheWire(v.hist.accepted, v.hist.configs, v.hist.done, v.flight, v.out, chains);
    SendFrees(v.hist.accepted, v.hist.done, v.flight, v.hist.released);
  }

  lemma SendFrees(accepted: seq<Packet>, done: nat, flight: seq<Work>, released: seq<Packet>)
    requires Fifo(accepted, done, flight) && FreedUpTo(accepted, done, released) && flight != []
    ensures FreedUpTo(accepted, done + 1, released + [flight[0].pkt])
  {
    assert flight[0] == WorkFor(accepted, done);
  }

  lemma SendOnTheWire(accepted: seq<Packet>, configs: seq<Chains>, done: nat, flight: seq<Work>,
                      out: seq<Datagram>, chains: Chains)
    requires Fifo(accepted, done, flight) && OnTheWire(accepted, configs, done, out) && flight != []
    ensures OnTheWire(accepted, configs + [chains], done + 1, out + Output(chains, WireFrame(flight[0])))
  {
    assert flight[0] == WorkFor(accepted, done);
    SentStep(accepted, configs, chains);
  }

  lemma StopIsGood(v: LaneView)
    requires Good(v)
    ensures Good(v.(counters := None))
  {
  }

  lemma FreeIsGood(v: LaneView)
    requires Good(v) && v.sent && v.flight != []
    ensures Good(ViewFree(v))
  {
    FifoTail(v.hist.accepted, v.hist.done, v.flight);
  }

  lemma FifoTail(accepted: seq<Packet>, done: nat, flight: seq<Work>)
    requires Fifo(accepted, done, flight) && flight != []
    ensures Fifo(accepted, done + 1, flight[1..])
  {
    forall j | 0 <= j < |flight[1..]| ensures flight[1..][j] == WorkFor(accepted, done + 1 + j) {
      assert flight[1..][j] == flight[j + 1];
    }
  }

  // ---- Preservation, step by step ----

  /** A receiver's item is in no queue and at no worker. */
  lemma HeldElsewhere(s: State, where: Places, t: Thread, d: DevId, j: nat)
    requires Owned(s, where) && t in s.rx && s.rx[t].Holding? && s.rx[t].item.Some?
    requires j < |InFlight(s, d)|
    ensures InFlight(s, d)[j] != s.rx[t].item.value
  {
    var i, held := InFlight(s, d)[j], s.rx[t].item.value;
    assert At(s, held, AtReceiver(t));
    if d in s.devs {
      assert At(s, i, InQueue(d)) || At(s, i, AtWorker(d));
    } else {
      assert At(s, i, Lost(d));
    }
  }

  /** The contents of a device's items in flight survive a delivery, to whichever device. */
  lemma DeliverContents(s: State, t: Thread, where: Places, e: DevId)
    requires Enabled(s, Deliver(t)) && Shape(s) && Owned(s, where)
    ensures Contents(DoDeliver(s, t).data, InFlight(s, e)) == Contents(s.data, InFlight(s, e))
  {
    var r, q := DoDeliver(s, t), InFlight(s, e);
    forall j | 0 <= j < |q| ensures r.data[q[j]] == s.data[q[j]] {
      if s.rx[t].item.Some? {
        HeldElsewhere(s, where, t, e, j);
      }
    }
  }

  lemma DeliverElsewhere(s: State, t: Thread, where: Places, e: DevId)
    requires Enabled(s, Deliver(t)) && Shape(s) && Owned(s, where) && e in s.hist && e != s.rx[t].dev
    ensures e in DoDeliver(s, t).hist && ViewOf(DoDeliver(s, t), e) == ViewOf(s, e)
  {
    DeliverContents(s, t, where, e);
    assert InFlight(DoDeliver(s, t), e) == InFlight(s, e);
  }

  lemma DeliverHere(s: State, t: Thread, where: Places)
    requires Enabled(s, Deliver(t)) && Shape(s) && Owned(s, where)
    ensures var e, r := s.rx[t].dev, DoDeliver(s, t);
      && e in s.hist && e in s.devs && e in r.hist
      && ViewOf(r, e) ==
         if s.rx[t].item.Some? then ViewAccept(ViewOf(s, e), s.rx[t].pkt) else ViewDrop(ViewOf(s, e), s.rx[t].pkt)
  {
    var e, r := s.rx[t].dev, DoDeliver(s, t);
    DeliverContents(s, t, where, e);
    if s.rx[t].item.Some? {
      assert InFlight(r, e) == InFlight(s, e) + [s.rx[t].item.value];
    } else {
      assert InFlight(r, e) == InFlight(s, e);
    }
  }

  /** Only the receiver's own device sees a delivery, although the items share one table. */
  lemma DeliverSeen(s: State, t: Thread, where: Places, e: DevId)
    requires Enabled(s, Deliver(t)) && Shape(s) && Owned(s, where) && e in s.hist
    ensures e in DoDeliver(s, t).hist
    ensures e != s.rx[t].dev ==> ViewOf(DoDeliver(s, t), e) == ViewOf(s, e)
    ensures e == s.rx[t].dev && s.rx[t].item.Some? ==>
      ViewOf(DoDeliver(s, t), e) == ViewAccept(ViewOf(s, e), s.rx[t].pkt)
    ensures e == s.rx[t].dev && s.rx[t].item.None? ==> ViewOf(DoDeliver(s, t), e) == ViewDrop(ViewOf(s, e), s.rx[t].pkt)
  {
    if e == s.rx[t].dev {
      DeliverHere(s, t, where);
    } else {
      DeliverElsewhere(s, t, where, e);
    }
  }

  lemma SendSeen(s: State, d: DevId, e: DevId)
    requires Enabled(s, Send(d)) && Shape(s) && e in s.hist
    ensures ViewOf(s, d).flight != [] && !ViewOf(s, d).sent
    ensures ViewOf(DoSend(s, d), e) == if e != d then ViewOf(s, e) else ViewSend(ViewOf(s, e), s.chains)
  {
    assert InFlight(DoSend(s, d), e) == InFlight(s, e);
    var i := s.devs[d].running.value.item;
    assert InFlight(s, d)[0] == i;
    EmittedTag(s.wire, d, Output(s.chains, WireFrame(s.data[i])), e);
    assert Emitted(s.wire, e) + [] == Emitted(s.wire, e);
  }

  lemma FreeSeen(s: State, d: DevId, e: DevId)
    requires Enabled(s, Free(d)) && Shape(s) && s.pool.index < POOL_SIZE && e in s.hist
    ensures d in s.hist && ViewOf(s, d).flight != [] && ViewOf(s, d).sent
    ensures e in DoFree(s, d).hist
    ensures ViewOf(DoFree(s, d), e) == if e != d then ViewOf(s, e) else ViewFree(ViewOf(s, e))
  {
    var q, r := InFlight(s, e), InFlight(DoFree(s, d), e);
    assert InFlight(s, d)[0] == s.devs[d].running.value.item;
    if e == d {
      assert r == q[1..];
      assert Contents(s.data, r) == Contents(s.data, q)[1..];
    } else {
      assert r == q;
    }
  }

  lemma StopSeen(s: State, d: DevId, e: DevId)
    requires Enabled(s, Stop(d)) && Shape(s) && e in s.hist
    ensures ViewOf(DoStop(s, d), e) == if e != d then ViewOf(s, e) else ViewOf(s, e).(counters := None)
  {
    assert InFlight(DoStop(s, d), e) == InFlight(s, e);
  }

  lemma DequeueSeen(s: State, d: DevId, e: DevId)
    requires Enabled(s, Dequeue(d)) && e in s.hist
    ensures ViewOf(DoDequeue(s, d), e) == ViewOf(s, e)
  {
    assert InFlight(DoDequeue(s, d), e) == InFlight(s, e);
  }

  lemma AddSeen(s: State, d: DevId, name: string, e: DevId)
    requires Enabled(s, AddDevice(d, name)) && QueueShape(s) && e in s.hist
    ensures e in DoAdd(s, d, name).hist && ViewOf(DoAdd(s, d, name), e) == ViewOf(s, e)
  {
    assert InFlight(DoAdd(s, d, name), e) == InFlight(s, e);
  }

  lemma UnlinkSeen(s: State, d: DevId, e: DevId)
    requires Enabled(s, Unlink(d)) && e in s.hist
    ensures e in Apply(s, Unlink(d)).hist && ViewOf(Apply(s, Unlink(d)), e) == ViewOf(s, e)
  {
    assert InFlight(Apply(s, Unlink(d)), e) == InFlight(s, e);
  }

  /** No device sees these steps; adding an instance is not seen by the others. */
  lemma NotSeen(s: State, a: Action, e: DevId)
    requires Enabled(s, a) && QueueShape(s) && e in s.hist
    requires a.Lookup? || a.Alloc? || a.Configure? || a.Dequeue? || a.Unlink? || a.AddDevice?
    ensures e in Apply(s, a).hist && ViewOf(Apply(s, a), e) == ViewOf(s, e)
  {
    if a.Dequeue? {
      DequeueSeen(s, a.dev, e);
    } else if a.AddDevice? {
      AddSeen(s, a.dev, a.name, e);
    } else if a.Unlink? {
      UnlinkSeen(s, a.dev, e);
    } else {
      SameLane(s, Apply(s, a), e);
    }
  }

  lemma SameLane(s: State, r: State, e: DevId)
    requires r.devs == s.devs && r.stranded == s.stranded && r.data == s.data && r.wire == s.wire && r.hist == s.hist
    requires e in s.hist
    ensures ViewOf(r, e) == ViewOf(s, e)
  {
    assert InFlight(r, e) == InFlight(s, e);
  }

  lemma NewLaneIsGood(s: State, d: DevId, name: string)
    requires Enabled(s, AddDevice(d, name)) && Shape(s)
    requires forall k :: 0 <= k < |s.wire| ==> s.wire[k].dev in s.hist
    ensures Good(ViewOf(DoAdd(s, d, name), d))
  {
    EmittedNone(s.wire, d);
  }

  lemma DeliverKeeps(s: State, t: Thread, where: Places, e: DevId)
    requires Enabled(s, Deliver(t)) && Shape(s) && Owned(s, where) && e in s.hist && Good(ViewOf(s, e))
    ensures e in DoDeliver(s, t).hist && Good(ViewOf(DoDeliver(s, t), e))
  {
    DeliverSeen(s, t, where, e);
    if e == s.rx[t].dev {
      AcceptIsGood(ViewOf(s, e), s.rx[t].pkt);
      DropIsGood(ViewOf(s, e), s.rx[t].pkt);
    }
  }

  lemma SendKeeps(s: State, d: DevId, e: DevId)
    requires Enabled(s, Send(d)) && Shape(s) && e in s.hist && Good(ViewOf(s, e))
    ensures e in DoSend(s, d).hist && Good(ViewOf(DoSend(s, d), e))
  {
    SendSeen(s, d, e);
    if e == d {
      SendIsGood(ViewOf(s, e), s.chains);
    }
  }

  lemma FreeKeeps(s: State, d: DevId, where: Places, e: DevId)
    requires Enabled(s, Free(d)) && Shape(s) && Owned(s, where) && e in s.hist && Good(ViewOf(s, e))
    ensures e in DoFree(s, d).hist && Good(ViewOf(DoFree(s, d), e))
  {
    RoomToPush(s, d, where);
    FreeSeen(s, d, e);
    if e == d {
      FreeIsGood(ViewOf(s, e));
    }
  }

  lemma StopKeeps(s: State, d: DevId, e: DevId)
    requires Enabled(s, Stop(d)) && Shape(s) && e in s.hist && Good(ViewOf(s, e))
    ensures e in DoStop(s, d).hist && Good(ViewOf(DoStop(s, d), e))
  {
    StopSeen(s, d, e);
    StopIsGood(ViewOf(s, e));
  }

  lemma LaneKept(s: State, a: Action, where: Places, e: DevId)
    requires Enabled(s, a) && Shape(s) && Owned(s, where) && e in s.hist && Good(ViewOf(s, e))
    ensures e in Apply(s, a).hist && Good(ViewOf(Apply(s, a), e))
  {
    if a.Deliver? {
      DeliverKeeps(s, a.t, where, e);
    } else if a.Send? {
      SendKeeps(s, a.dev, e);
    } else if a.Free? {
      FreeKeeps(s, a.dev, where, e);
    } else if a.Stop? {
      StopKeeps(s, a.dev, e);
    } else {
      NotSeen(s, a, e);
    }
  }

  lemma DeliverInstances(s: State, t: Thread)
    requires Enabled(s, Deliver(t))
    ensures DoDeliver(s, t).hist.Keys == s.hist.Keys
  {
  }

  lemma SendInstances(s: State, d: DevId)
    requires Enabled(s, Send(d))
    ensures DoSend(s, d).hist.Keys == s.hist.Keys
  {
  }

  lemma FreeInstances(s: State, d: DevId)
    requires Enabled(s, Free(d))
    ensures DoFree(s, d).hist.Keys == s.hist.Keys
  {
  }

  /** Instances are only ever added. */
  lemma InstancesGrow(s: State, a: Action)
    requires Enabled(s, a)
    ensures Apply(s, a).hist.Keys == s.hist.Keys + if a.AddDevice? then {a.dev} else {}
  {
    match a
    case Deliver(t) => DeliverInstances(s, t);
    case Send(d) => SendInstances(s, d);
    case Free(d) => FreeInstances(s, d);
    case _ =>
  }

  lemma OnlySendsEmit(s: State, a: Action)
    requires Enabled(s, a) && !a.Send?
    ensures Apply(s, a).wire == s.wire
  {
    match a
    case Deliver(t) => assert DoDeliver(s, t).wire == s.wire;
    case Free(d) => assert DoFree(s, d).wire == s.wire;
    case _ =>
  }

  lemma SendTags(s: State, d: DevId)
    requires Enabled(s, Send(d)) && d in s.hist
    ensures var r := DoSend(s, d);
      && |s.wire| <= |r.wire|
      && forall k :: 0 <= k < |r.wire| ==> if k < |s.wire| then r.wire[k] == s.wire[k] else r.wire[k].dev == d
  {
  }

  lemma WireOwners(s: State, a: Action)
    requires Enabled(s, a) && QueueShape(s)
    requires forall k :: 0 <= k < |s.wire| ==> s.wire[k].dev in s.hist
    ensures forall k :: 0 <= k < |Apply(s, a).wire| ==> Apply(s, a).wire[k].dev in Apply(s, a).hist
  {
    InstancesGrow(s, a);
    if a.Send? {
      SendTags(s, a.dev);
    } else {
      OnlySendsEmit(s, a);
    }
  }

  lemma OneLane(s: State, a: Action, where: Places, e: DevId)
    requires Enabled(s, a) && Shape(s) && Owned(s, where) && Lanes(s) && e in Apply(s, a).hist
    ensures Good(ViewOf(Apply(s, a), e))
  {
    InstancesGrow(s, a);
    if e in s.hist {
      LaneKept(s, a, where, e);
    } else {
      NewLaneIsGood(s, a.dev, a.name);
    }
  }

  lemma LanesKept(s: State, a: Action, where: Places)
    requires Enabled(s, a) && Shape(s) && Owned(s, where) && Lanes(s)
    ensures Lanes(Apply(s, a))
  {
    WireOwners(s, a);
    var r := Apply(s, a);
    forall e | e in r.hist ensures Good(ViewOf(r, e)) {
      OneLane(s, a, where, e);
    }
  }

  lemma {:induction false} LanesThroughout(s0: State, actions: seq<Action>)
    requires Init(s0) && Run(s0, actions).Some?
    ensures Lanes(Run(s0, actions).value)
  {
    if actions != [] {
      var n := |actions| - 1;
      LanesThroughout(s0, actions[..n]);
      var where := Throughout(s0, actions[..n]);
      LanesKept(Run(s0, actions[..n]).value, actions[n], where);
    }
  }

  lemma LaneReachable(s: State, d: DevId)
    requires Reachable(s) && d in s.hist
    ensures Good(ViewOf(s, d))
  {
    var s0, actions :| Init(s0) && Run(s0, actions) == Some(s);
    LanesThroughout(s0, actions);
  }

  // ---- The theorems ----

  /**
   * FIFO numbering. Of the packets a device instance accepted, the first `done` are finished; the
   * rest are its items in flight, in acceptance order, and the k-th carries id k + 1 modulo 2^32;
   * by CounterConservation the last id is the device's packet counter. This holds for live devices
   * and for what a removed device left behind.
   */
  lemma FifoNumbering(s: State, d: DevId)
    requires Reachable(s) && d in s.hist
    ensures var h, q := s.hist[d], InFlight(s, d);
      && |q| == |h.accepted| - h.done
      && forall j :: 0 <= j < |q| ==>
           s.data[q[j]].pkt == h.accepted[h.done + j] && s.data[q[j]].pkts == U32(h.done + j + 1)
  {
    LaneReachable(s, d);
    FifoGives(s.hist[d].accepted, s.hist[d].done, Contents(s.data, InFlight(s, d)));
  }

  lemma FifoGives(accepted: seq<Packet>, done: nat, flight: seq<Work>)
    requires Fifo(accepted, done, flight)
    ensures forall j :: 0 <= j < |flight| ==>
      flight[j].pkt == accepted[done + j] && flight[j].pkts == U32(done + j + 1)
  {
  }

  /** Counter conservation: every packet that reached the locked section was accepted or dropped. */
  lemma CounterConservation(s: State, d: DevId)
    requires Reachable(s) && d in s.devs
    ensures d in s.hist
    ensures var h, dev := s.hist[d], s.devs[d];
      && h.entered == |h.accepted| + |h.dropped|
      && dev.pkts == U32(|h.accepted|) && dev.drops == U16(|h.dropped|) && dev.bytes == U32(Bytes(h.accepted))
  {
    var s0, actions :| Init(s0) && Run(s0, actions) == Some(s);
    var _ := Throughout(s0, actions);
    LaneReachable(s, d);
  }

  /**
   * The frames of accepted packets are freed by the worker, in acceptance order, each exactly once
   * and not before it was dispatched.
   */
  lemma FreedOnce(s: State, d: DevId)
    requires Reachable(s) && d in s.hist
    ensures Dispatched(ViewOf(s, d)) <= |s.hist[d].accepted|
    ensures s.hist[d].released == s.hist[d].accepted[..Dispatched(ViewOf(s, d))]
  {
    LaneReachable(s, d);
  }

  /**
   * End to end: whatever the interleaving, the datagrams a worker has emitted are those of the
   * accepted packets in acceptance order, as far as it has come, each packet's header and frame
   * sent as the configuration of that moment demands.
   */
  lemma EndToEnd(s: State, d: DevId)
    requires Reachable(s) && d in s.hist
    ensures OnTheWire(s.hist[d].accepted, s.hist[d].configs, Dispatched(ViewOf(s, d)), Emitted(s.wire, d))
  {
    LaneReachable(s, d);
  }
}
