/**
 * The receive/worker protocol as a transition system with one step per critical section: any
 * number of receivers, any number of devices with one worker each, one shared pool of work items.
 */
module Protocol {
  import opened Words
  import opened Options
  import opened Lists
  import opened Pool
  import opened Device
  import opened Dispatch

  type Thread = nat
  type DevId = nat

  /** Where a receiver is between its critical sections. */
  datatype Receiver =
    | Found(dev: DevId, pkt: Packet)
    | Holding(dev: DevId, pkt: Packet, item: Option<Item>)

  /** A datagram on the wire, tagged with the device whose worker sent it. */
  datatype Tagged = Tagged(dev: DevId, datagram: Datagram)

  /**
   * What has happened to a device instance so far; no step consults it. `configs` holds the
   * configuration each dispatched frame met, `released` the captured frames freed after dispatch.
   */
  datatype History = History(
    accepted: seq<Packet>, entered: nat, dropped: seq<Packet>, done: nat, configs: seq<Chains>, released: seq<Packet>)

  /**
   * `fault` records an access outside the free stack or through a pointer to a freed device.
   * `base` and `lens` record the configuration last written and the frames dispatched since.
   */
  datatype State = State(
    pool: FreeStack, data: Table, rx: map<Thread, Receiver>,
    devs: map<DevId, DeviceState>, order: seq<DevId>, stranded: map<DevId, seq<Item>>,
    chains: Chains, wire: seq<Tagged>, fault: bool,
    hist: map<DevId, History>, base: Chains, lens: seq<u32>)

  datatype Action =
    | Lookup(t: Thread, name: string, pkt: Packet)
    | Alloc(t: Thread)
    | Deliver(t: Thread)
    | Dequeue(dev: DevId)
    | Send(dev: DevId)
    | Free(dev: DevId)
    | AddDevice(dev: DevId, name: string)
    | Unlink(dev: DevId)
    | Stop(dev: DevId)
    | Configure(chains: Chains)

  /** rtap_device_findbyname: the first linked device of that name. */
  function FindByName(devs: map<DevId, DeviceState>, order: seq<DevId>, name: string): Option<DevId> {
    First(order, (d: DevId) => Named(devs, d, name))
  }

  predicate Named(devs: map<DevId, DeviceState>, d: DevId, name: string) {
    d in devs && devs[d].name == name
  }

  function Without(order: seq<DevId>, d: DevId): seq<DevId> {
    WithoutFirst(order, (e: DevId) => e == d)
  }

  function Tag(d: DevId, out: seq<Datagram>): (r: seq<Tagged>)
    ensures |r| == |out| && forall i :: 0 <= i < |out| ==> r[i] == Tagged(d, out[i])
  {
    seq(|out|, i requires 0 <= i < |out| => Tagged(d, out[i]))
  }

  ghost predicate Enabled(s: State, a: Action) {
    match a
    case Lookup(t, _, _) => t !in s.rx
    case Alloc(t) => t in s.rx && s.rx[t].Found?
    case Deliver(t) => t in s.rx && s.rx[t].Holding?
    case Dequeue(d) => d in s.devs && s.devs[d].running.None? && s.devs[d].queue != []
    case Send(d) => d in s.devs && s.devs[d].running.Some? && !s.devs[d].running.value.sent
    case Free(d) => d in s.devs && s.devs[d].running.Some? && s.devs[d].running.value.sent
    case AddDevice(d, _) => d !in s.hist
    // dev_remove_pack waits until no receiver is inside the handler of this device.
    case Unlink(d) => d in s.devs && s.devs[d].linked && forall t :: t in s.rx ==> s.rx[t].dev != d
    // kthread_stop waits until the worker has finished the item it is on.
    case Stop(d) => d in s.devs && !s.devs[d].linked && s.devs[d].running.None?
    case Configure(chains) => AllHandled(chains)
  }

  ghost function Apply(s: State, a: Action): State
    requires Enabled(s, a)
  {
    match a
    case Lookup(t, name, pkt) => DoLookup(s, t, name, pkt)
    case Alloc(t) => DoAlloc(s, t)
    case Deliver(t) => DoDeliver(s, t)
    case Dequeue(d) => DoDequeue(s, d)
    case Send(d) => DoSend(s, d)
    case Free(d) => DoFree(s, d)
    case AddDevice(d, name) => DoAdd(s, d, name)
    case Unlink(d) => s.(order := Without(s.order, d), devs := s.devs[d := s.devs[d].(linked := false)])
    case Stop(d) => DoStop(s, d)
    case Configure(chains) => s.(chains := chains, base := chains, lens := [])
  }

  /** device.c:283. An unknown device makes the receiver return at once. */
  ghost function DoLookup(s: State, t: Thread, name: string, pkt: Packet): State {
    match FindByName(s.devs, s.order, name)
    case None => s
    case Some(d) => s.(rx := s.rx[t := Found(d, pkt)])
  }

  /** device.c:180-196, under the pool lock. */
  ghost function DoAlloc(s: State, t: Thread): State
    requires Enabled(s, Alloc(t))
  {
    if !s.pool.InBounds() then s.(fault := true)
    else s.(rx := s.rx[t := Holding(s.rx[t].dev, s.rx[t].pkt, Top(s.pool))], pool := Popped(s.pool))
  }

  /** device.c:290-327, under the device lock. */
  ghost function DoDeliver(s: State, t: Thread): State
    requires Enabled(s, Deliver(t))
  {
    var Holding(d, pkt, item) := s.rx[t];
    if d !in s.devs || d !in s.hist then s.(fault := true)
    else if item.Some? then
      s.(rx := s.rx - {t}, data := s.data[item.value := Stamp(s.devs[d], pkt)],
         devs := s.devs[d := Accepted(s.devs[d], item.value, |pkt.frame|)],
         hist := s.hist[d := s.hist[d].(entered := s.hist[d].entered + 1, accepted := s.hist[d].accepted + [pkt])])
    else
      s.(rx := s.rx - {t}, devs := s.devs[d := Dropped(s.devs[d])],
         hist := s.hist[d := s.hist[d].(entered := s.hist[d].entered + 1, dropped := s.hist[d].dropped + [pkt])])
  }

  /** The kernel's worker loop takes the oldest item. */
  ghost function DoDequeue(s: State, d: DevId): State
    requires Enabled(s, Dequeue(d))
  {
    var dev := s.devs[d];
    s.(devs := s.devs[d := dev.(running := Some(Running(dev.queue[0], false)), queue := dev.queue[1..])])
  }

  /** device.c:234-264: header, dispatch under the chain lock, release of the frame. */
  ghost function DoSend(s: State, d: DevId): State
    requires Enabled(s, Send(d))
  {
    var dev := s.devs[d];
    var work := s.data[dev.running.value.item];
    var skb := WireFrame(work);
    var len := U32(|skb|);
    if d !in s.hist then s.(fault := true)
    else
      s.(devs := s.devs[d := dev.(running := Some(Running(dev.running.value.item, true)))],
         wire := s.wire + Tag(d, Output(s.chains, skb)), chains := BumpAll(s.chains, len),
         hist := s.hist[d := s.hist[d].(configs := s.hist[d].configs + [s.chains],
                                        released := s.hist[d].released + [work.pkt])],
         lens := s.lens + [len])
  }

  /** device.c:202-213, under the pool lock; nothing there guards the array index. */
  ghost function DoFree(s: State, d: DevId): State
    requires Enabled(s, Free(d))
  {
    if !s.pool.InBounds() || s.pool.index == POOL_SIZE || d !in s.hist then s.(fault := true)
    else
      s.(pool := Pushed(s.pool, s.devs[d].running.value.item), devs := s.devs[d := s.devs[d].(running := None)],
         hist := s.hist[d := s.hist[d].(done := s.hist[d].done + 1)])
  }

  /** device.c:391-415: a new instance at the tail of the list. */
  ghost function DoAdd(s: State, d: DevId, name: string): State {
    s.(devs := s.devs[d := NewDevice(name)], order := s.order + [d],
       hist := s.hist[d := History([], 0, [], 0, [], [])])
  }

  /** device.c:358-359: what is still queued is never run, and never freed. */
  ghost function DoStop(s: State, d: DevId): State
    requires Enabled(s, Stop(d))
  {
    s.(devs := s.devs - {d}, stranded := s.stranded[d := s.devs[d].queue])
  }

  /** The module as loaded: all items free, no device, nothing sent. */
  ghost predicate Init(s: State) {
    && s.pool == Full() && s.rx == map[] && s.devs == map[] && s.order == [] && s.stranded == map[]
    && s.wire == [] && !s.fault && s.hist == map[] && AllHandled(s.chains) && s.base == s.chains && s.lens == []
  }

  /** The state after a run, if every action was enabled in turn. */
  ghost function Run(s: State, actions: seq<Action>): Option<State> {
    if actions == [] then Some(s)
    else
      var n := |actions| - 1;
      var m :- Run(s, actions[..n]);
      if Enabled(m, actions[n]) then Some(Apply(m, actions[n])) else None
  }

  /** A state some run of the loaded module leads to. */
  ghost predicate Reachable(s: State) {
    exists s0, actions :: Init(s0) && Run(s0, actions) == Some(s)
  }
}
