/**
 * Every work item is in exactly one place, in every reachable state of every interleaving. From
 * this alone follows that the unguarded push of rtap_device_kwork_free stays inside the table.
 */
module Ownership {
  import opened Words
  import opened Options
  import opened Pool
  import opened Device
  import opened Dispatch
  import opened Protocol

  datatype Place =
    | InSlot(slot: nat)
    | AtReceiver(t: Thread)
    | InQueue(dev: DevId)
    | AtWorker(dev: DevId)
    | Lost(dev: DevId)

  /** Item `i` is at place `p`. */
  ghost predicate At(s: State, i: Item, p: Place) {
    match p
    case InSlot(k) => k < s.pool.index && k < |s.pool.slots| && s.pool.slots[k] == Some(i)
    case AtReceiver(t) => t in s.rx && s.rx[t].Holding? && s.rx[t].item == Some(i)
    case InQueue(d) => d in s.devs && i in s.devs[d].queue
    case AtWorker(d) => d in s.devs && s.devs[d].running.Some? && s.devs[d].running.value.item == i
    case Lost(d) => d in s.stranded && i in s.stranded[d]
  }

  /** An assignment of items to places. */
  type Places = p: seq<Place> | |p| == 16 witness seq(16, _ => InSlot(0))

  ghost predicate Owned(s: State, where: Places) {
    forall i: Item, p :: At(s, i, p) <==> where[i] == p
  }

  ghost predicate NoDup<T(!new)>(q: seq<T>) {
    forall j, k :: 0 <= j < k < |q| ==> q[j] != q[k]
  }

  /** The list of devices holds exactly the linked instances, each once. */
  ghost predicate ListShape(s: State) {
    && NoDup(s.order)
    && (forall d :: d in s.order <==> d in s.devs && s.devs[d].linked)
  }

  /** Receivers only ever hold devices that are still listed. */
  ghost predicate ReceiverShape(s: State) {
    forall t :: t in s.rx ==> s.rx[t].dev in s.devs && s.devs[s.rx[t].dev].linked
  }

  ghost predicate QueueShape(s: State) {
    && (forall d :: d in s.devs ==> NoDup(s.devs[d].queue))
    && (forall d :: d in s.stranded ==> NoDup(s.stranded[d]))
    && s.devs.Keys !! s.stranded.Keys
    && s.hist.Keys == s.devs.Keys + s.stranded.Keys
  }

  ghost predicate Shape(s: State) {
    && s.pool.Dense() && ListShape(s) && ReceiverShape(s) && QueueShape(s) && !s.fault && AllHandled(s.chains)
  }

  // ---- The places one step moves an item between ----

  ghost function Moved(s: State, a: Action, where: Places): Places
    requires Enabled(s, a)
  {
    match a
    case Alloc(t) =>
      if s.pool.InBounds() && Top(s.pool).Some? then where[Top(s.pool).value := AtReceiver(t)] else where
    case Deliver(t) =>
      if s.rx[t].item.Some? then where[s.rx[t].item.value := InQueue(s.rx[t].dev)] else where
    case Dequeue(d) => where[s.devs[d].queue[0] := AtWorker(d)]
    case Free(d) => where[s.devs[d].running.value.item := InSlot(s.pool.index)]
    case Stop(d) => seq(16, i requires 0 <= i < 16 => if where[i] == InQueue(d) then Lost(d) else where[i])
    case _ => where
  }

  lemma AllocMoves(s: State, t: Thread, where: Places)
    requires Enabled(s, Alloc(t)) && Shape(s) && Owned(s, where)
    ensures Owned(DoAlloc(s, t), Moved(s, Alloc(t), where))
  {
    var r, w := DoAlloc(s, t), Moved(s, Alloc(t), where);
    if s.pool.index > 0 {
      var i0 := Top(s.pool).value;
      assert At(s, i0, InSlot(s.pool.index - 1));
      forall i: Item, p ensures At(r, i, p) <==> w[i] == p {
        assert At(s, i, p) <==> where[i] == p;
        assert At(s, i0, p) <==> where[i0] == p;
      }
    } else {
      forall i: Item, p ensures At(r, i, p) <==> At(s, i, p) {
      }
    }
  }

  lemma DeliverMoves(s: State, t: Thread, where: Places)
    requires Enabled(s, Deliver(t)) && Shape(s) && Owned(s, where)
    ensures Owned(DoDeliver(s, t), Moved(s, Deliver(t), where))
  {
    var r, w := DoDeliver(s, t), Moved(s, Deliver(t), where);
    if s.rx[t].item.Some? {
      var i0 := s.rx[t].item.value;
      assert At(s, i0, AtReceiver(t));
      forall i: Item, p ensures At(r, i, p) <==> w[i] == p {
        assert At(s, i, p) <==> where[i] == p;
        assert At(s, i0, p) <==> where[i0] == p;
      }
    } else {
      forall i: Item, p ensures At(r, i, p) <==> At(s, i, p) {
      }
    }
  }

  lemma DequeueMoves(s: State, d: DevId, where: Places)
    requires Enabled(s, Dequeue(d)) && Shape(s) && Owned(s, where)
    ensures Owned(DoDequeue(s, d), Moved(s, Dequeue(d), where))
  {
    var r, w := DoDequeue(s, d), Moved(s, Dequeue(d), where);
    var q := s.devs[d].queue;
    assert At(s, q[0], InQueue(d));
    assert forall i: Item :: i in q[1..] <==> i in q && i != q[0];
    forall i: Item, p ensures At(r, i, p) <==> w[i] == p {
      assert At(s, i, p) <==> where[i] == p;
      assert At(s, q[0], p) <==> where[q[0]] == p;
    }
  }

  lemma FreeMoves(s: State, d: DevId, where: Places)
    requires Enabled(s, Free(d)) && Shape(s) && Owned(s, where) && s.pool.index < POOL_SIZE
    ensures Owned(DoFree(s, d), Moved(s, Free(d), where))
  {
    var r, w := DoFree(s, d), Moved(s, Free(d), where);
    var i0 := s.devs[d].running.value.item;
    assert At(s, i0, AtWorker(d));
    forall i: Item, p ensures At(r, i, p) <==> w[i] == p {
      assert At(s, i, p) <==> where[i] == p;
      assert At(s, i0, p) <==> where[i0] == p;
    }
  }

  lemma StopMoves(s: State, d: DevId, where: Places)
    requires Enabled(s, Stop(d)) && Shape(s) && Owned(s, where)
    ensures Owned(DoStop(s, d), Moved(s, Stop(d), where))
  {
    var r, w := DoStop(s, d), Moved(s, Stop(d), where);
    forall i: Item, p ensures At(r, i, p) <==> w[i] == p {
      assert At(s, i, p) <==> where[i] == p;
      assert At(s, i, InQueue(d)) <==> where[i] == InQueue(d);
    }
  }

  /** Device `b` keeps the same items in its queue and at its worker as `a`. */
  ghost predicate SameHeld(a: DeviceState, b: DeviceState) {
    && a.queue == b.queue && a.running.Some? == b.running.Some?
    && (a.running.Some? ==> a.running.value.item == b.running.value.item)
  }

  lemma SameDevices(s: State, r: State, where: Places)
    requires Owned(s, where) && r.pool == s.pool && r.rx == s.rx && r.stranded == s.stranded
    requires r.devs.Keys == s.devs.Keys && forall d :: d in s.devs ==> SameHeld(s.devs[d], r.devs[d])
    ensures Owned(r, where)
  {
    forall i: Item, p ensures At(r, i, p) <==> At(s, i, p) {
    }
  }

  lemma LookupMoves(s: State, t: Thread, name: string, pkt: Packet, where: Places)
    requires Enabled(s, Lookup(t, name, pkt)) && Owned(s, where)
    ensures Owned(DoLookup(s, t, name, pkt), where)
  {
    var r := DoLookup(s, t, name, pkt);
    forall i: Item, p ensures At(r, i, p) <==> At(s, i, p) {
    }
  }

  lemma AddMoves(s: State, d: DevId, name: string, where: Places)
    requires Enabled(s, AddDevice(d, name)) && QueueShape(s) && Owned(s, where)
    ensures Owned(DoAdd(s, d, name), where)
  {
    var r := DoAdd(s, d, name);
    forall i: Item, p ensures At(r, i, p) <==> At(s, i, p) {
    }
  }

  lemma SendMoves(s: State, d: DevId, where: Places)
    requires Enabled(s, Send(d)) && Owned(s, where)
    ensures Owned(DoSend(s, d), where)
  {
    SameDevices(s, DoSend(s, d), where);
  }

  /** Looking up, sending, adding, unlinking and configuring move no item. */
  lemma OthersMoveNothing(s: State, a: Action, where: Places)
    requires Enabled(s, a) && QueueShape(s) && Owned(s, where)
    requires a.Lookup? || a.Send? || a.AddDevice? || a.Unlink? || a.Configure?
    ensures Owned(Apply(s, a), where)
  {
    if a.Lookup? {
      LookupMoves(s, a.t, a.name, a.pkt, where);
    } else if a.AddDevice? {
      AddMoves(s, a.dev, a.name, where);
    } else if a.Send? {
      SendMoves(s, a.dev, where);
    } else {
      SameDevices(s, Apply(s, a), where);
    }
  }

  // ---- The pool has room for every item that is out of it ----

  lemma {:induction false} Pigeonhole(q: seq<int>, n: nat)
    requires NoDup(q) && forall k :: 0 <= k < |q| ==> 0 <= q[k] < n
    ensures |q| <= n
  {
    if q != [] {
      assert 0 <= q[0] < n;
      if k :| 0 <= k < |q| && q[k] == n - 1 {
        Pigeonhole(q[..k] + q[k + 1..], n - 1);
      } else {
        Pigeonhole(q, n - 1);
      }
    }
  }

  /** A full stack holds all sixteen items; so while a worker holds one, there is a free slot. */
  lemma RoomToPush(s: State, d: DevId, where: Places)
    requires Enabled(s, Free(d)) && s.pool.Dense() && Owned(s, where)
    ensures s.pool.index < POOL_SIZE
  {
    if s.pool.index == POOL_SIZE {
      var i0 := s.devs[d].running.value.item;
      assert At(s, i0, AtWorker(d));
      var items: seq<int> := seq(POOL_SIZE, k requires 0 <= k < POOL_SIZE => s.pool.slots[k].value as int);
      forall k | 0 <= k < POOL_SIZE ensures where[items[k]] == InSlot(k) {
        assert At(s, items[k], InSlot(k));
      }
      Pigeonhole(items + [i0], POOL_SIZE);
    }
  }

  lemma HeadOnce<T(!new)>(q: seq<T>)
    requires NoDup(q) && q != []
    ensures NoDup(q[1..]) && q[0] !in q[1..]
  {
    forall k | 0 <= k < |q[1..]| ensures q[1..][k] != q[0] {
      assert q[1..][k] == q[k + 1];
    }
  }

  lemma WithoutIs(order: seq<DevId>, d: DevId)
    requires NoDup(order)
    ensures NoDup(Without(order, d))
    ensures forall e :: e in Without(order, d) <==> e in order && e != d
  {
    if order != [] {
      assert order == [order[0]] + order[1..];
      HeadOnce(order);
      if order[0] != d {
        WithoutIs(order[1..], d);
      }
    }
  }

  /** Lookup yields the first listed device of that name, or none has it. */
  lemma {:induction false} FoundIsListed(devs: map<DevId, DeviceState>, order: seq<DevId>, name: string)
    ensures FindByName(devs, order, name).None? ==> forall j :: 0 <= j < |order| ==> !Named(devs, order[j], name)
    ensures FindByName(devs, order, name).Some? ==> exists k ::
      && 0 <= k < |order| && order[k] == FindByName(devs, order, name).value && Named(devs, order[k], name)
      && forall j :: 0 <= j < k ==> !Named(devs, order[j], name)
  {
    if order != [] && !Named(devs, order[0], name) {
      FoundIsListed(devs, order[1..], name);
      if FindByName(devs, order, name).Some? {
        var k :| 0 <= k < |order[1..]| && order[1..][k] == FindByName(devs, order, name).value
          && Named(devs, order[1..][k], name) && forall j :: 0 <= j < k ==> !Named(devs, order[1..][j], name);
        assert order[k + 1] == order[1..][k];
        assert forall j :: 0 < j < k + 1 ==> order[j] == order[1..][j - 1];
      }
    }
  }

  /** Every step keeps the shape of the state, and no step faults. */
  lemma ShapeKept(s: State, a: Action, where: Places)
    requires Enabled(s, a) && Shape(s) && Owned(s, where)
    requires a.Free? ==> s.pool.index < POOL_SIZE
    ensures Shape(Apply(s, a))
  {
    match a
    case Lookup(t, name, pkt) => LookupShape(s, t, name, pkt);
    case Alloc(t) => PushPop(s.pool, 0);
    case Deliver(t) => DeliverShape(s, t, where);
    case Dequeue(d) => DequeueShape(s, d);
    case Send(d) => SendShape(s, d);
    case Free(d) => FreeShape(s, d);
    case AddDevice(d, name) => AddShape(s, d, name);
    case Unlink(d) => UnlinkShape(s, d);
    case Stop(d) => StopShape(s, d);
    case Configure(chains) =>
  }

  lemma LookupShape(s: State, t: Thread, name: string, pkt: Packet)
    requires Shape(s)
    ensures Shape(DoLookup(s, t, name, pkt))
  {
    FoundIsListed(s.devs, s.order, name);
  }

  /** Steps that keep the list of devices, and at most finish a receiver, keep the shape if queues stay good. */
  lemma DevicesShape(s: State, r: State)
    requires ListShape(s) && ReceiverShape(s) && QueueShape(s)
    requires r.order == s.order && r.stranded == s.stranded && r.hist.Keys == s.hist.Keys
    requires forall t :: t in r.rx ==> t in s.rx && r.rx[t] == s.rx[t]
    requires r.devs.Keys == s.devs.Keys
    requires forall d :: d in s.devs ==> r.devs[d].linked == s.devs[d].linked && NoDup(r.devs[d].queue)
    ensures ListShape(r) && ReceiverShape(r) && QueueShape(r)
  {
  }

  lemma DequeueShape(s: State, d: DevId)
    requires Enabled(s, Dequeue(d)) && Shape(s)
    ensures Shape(DoDequeue(s, d))
  {
    assert NoDup(s.devs[d].queue[1..]);
    DevicesShape(s, DoDequeue(s, d));
  }

  lemma SendShape(s: State, d: DevId)
    requires Enabled(s, Send(d)) && Shape(s)
    ensures Shape(DoSend(s, d))
  {
    BumpAllHandled(s.chains, U32(|WireFrame(s.data[s.devs[d].running.value.item])|));
    DevicesShape(s, DoSend(s, d));
  }

  lemma FreeShape(s: State, d: DevId)
    requires Enabled(s, Free(d)) && Shape(s) && s.pool.index < POOL_SIZE
    ensures Shape(DoFree(s, d))
  {
    PushPop(s.pool, s.devs[d].running.value.item);
    DevicesShape(s, DoFree(s, d));
  }

  lemma AddShape(s: State, d: DevId, name: string)
    requires Enabled(s, AddDevice(d, name)) && Shape(s)
    ensures Shape(DoAdd(s, d, name))
  {
    assert d !in s.order;
  }

  lemma UnlinkShape(s: State, d: DevId)
    requires Enabled(s, Unlink(d)) && Shape(s)
    ensures Shape(Apply(s, Unlink(d)))
  {
    WithoutIs(s.order, d);
  }

  lemma StopShape(s: State, d: DevId)
    requires Enabled(s, Stop(d)) && Shape(s)
    ensures Shape(DoStop(s, d))
  {
  }

  lemma BumpAllHandled<R>(chains: seq<Chain<R>>, len: u32)
    requires AllHandled(chains)
    ensures AllHandled(BumpAll(chains, len))
  {
    var bumped := BumpAll(chains, len);
    forall c, f | 0 <= c < |bumped| && 0 <= f < |bumped[c].filters| ensures Handled(bumped[c].filters[f].ftype) {
      assert Handled(chains[c].filters[f].ftype);
    }
  }

  lemma DeliverShape(s: State, t: Thread, where: Places)
    requires Enabled(s, Deliver(t)) && Shape(s) && Owned(s, where)
    ensures Shape(DoDeliver(s, t))
  {
    var d := s.rx[t].dev;
    if s.rx[t].item.Some? {
      var i := s.rx[t].item.value;
      assert At(s, i, AtReceiver(t)) && !At(s, i, InQueue(d));
      assert NoDup(s.devs[d].queue + [i]);
    }
    DevicesShape(s, DoDeliver(s, t));
  }

  lemma Step(s: State, a: Action, where: Places) returns (next: Places)
    requires Enabled(s, a) && Shape(s) && Owned(s, where)
    ensures Shape(Apply(s, a)) && Owned(Apply(s, a), next)
  {
    next := Moved(s, a, where);
    match a {
      case Alloc(t) => AllocMoves(s, t, where);
      case Deliver(t) => DeliverMoves(s, t, where);
      case Dequeue(d) => DequeueMoves(s, d, where);
      case Free(d) => RoomToPush(s, d, where); FreeMoves(s, d, where);
      case Stop(d) => StopMoves(s, d, where);
      case _ => OthersMoveNothing(s, a, where);
    }
    ShapeKept(s, a, where);
  }

  lemma Start(s: State) returns (where: Places)
    requires Init(s)
    ensures Shape(s) && Owned(s, where)
  {
    where := seq(16, i requires 0 <= i < 16 => InSlot(i));
    forall i: Item, p ensures At(s, i, p) <==> where[i] == p {
    }
  }

  lemma {:induction false} Throughout(s0: State, actions: seq<Action>) returns (where: Places)
    requires Init(s0) && Run(s0, actions).Some?
    ensures Shape(Run(s0, actions).value) && Owned(Run(s0, actions).value, where)
  {
    if actions == [] {
      where := Start(s0);
    } else {
      var n := |actions| - 1;
      var before := Throughout(s0, actions[..n]);
      where := Step(Run(s0, actions[..n]).value, actions[n], before);
    }
  }

  /** In every reachable state each of the sixteen items is in one place, and in only one. */
  lemma OnePlaceEach(s: State, i: Item)
    requires Reachable(s)
    ensures exists p :: At(s, i, p) && forall q :: At(s, i, q) ==> q == p
  {
    var s0, actions :| Init(s0) && Run(s0, actions) == Some(s);
    var where := Throughout(s0, actions);
    assert At(s, i, where[i]);
  }

  /** Inside a queue, and among the items a removed device left behind, no item is listed twice. */
  lemma OncePerQueue(s: State, d: DevId)
    requires Reachable(s)
    ensures d in s.devs ==> NoDup(s.devs[d].queue)
    ensures d in s.stranded ==> NoDup(s.stranded[d])
  {
    var s0, actions :| Init(s0) && Run(s0, actions) == Some(s);
    var _ := Throughout(s0, actions);
  }

  /**
   * No run ever touches memory it should not: no push past the last slot, no access through a
   * freed device. A pop yields an item exactly when the index is positive.
   */
  lemma NeverFaults(s: State)
    requires Reachable(s)
    ensures !s.fault && s.pool.Dense()
    ensures Top(s.pool).Some? <==> s.pool.index > 0
    ensures forall d :: Enabled(s, Free(d)) ==> s.pool.index < POOL_SIZE
    ensures forall t :: t in s.rx ==> s.rx[t].dev in s.devs
  {
    var s0, actions :| Init(s0) && Run(s0, actions) == Some(s);
    var where := Throughout(s0, actions);
    forall d | Enabled(s, Free(d)) ensures s.pool.index < POOL_SIZE {
      RoomToPush(s, d, where);
    }
  }

  // ---- Items a removed device leaves behind ----

  ghost predicate IsLost(s: State, i: Item) {
    exists d :: At(s, i, Lost(d))
  }

  lemma StopStrands(s: State, d: DevId)
    requires Enabled(s, Stop(d)) && QueueShape(s)
    ensures forall i: Item :: IsLost(DoStop(s, d), i) <==> IsLost(s, i) || i in s.devs[d].queue
  {
    var r := DoStop(s, d);
    forall i: Item ensures IsLost(r, i) <==> IsLost(s, i) || i in s.devs[d].queue {
      assert At(r, i, Lost(d)) <==> i in s.devs[d].queue;
      forall e | e != d ensures At(r, i, Lost(e)) <==> At(s, i, Lost(e)) {
      }
      assert !At(s, i, Lost(d));
    }
  }

  lemma OnlyStopsStrand(s: State, a: Action)
    requires Enabled(s, a) && !a.Stop?
    ensures Apply(s, a).stranded == s.stranded
  {
    match a
    case Deliver(t) => assert DoDeliver(s, t).stranded == s.stranded;
    case Send(d) => assert DoSend(s, d).stranded == s.stranded;
    case Free(d) => assert DoFree(s, d).stranded == s.stranded;
    case _ =>
  }

  /** What is still queued at the worker that `a` stops, if it is such a step, in the state before it. */
  ghost function LeftBehind(s: Option<State>, a: Action): seq<Item> {
    if a.Stop? && s.Some? && a.dev in s.value.devs then s.value.devs[a.dev].queue else []
  }

  /** Step `k` of the run stops a worker whose queue still holds the item. */
  ghost predicate Strands(s0: State, actions: seq<Action>, k: nat, i: Item)
    requires k < |actions|
  {
    i in LeftBehind(Run(s0, actions[..k]), actions[k])
  }

  lemma LostStays(s: State, a: Action, i: Item, d: DevId)
    requires Enabled(s, a) && QueueShape(s) && At(s, i, Lost(d))
    ensures At(Apply(s, a), i, Lost(d))
  {
    if !a.Stop? {
      OnlyStopsStrand(s, a);
    }
  }

  /** What is lost stays lost, whatever happens next. */
  lemma {:induction false} LostForever(s0: State, actions: seq<Action>, more: seq<Action>, i: Item, d: DevId)
    requires Init(s0) && Run(s0, actions).Some? && At(Run(s0, actions).value, i, Lost(d))
    requires Run(s0, actions + more).Some?
    ensures At(Run(s0, actions + more).value, i, Lost(d))
  {
    if more == [] {
      assert actions + more == actions;
    } else {
      var n := |more| - 1;
      var before := actions + more[..n];
      assert actions + more == before + [more[n]];
      RunLast(s0, before, more[n]);
      LostForever(s0, actions, more[..n], i, d);
      var _ := Throughout(s0, before);
      LostStays(Run(s0, before).value, more[n], i, d);
    }
  }

  lemma RunLast(s0: State, actions: seq<Action>, a: Action)
    requires Run(s0, actions + [a]).Some?
    ensures Run(s0, actions).Some? && Enabled(Run(s0, actions).value, a)
    ensures Run(s0, actions + [a]).value == Apply(Run(s0, actions).value, a)
  {
    assert (actions + [a])[..|actions|] == actions;
  }

  lemma LossStep(s: State, a: Action, i: Item)
    requires Enabled(s, a) && QueueShape(s)
    ensures IsLost(Apply(s, a), i) <==> IsLost(s, i) || i in LeftBehind(Some(s), a)
  {
    if a.Stop? {
      StopStrands(s, a.dev);
    } else {
      OnlyStopsStrand(s, a);
      assert forall d :: At(Apply(s, a), i, Lost(d)) <==> At(s, i, Lost(d));
    }
  }

  /**
   * An item is lost at the end of a run if and only if some step stopped a worker with the item
   * still in its queue; so what is lost is never recovered, and nothing else is ever lost.
   */
  lemma {:induction false} LostExactly(s0: State, actions: seq<Action>, i: Item)
    requires Init(s0) && Run(s0, actions).Some?
    ensures IsLost(Run(s0, actions).value, i) <==> exists k :: 0 <= k < |actions| && Strands(s0, actions, k, i)
  {
    if actions != [] {
      var before, a := actions[..|actions| - 1], actions[|actions| - 1];
      assert actions == before + [a];
      RunLast(s0, before, a);
      var _ := Throughout(s0, before);
      LostExactly(s0, before, i);
      LossStep(Run(s0, before).value, a, i);
      StrandsSplit(s0, before, a, i);
    }
  }

  /** The steps that strand an item are those of the run before, and possibly the last one. */
  lemma StrandsSplit(s0: State, before: seq<Action>, a: Action, i: Item)
    ensures (exists k :: 0 <= k < |before + [a]| && Strands(s0, before + [a], k, i)) <==>
      || (exists k :: 0 <= k < |before| && Strands(s0, before, k, i))
      || i in LeftBehind(Run(s0, before), a)
  {
    var n := |before|;
    assert (before + [a])[..n] == before;
    forall k | 0 <= k < n ensures Strands(s0, before + [a], k, i) <==> Strands(s0, before, k, i) {
      assert (before + [a])[..k] == before[..k];
    }
    assert Strands(s0, before + [a], n, i) <==> i in LeftBehind(Run(s0, before), a);
  }

  /** Workers are stopped with empty queues only, which can be checked before each removal. */
  ghost predicate StopsIdle(s0: State, actions: seq<Action>) {
    forall k :: 0 <= k < |actions| ==> LeftBehind(Run(s0, actions[..k]), actions[k]) == []
  }

  /** A run loses no item if and only if it stops workers only while their queues are empty. */
  lemma NothingLost(s0: State, actions: seq<Action>)
    requires Init(s0) && Run(s0, actions).Some?
    ensures (forall i: Item :: !IsLost(Run(s0, actions).value, i)) <==> StopsIdle(s0, actions)
  {
    var s := Run(s0, actions).value;
    forall i: Item ensures IsLost(s, i) <==> exists k :: 0 <= k < |actions| && Strands(s0, actions, k, i) {
      LostExactly(s0, actions, i);
    }
    if k, i: Item :| 0 <= k < |actions| && Strands(s0, actions, k, i) {
      assert IsLost(s, i) && !StopsIdle(s0, actions);
    } else {
      forall k | 0 <= k < |actions| ensures LeftBehind(Run(s0, actions[..k]), actions[k]) == [] {
        var q := LeftBehind(Run(s0, actions[..k]), actions[k]);
        assert q != [] ==> Strands(s0, actions, k, q[0]);
      }
    }
  }

  /** No receiver is between its steps, no queue is filled and no worker busy. */
  ghost predicate Quiet(s: State) {
    && (forall t :: t in s.rx ==> s.rx[t].Found?)
    && (forall d :: d in s.devs ==> s.devs[d].queue == [] && s.devs[d].running.None?)
  }

  /**
   * Every item comes back to the pool: once all is quiet, the stack is full again if and only if
   * the run stopped workers only while their queues were empty.
   */
  lemma PoolRefills(s0: State, actions: seq<Action>)
    requires Init(s0) && Run(s0, actions).Some? && Quiet(Run(s0, actions).value)
    ensures Run(s0, actions).value.pool.index == POOL_SIZE <==> StopsIdle(s0, actions)
  {
    var s := Run(s0, actions).value;
    var where := Throughout(s0, actions);
    NothingLost(s0, actions);
    if forall i: Item :: !IsLost(s, i) {
      AllSlotsFilled(s, where);
    } else if s.pool.index == POOL_SIZE {
      NoneLostWhenFull(s, where);
    }
  }

  lemma AllSlotsFilled(s: State, where: Places)
    requires s.pool.Dense() && Owned(s, where) && Quiet(s) && forall i: Item :: !IsLost(s, i)
    ensures s.pool.index == POOL_SIZE
  {
    forall i: Item ensures where[i].InSlot? && At(s, i, where[i]) {
      assert At(s, i, where[i]) && !IsLost(s, i);
      assert !where[i].Lost?;
    }
    var slots: seq<int> := seq(POOL_SIZE, i requires 0 <= i < POOL_SIZE => where[i].slot);
    Pigeonhole(slots, s.pool.index);
  }

  lemma NoneLostWhenFull(s: State, where: Places)
    requires s.pool.Dense() && Owned(s, where) && s.pool.index == POOL_SIZE
    ensures forall i: Item :: !IsLost(s, i)
  {
    forall i: Item ensures !IsLost(s, i) {
      var items: seq<int> := seq(POOL_SIZE, k requires 0 <= k < POOL_SIZE => s.pool.slots[k].value as int);
      forall k | 0 <= k < POOL_SIZE ensures where[items[k]] == InSlot(k) {
        assert At(s, items[k], InSlot(k));
      }
      if d :| At(s, i, Lost(d)) {
        Pigeonhole(items + [i], POOL_SIZE);
      }
    }
  }

  /** A run that loses an item: the device goes while its only packet waits for the worker. */
  function LosingRun(pkt: Packet): seq<Action> {
    [AddDevice(0, "w"), Lookup(0, "w", pkt), Alloc(0), Deliver(0), Unlink(0), Stop(0)]
  }

  lemma RunOne(s0: State, actions: seq<Action>, s: State, a: Action)
    requires Run(s0, actions) == Some(s) && Enabled(s, a)
    ensures Run(s0, actions + [a]) == Some(Apply(s, a))
  {
    assert (actions + [a])[..|actions|] == actions;
  }

  lemma PacketPopped(s0: State, pkt: Packet) returns (s: State)
    requires Init(s0)
    ensures Run(s0, LosingRun(pkt)[..3]) == Some(s) && s.hist == map[0 := History([], 0, [], 0, [], [])]
    ensures s.devs == map[0 := NewDevice("w")] && s.rx == map[0 := Holding(0, pkt, Some(15))]
  {
    var a := LosingRun(pkt);
    var s1, s2 := DoAdd(s0, 0, "w"), DoLookup(DoAdd(s0, 0, "w"), 0, "w", pkt);
    RunOne(s0, [], s0, a[0]);
    RunOne(s0, [a[0]], s1, a[1]);
    RunOne(s0, [a[0], a[1]], s2, a[2]);
    assert a[..3] == [a[0], a[1]] + [a[2]];
    s := DoAlloc(s2, 0);
  }

  lemma PacketQueued(s0: State, pkt: Packet) returns (s: State)
    requires Init(s0)
    ensures Run(s0, LosingRun(pkt)[..4]) == Some(s) && s.rx == map[]
    ensures s.devs.Keys == {0} && s.devs[0].linked && s.devs[0].running.None? && s.devs[0].queue == [15]
  {
    var a := LosingRun(pkt);
    var s3 := PacketPopped(s0, pkt);
    RunOne(s0, a[..3], s3, a[3]);
    assert a[..4] == a[..3] + [a[3]];
    s := DoDeliver(s3, 0);
  }

  /** Such runs exist: in this one item 15 is lost, wherever it starts. */
  lemma LossHappens(s0: State, pkt: Packet)
    requires Init(s0)
    ensures Run(s0, LosingRun(pkt)).Some? && At(Run(s0, LosingRun(pkt)).value, 15, Lost(0))
  {
    var a := LosingRun(pkt);
    var s4 := PacketQueued(s0, pkt);
    RunOne(s0, a[..4], s4, a[4]);
    assert a[..5] == a[..4] + [a[4]];
    var s5 := Apply(s4, a[4]);
    assert s5.devs[0].queue == [15];
    RunOne(s0, a[..5], s5, a[5]);
    assert a == a[..5] + [a[5]];
  }

  lemma LostIsNowhereElse(s: State, where: Places, i: Item, p: Place)
    requires Owned(s, where) && IsLost(s, i) && At(s, i, p)
    ensures p.Lost?
  {
    var d :| At(s, i, Lost(d));
    assert where[i] == Lost(d) && where[i] == p;
  }

  /** Once removals have stranded all sixteen items, the pool is empty and no receiver holds an item. */
  lemma AllLostNothingLeft(s: State)
    requires Reachable(s) && forall i: Item :: IsLost(s, i)
    ensures s.pool.InBounds() && Top(s.pool).None?
    ensures forall t :: t in s.rx && s.rx[t].Holding? ==> s.rx[t].item.None?
  {
    var s0, actions :| Init(s0) && Run(s0, actions) == Some(s);
    var where := Throughout(s0, actions);
    if s.pool.index > 0 {
      LostIsNowhereElse(s, where, s.pool.slots[s.pool.index - 1].value, InSlot(s.pool.index - 1));
    }
    forall t | t in s.rx && s.rx[t].Holding? ensures s.rx[t].item.None? {
      if s.rx[t].item.Some? {
        LostIsNowhereElse(s, where, s.rx[t].item.value, AtReceiver(t));
      }
    }
  }
}
