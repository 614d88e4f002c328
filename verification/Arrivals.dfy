/** Which device a packet ends up with: the first listed one of the name it came in under. */
module Arrivals {
  import opened Lists
  import opened Device
  import opened Protocol
  import opened Ownership

  /** Instance `d` is the first in the list of devices that has this name. */
  ghost predicate FirstNamed(order: seq<DevId>, devs: map<DevId, DeviceState>, name: string, d: DevId) {
    exists i ::
      && 0 <= i < |order| && order[i] == d && d in devs && devs[d].name == name
      && forall j :: 0 <= j < i && order[j] in devs ==> devs[order[j]].name != name
  }

  /** No listed device has this name. */
  ghost predicate NoneNamed(order: seq<DevId>, devs: map<DevId, DeviceState>, name: string) {
    forall j :: 0 <= j < |order| && order[j] in devs ==> devs[order[j]].name != name
  }

  /**
   * A packet that comes in under a name is from then on held for the first listed device of that
   * name; when there is none the handler is done at once. Nothing else changes.
   */
  lemma LookupFindsFirst(s: State, t: Thread, name: string, pkt: Packet)
    requires Enabled(s, Lookup(t, name, pkt))
    ensures var r := Apply(s, Lookup(t, name, pkt));
      && (t in r.rx ==> r.rx[t].Found? && r.rx[t].pkt == pkt && FirstNamed(s.order, s.devs, name, r.rx[t].dev))
      && (t !in r.rx ==> NoneNamed(s.order, s.devs, name))
      && r.rx - {t} == s.rx && r.(rx := s.rx) == s
  {
    FoundIsListed(s.devs, s.order, name);
  }

  /** The list of devices grows at its end and loses exactly the device that is removed. */
  lemma ListChanges(s: State, a: Action)
    requires Enabled(s, a) && ListShape(s)
    ensures a.AddDevice? ==> Apply(s, a).order == s.order + [a.dev]
    ensures a.Unlink? ==> exists k ::
      0 <= k < |s.order| && s.order[k] == a.dev && Apply(s, a).order == s.order[..k] + s.order[k + 1..]
    ensures !a.AddDevice? && !a.Unlink? ==> Apply(s, a).order == s.order
  {
    match a
    case Deliver(t) => assert DoDeliver(s, t).order == s.order;
    case Send(d) => assert DoSend(s, d).order == s.order;
    case Free(d) => assert DoFree(s, d).order == s.order;
    case Unlink(d) =>
      var k :| 0 <= k < |s.order| && s.order[k] == d;
      FirstAt(s.order, (e: DevId) => e == d, k);
    case _ =>
  }

  // ---- Where receivers, packets and names come from, step by step ----

  lemma WorkersLeaveReceivers(s: State, d: DevId)
    ensures Enabled(s, Send(d)) ==> DoSend(s, d).rx == s.rx
    ensures Enabled(s, Free(d)) ==> DoFree(s, d).rx == s.rx
  {
  }

  lemma ReceiverStep(s: State, a: Action, t: Thread)
    requires Enabled(s, a) && t in Apply(s, a).rx
    ensures var r := Apply(s, a).rx[t];
      || (t in s.rx && s.rx[t].dev == r.dev && s.rx[t].pkt == r.pkt)
      || (a.Lookup? && a.t == t && a.pkt == r.pkt && FirstNamed(s.order, s.devs, a.name, r.dev))
  {
    match a
    case Lookup(u, name, pkt) => LookupFindsFirst(s, u, name, pkt);
    case Deliver(u) => assert t in s.rx && DoDeliver(s, u).rx[t] == s.rx[t];
    case Send(d) => WorkersLeaveReceivers(s, d);
    case Free(d) => WorkersLeaveReceivers(s, d);
    case _ =>
  }

  /** The packet is among those the instance has accepted or dropped. */
  ghost predicate Got(s: State, d: DevId, pkt: Packet) {
    d in s.hist && (pkt in s.hist[d].accepted || pkt in s.hist[d].dropped)
  }

  lemma DeliverGot(s: State, t: Thread, d: DevId, pkt: Packet)
    requires Enabled(s, Deliver(t)) && Got(DoDeliver(s, t), d, pkt)
    ensures Got(s, d, pkt) || (s.rx[t].dev == d && s.rx[t].pkt == pkt)
  {
  }

  lemma SendGot(s: State, e: DevId, d: DevId, pkt: Packet)
    requires Enabled(s, Send(e)) && Got(DoSend(s, e), d, pkt)
    ensures Got(s, d, pkt)
  {
  }

  lemma FreeGot(s: State, e: DevId, d: DevId, pkt: Packet)
    requires Enabled(s, Free(e)) && Got(DoFree(s, e), d, pkt)
    ensures Got(s, d, pkt)
  {
  }

  lemma PacketStep(s: State, a: Action, d: DevId, pkt: Packet)
    requires Enabled(s, a) && Got(Apply(s, a), d, pkt)
    ensures Got(s, d, pkt) || (a.Deliver? && s.rx[a.t].dev == d && s.rx[a.t].pkt == pkt)
  {
    match a
    case Deliver(t) => DeliverGot(s, t, d, pkt);
    case Send(e) => SendGot(s, e, d, pkt);
    case Free(e) => FreeGot(s, e, d, pkt);
    case _ =>
  }

  lemma WorkersKeepNames(s: State, e: DevId, d: DevId)
    ensures Enabled(s, Send(e)) && d in DoSend(s, e).devs ==> d in s.devs && DoSend(s, e).devs[d].name == s.devs[d].name
    ensures Enabled(s, Free(e)) && d in DoFree(s, e).devs ==> d in s.devs && DoFree(s, e).devs[d].name == s.devs[d].name
  {
  }

  lemma NameStep(s: State, a: Action, d: DevId)
    requires Enabled(s, a) && d in Apply(s, a).devs
    ensures var name := Apply(s, a).devs[d].name;
      (d in s.devs && s.devs[d].name == name) || a == AddDevice(d, name)
  {
    match a
    case Deliver(t) => assert d in s.devs && DoDeliver(s, t).devs[d].name == s.devs[d].name;
    case Send(e) => WorkersKeepNames(s, e, d);
    case Free(e) => WorkersKeepNames(s, e, d);
    case _ =>
  }

  // ---- Over whole runs ----

  /** Some step of the run added the instance under this name. */
  ghost predicate AddedAs(actions: seq<Action>, d: DevId, name: string) {
    AddDevice(d, name) in actions
  }

  /**
   * At step `k` of the run the packet came in under the name the instance had been added with, and
   * the instance was the first listed one of that name.
   */
  ghost predicate CameAt(s0: State, actions: seq<Action>, k: nat, d: DevId, pkt: Packet)
    requires k < |actions|
  {
    && actions[k].Lookup? && actions[k].pkt == pkt && AddedAs(actions[..k], d, actions[k].name)
    && Run(s0, actions[..k]).Some?
    && FirstNamed(Run(s0, actions[..k]).value.order, Run(s0, actions[..k]).value.devs, actions[k].name, d)
  }

  ghost predicate Came(s0: State, actions: seq<Action>, d: DevId, pkt: Packet) {
    exists k :: 0 <= k < |actions| && CameAt(s0, actions, k, d, pkt)
  }

  lemma CameEarlier(s0: State, before: seq<Action>, a: Action, d: DevId, pkt: Packet)
    requires Came(s0, before, d, pkt)
    ensures Came(s0, before + [a], d, pkt)
  {
    var k :| 0 <= k < |before| && CameAt(s0, before, k, d, pkt);
    assert (before + [a])[..k] == before[..k] && (before + [a])[k] == before[k];
    assert CameAt(s0, before + [a], k, d, pkt);
  }

  lemma CameNow(s0: State, before: seq<Action>, a: Action, d: DevId, pkt: Packet)
    requires Run(s0, before).Some? && a.Lookup? && a.pkt == pkt && AddedAs(before, d, a.name)
    requires FirstNamed(Run(s0, before).value.order, Run(s0, before).value.devs, a.name, d)
    ensures Came(s0, before + [a], d, pkt)
  {
    assert (before + [a])[..|before|] == before;
    assert CameAt(s0, before + [a], |before|, d, pkt);
  }

  ghost predicate NamesKnown(actions: seq<Action>, s: State) {
    forall d :: d in s.devs ==> AddedAs(actions, d, s.devs[d].name)
  }

  ghost predicate AllCame(s0: State, actions: seq<Action>, s: State) {
    && NamesKnown(actions, s)
    && (forall t :: t in s.rx ==> Came(s0, actions, s.rx[t].dev, s.rx[t].pkt))
    && (forall d, pkt :: Got(s, d, pkt) ==> Came(s0, actions, d, pkt))
  }

  lemma NamesStay(s: State, before: seq<Action>, a: Action)
    requires Enabled(s, a) && NamesKnown(before, s)
    ensures NamesKnown(before + [a], Apply(s, a))
  {
    forall d | d in Apply(s, a).devs ensures AddedAs(before + [a], d, Apply(s, a).devs[d].name) {
      NameStep(s, a, d);
    }
  }

  lemma CameStep(s0: State, before: seq<Action>, a: Action)
    requires Run(s0, before).Some? && Enabled(Run(s0, before).value, a)
    requires AllCame(s0, before, Run(s0, before).value)
    ensures AllCame(s0, before + [a], Apply(Run(s0, before).value, a))
  {
    var s := Run(s0, before).value;
    var r := Apply(s, a);
    NamesStay(s, before, a);
    forall t | t in r.rx ensures Came(s0, before + [a], r.rx[t].dev, r.rx[t].pkt) {
      ReceiverCame(s0, before, a, t);
    }
    forall d, pkt | Got(r, d, pkt) ensures Came(s0, before + [a], d, pkt) {
      PacketStep(s, a, d, pkt);
      CameEarlier(s0, before, a, d, pkt);
    }
  }

  lemma ReceiverCame(s0: State, before: seq<Action>, a: Action, t: Thread)
    requires Run(s0, before).Some? && Enabled(Run(s0, before).value, a)
    requires AllCame(s0, before, Run(s0, before).value) && t in Apply(Run(s0, before).value, a).rx
    ensures var r := Apply(Run(s0, before).value, a).rx[t]; Came(s0, before + [a], r.dev, r.pkt)
  {
    var s := Run(s0, before).value;
    var r := Apply(s, a).rx[t];
    ReceiverStep(s, a, t);
    if t in s.rx && s.rx[t].dev == r.dev && s.rx[t].pkt == r.pkt {
      CameEarlier(s0, before, a, r.dev, r.pkt);
    } else {
      CameNow(s0, before, a, r.dev, r.pkt);
    }
  }

  lemma {:induction false} AlwaysCame(s0: State, actions: seq<Action>)
    requires Init(s0) && Run(s0, actions).Some?
    ensures AllCame(s0, actions, Run(s0, actions).value)
  {
    if actions != [] {
      var before, a := actions[..|actions| - 1], actions[|actions| - 1];
      assert actions == before + [a];
      RunLast(s0, before, a);
      AlwaysCame(s0, before);
      CameStep(s0, before, a);
    }
  }

  /**
   * In every run, whatever packet a device instance has accepted or dropped came in under the name
   * that instance was added with, at a moment when it was the first in the list with that name.
   */
  lemma PacketsCameByName(s0: State, actions: seq<Action>, d: DevId, pkt: Packet)
    requires Init(s0) && Run(s0, actions).Some? && d in Run(s0, actions).value.hist
    requires var h := Run(s0, actions).value.hist[d]; pkt in h.accepted || pkt in h.dropped
    ensures exists k :: 0 <= k < |actions| && CameAt(s0, actions, k, d, pkt)
  {
    AlwaysCame(s0, actions);
    assert Got(Run(s0, actions).value, d, pkt);
  }
}
