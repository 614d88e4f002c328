/** What a listener can conclude from the headers it receives, and what all devices share. */
module Wire {
  import opened Words
  import opened Options
  import opened Header
  import opened Device
  import opened Dispatch
  import opened Protocol
  import opened Lanes

  // ---- Which packet a datagram comes from ----

  /** For each datagram of `Sent`, the index of the accepted packet behind it. */
  function Origins(accepted: seq<Packet>, configs: seq<Chains>): seq<nat>
    requires |configs| <= |accepted|
  {
    if configs == [] then []
    else
      var n := |configs| - 1;
      Origins(accepted, configs[..n]) + seq(|Output(configs[n], WireFrame(WorkFor(accepted, n)))|, _ => n)
  }

  lemma {:induction false} OutputPayload(fs: seq<ResolvedFilter>, skb: seq<byte>)
    ensures forall p :: 0 <= p < |FilterOutput(fs, skb)| ==> FilterOutput(fs, skb)[p].payload == skb
  {
    if fs != [] {
      OutputPayload(fs[..|fs| - 1], skb);
    }
  }

  /** `o` tells for each datagram which of the first `n` packets it carries, header and frame, in order. */
  ghost predicate AreOrigins(o: seq<nat>, sent: seq<Datagram>, accepted: seq<Packet>, n: nat) {
    && |o| == |sent| && n <= |accepted|
    && (forall p :: 0 <= p < |o| ==> o[p] < n && sent[p].payload == WireFrame(WorkFor(accepted, o[p])))
    && (forall p, q :: 0 <= p < q < |o| ==> o[p] <= o[q])
  }

  lemma OriginsStep(o: seq<nat>, sent: seq<Datagram>, accepted: seq<Packet>, n: nat, more: seq<Datagram>)
    requires AreOrigins(o, sent, accepted, n) && n < |accepted|
    requires forall p :: 0 <= p < |more| ==> more[p].payload == WireFrame(WorkFor(accepted, n))
    ensures AreOrigins(o + seq(|more|, _ => n), sent + more, accepted, n + 1)
  {
  }

  /** Datagrams leave in acceptance order, and each carries its packet's own header and frame. */
  lemma {:induction false} OriginsAre(accepted: seq<Packet>, configs: seq<Chains>)
    requires |configs| <= |accepted|
    ensures AreOrigins(Origins(accepted, configs), Sent(accepted, configs), accepted, |configs|)
  {
    if configs != [] {
      var n := |configs| - 1;
      OriginsAre(accepted, configs[..n]);
      var out := Output(configs[n], WireFrame(WorkFor(accepted, n)));
      OutputPayload(Flat(configs[n]), WireFrame(WorkFor(accepted, n)));
      OriginsStep(Origins(accepted, configs[..n]), Sent(accepted, configs[..n]), accepted, n, out);
    }
  }

  // ---- Loss accounting ----

  lemma {:induction false} BytesConcat(a: seq<Packet>, b: seq<Packet>)
    ensures Bytes(a + b) == Bytes(a) + Bytes(b)
  {
    if b == [] {
      assert a + b == a;
    } else {
      var n := |b| - 1;
      assert (a + b)[..|a + b| - 1] == a + b[..n];
      BytesConcat(a, b[..n]);
    }
  }

  /** Subtracting wrapped totals gives the wrapped difference. */
  lemma WrappedDifference(a: int, b: int)
    ensures U32(U32(a) - U32(b)) == U32(a - b)
  {
    assert a - b == (a / 0x1_0000_0000 - b / 0x1_0000_0000) * 0x1_0000_0000 + (U32(a) - U32(b));
  }

  /** The header a packet's datagrams carry, as a receiver decodes it. */
  lemma HeaderOf(w: Work)
    ensures |WireFrame(w)| >= 32
    ensures Decode(WireFrame(w)) == MetaFor(w.pkt.addr, w.pkts, |w.pkt.frame|, w.bytes, w.pkt.secs, w.pkt.nsecs)
    ensures WireFrame(w)[32..] == w.pkt.frame
  {
    DecodeEncode(MetaFor(w.pkt.addr, w.pkts, |w.pkt.frame|, w.bytes, w.pkt.secs, w.pkt.nsecs), w.pkt.frame);
  }

  /** The id of the `k`-th packet, the byte total up to it, and its own length with header. */
  ghost predicate Describes(m: Meta, accepted: seq<Packet>, k: nat) {
    && k < |accepted|
    && m == MetaFor(accepted[k].addr, U32(k + 1), |accepted[k].frame|, U32(Bytes(accepted[..k + 1])),
                    accepted[k].secs, accepted[k].nsecs)
  }

  /** Header `m` is that of packet `j`, `n` that of packet `k`, and their differences say so. */
  ghost predicate Span(m: Meta, n: Meta, accepted: seq<Packet>, j: nat, k: nat) {
    && j <= k && Describes(m, accepted, j) && Describes(n, accepted, k)
    && U32(n.pktid - m.pktid) == U32(k - j)
    && U32(n.bytecnt - m.bytecnt) == U32(Bytes(accepted[j + 1..k + 1]))
    && (k == j + 1 ==> U32(n.bytecnt - m.bytecnt) == U32(n.len - 32))
  }

  lemma SpanOfHeaders(accepted: seq<Packet>, m: Meta, n: Meta, j: nat, k: nat)
    requires j <= k && Describes(m, accepted, j) && Describes(n, accepted, k)
    ensures Span(m, n, accepted, j, k)
  {
    WrappedDifference(k + 1, j + 1);
    assert accepted[..k + 1] == accepted[..j + 1] + accepted[j + 1..k + 1];
    BytesConcat(accepted[..j + 1], accepted[j + 1..k + 1]);
    WrappedBytes(Bytes(accepted[..k + 1]), Bytes(accepted[..j + 1]), Bytes(accepted[j + 1..k + 1]));
    if k == j + 1 {
      assert accepted[j + 1..k + 1] == [accepted[k]] && [accepted[k]][..0] == [];
      WrappedBytes(32 + |accepted[k].frame|, 32, |accepted[k].frame|);
    }
  }

  lemma WrappedBytes(total: nat, before: nat, span: nat)
    requires total == before + span
    ensures U32(U32(total) - U32(before)) == U32(span)
  {
    WrappedDifference(total, before);
  }

  /**
   * Loss accounting from the wire. Of any two datagrams one device instance has emitted, the later
   * one comes from the same or a later packet; the difference of their ids is the number of packets
   * accepted from the one to the other, the difference of their byte counts is the length of those
   * packets, and for consecutive packets that is the header's own length field less 32, all modulo
   * 2^32. So a listener sees from the headers alone how many packets and bytes it was not sent.
   */
  lemma LossAccounting(s: State, d: DevId, p: nat, q: nat)
    requires Reachable(s) && d in s.hist && p <= q < |Emitted(s.wire, d)|
    ensures |Emitted(s.wire, d)[p].payload| >= 32 && |Emitted(s.wire, d)[q].payload| >= 32
    ensures exists j: nat, k: nat ::
      Span(Decode(Emitted(s.wire, d)[p].payload), Decode(Emitted(s.wire, d)[q].payload), s.hist[d].accepted, j, k)
  {
    EndToEnd(s, d);
    SpanInSent(s.hist[d].accepted, s.hist[d].configs, p, q);
  }

  lemma SpanInSent(accepted: seq<Packet>, configs: seq<Chains>, p: nat, q: nat)
    requires |configs| <= |accepted| && p <= q < |Sent(accepted, configs)|
    ensures |Sent(accepted, configs)[p].payload| >= 32 && |Sent(accepted, configs)[q].payload| >= 32
    ensures exists j: nat, k: nat ::
      Span(Decode(Sent(accepted, configs)[p].payload), Decode(Sent(accepted, configs)[q].payload), accepted, j, k)
  {
    OriginsAre(accepted, configs);
    var j, k := Origins(accepted, configs)[p], Origins(accepted, configs)[q];
    var m := PacketHeader(accepted, j);
    var n := PacketHeader(accepted, k);
    SpanOfHeaders(accepted, m, n, j, k);
  }

  lemma PacketHeader(accepted: seq<Packet>, k: nat) returns (m: Meta)
    requires k < |accepted|
    ensures |WireFrame(WorkFor(accepted, k))| >= 32
    ensures m == Decode(WireFrame(WorkFor(accepted, k))) && Describes(m, accepted, k)
  {
    HeaderOf(WorkFor(accepted, k));
    m := Decode(WireFrame(WorkFor(accepted, k)));
  }

  // ---- A configuration that is not rewritten during a run ----

  ghost predicate SameOutput(a: Chains, b: Chains) {
    forall skb :: Output(a, skb) == Output(b, skb)
  }

  lemma {:induction false} HistorySameOutput(chains: Chains, lens: seq<u32>)
    ensures SameOutput(BumpHistory(chains, lens), chains)
  {
    if lens != [] {
      var n := |lens| - 1;
      HistorySameOutput(chains, lens[..n]);
      forall skb ensures Output(BumpHistory(chains, lens), skb) == Output(chains, skb) {
        OutputIgnoresCounts(BumpHistory(chains, lens[..n]), lens[n], skb);
        assert Output(BumpHistory(chains, lens[..n]), skb) == Output(chains, skb);
      }
    }
  }

  /** The counters of all workers' dispatches together are those of some sequential order. */
  ghost predicate Serialized(s: State) {
    s.chains == BumpHistory(s.base, s.lens)
  }

  lemma SendSerialized(s: State, d: DevId)
    requires Enabled(s, Send(d)) && Serialized(s)
    ensures Serialized(DoSend(s, d))
  {
    var len := U32(|WireFrame(s.data[s.devs[d].running.value.item])|);
    assert (s.lens + [len])[..|s.lens|] == s.lens;
  }

  /** Chains change only when a frame is dispatched or the configuration is written. */
  lemma ChainsStay(s: State, a: Action)
    requires Enabled(s, a) && !a.Send? && !a.Configure?
    ensures Apply(s, a).chains == s.chains && Apply(s, a).base == s.base && Apply(s, a).lens == s.lens
  {
    match a
    case Deliver(t) => assert DoDeliver(s, t).chains == s.chains;
    case Free(d) => assert DoFree(s, d).chains == s.chains;
    case _ =>
  }

  lemma StaysSerialized(s: State, a: Action)
    requires Enabled(s, a) && Serialized(s)
    ensures Serialized(Apply(s, a))
  {
    if a.Send? {
      SendSerialized(s, a.dev);
    } else if !a.Configure? {
      ChainsStay(s, a);
    }
  }

  lemma {:induction false} AlwaysSerialized(s0: State, actions: seq<Action>)
    requires Init(s0) && Run(s0, actions).Some?
    ensures Serialized(Run(s0, actions).value)
  {
    if actions != [] {
      var n := |actions| - 1;
      AlwaysSerialized(s0, actions[..n]);
      StaysSerialized(Run(s0, actions[..n]).value, actions[n]);
    }
  }

  /**
   * However many workers dispatch concurrently, each filter's counter has grown since the
   * configuration was last written by exactly the number of dispatched frames it matched.
   */
  lemma CountersUnderConcurrency(s: State, c: nat, f: nat)
    requires Reachable(s) && c < |s.base| && f < |s.base[c].filters|
    ensures |s.chains| == |s.base| && |s.chains[c].filters| == |s.base[c].filters|
    ensures s.chains[c].filters[f] == Advanced(s.base[c].filters[f], s.lens)
  {
    SerializedReachable(s);
    CountsOverHistory(s.base, s.lens, c, f);
  }

  lemma SerializedReachable(s: State)
    requires Reachable(s)
    ensures Serialized(s)
  {
    var s0, actions :| Init(s0) && Run(s0, actions) == Some(s);
    AlwaysSerialized(s0, actions);
  }

  ghost predicate Unchanged(s: State, chains: Chains) {
    && s.base == chains && Serialized(s)
    && forall d, k :: d in s.hist && 0 <= k < |s.hist[d].configs| ==> SameOutput(s.hist[d].configs[k], chains)
  }

  lemma StaysUnchanged(s: State, a: Action, chains: Chains)
    requires Enabled(s, a) && Unchanged(s, chains) && !a.Configure?
    ensures Unchanged(Apply(s, a), chains)
  {
    StaysSerialized(s, a);
    HistorySameOutput(s.base, s.lens);
    BaseStays(s, a);
    var r := Apply(s, a);
    forall d, k | d in r.hist && 0 <= k < |r.hist[d].configs| ensures SameOutput(r.hist[d].configs[k], chains) {
      ConfigsGrow(s, a, d);
      if d in s.hist && k < |s.hist[d].configs| {
        assert SameOutput(s.hist[d].configs[k], chains);
      }
    }
  }

  lemma BaseStays(s: State, a: Action)
    requires Enabled(s, a) && !a.Configure?
    ensures Apply(s, a).base == s.base
  {
    if a.Send? {
      assert DoSend(s, a.dev).base == s.base;
    } else {
      ChainsStay(s, a);
    }
  }

  /** A step appends to a device's configurations only the current one. */
  lemma ConfigsGrow(s: State, a: Action, d: DevId)
    requires Enabled(s, a) && d in Apply(s, a).hist
    ensures Apply(s, a).hist[d].configs == ConfigsMet(s, d) + if a == Send(d) && d in s.hist then [s.chains] else []
  {
    match a
    case Deliver(t) => DeliverConfigs(s, t, d);
    case Send(e) => SendConfigs(s, e, d);
    case Free(e) => FreeConfigs(s, e, d);
    case AddDevice(e, name) => assert e != d ==> DoAdd(s, e, name).hist[d] == s.hist[d];
    case _ =>
  }

  /** The configurations a device's frames have met so far. */
  ghost function ConfigsMet(s: State, d: DevId): seq<Chains> {
    if d in s.hist then s.hist[d].configs else []
  }

  lemma DeliverConfigs(s: State, t: Thread, d: DevId)
    requires Enabled(s, Deliver(t)) && d in DoDeliver(s, t).hist
    ensures d in s.hist && DoDeliver(s, t).hist[d].configs == s.hist[d].configs
  {
  }

  lemma FreeConfigs(s: State, e: DevId, d: DevId)
    requires Enabled(s, Free(e)) && d in DoFree(s, e).hist
    ensures d in s.hist && DoFree(s, e).hist[d].configs == s.hist[d].configs
  {
  }

  lemma SendConfigs(s: State, e: DevId, d: DevId)
    requires Enabled(s, Send(e)) && d in DoSend(s, e).hist
    ensures d in s.hist && DoSend(s, e).hist[d].configs == s.hist[d].configs + if d == e then [s.chains] else []
  {
  }

  lemma {:induction false} AlwaysUnchanged(s0: State, actions: seq<Action>)
    requires Init(s0) && Run(s0, actions).Some?
    requires forall k :: 0 <= k < |actions| ==> !actions[k].Configure?
    ensures Unchanged(Run(s0, actions).value, s0.chains)
  {
    if actions != [] {
      var n := |actions| - 1;
      AlwaysUnchanged(s0, actions[..n]);
      StaysUnchanged(Run(s0, actions[..n]).value, actions[n], s0.chains);
    }
  }

  /** The datagrams of a sequence of accepted packets under one configuration. */
  function SentUnder(chains: Chains, accepted: seq<Packet>, n: nat): seq<Datagram>
    requires n <= |accepted|
  {
    if n == 0 then []
    else SentUnder(chains, accepted, n - 1) + Output(chains, WireFrame(WorkFor(accepted, n - 1)))
  }

  lemma {:induction false} SentIsUnder(chains: Chains, accepted: seq<Packet>, configs: seq<Chains>)
    requires |configs| <= |accepted|
    requires forall k :: 0 <= k < |configs| ==> SameOutput(configs[k], chains)
    ensures Sent(accepted, configs) == SentUnder(chains, accepted, |configs|)
  {
    if configs != [] {
      var n := |configs| - 1;
      SentIsUnder(chains, accepted, configs[..n]);
      assert SameOutput(configs[n], chains);
    }
  }

  /**
   * In a run that never rewrites the configuration, what a worker has emitted is one function of the
   * configuration and the accepted packets, whatever the other devices and receivers did.
   */
  lemma EndToEndFixed(s0: State, actions: seq<Action>, d: DevId)
    requires Init(s0) && Run(s0, actions).Some? && d in Run(s0, actions).value.hist
    requires forall k :: 0 <= k < |actions| ==> !actions[k].Configure?
    ensures var s := Run(s0, actions).value;
      && Dispatched(ViewOf(s, d)) <= |s.hist[d].accepted|
      && Emitted(s.wire, d) == SentUnder(s0.chains, s.hist[d].accepted, Dispatched(ViewOf(s, d)))
  {
    var s := Run(s0, actions).value;
    EndToEnd(s, d);
    AlwaysUnchanged(s0, actions);
    SentIsUnder(s0.chains, s.hist[d].accepted, s.hist[d].configs);
  }
}
