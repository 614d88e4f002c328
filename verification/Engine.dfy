/**
 * The dispatch path as the kernel runs it: chains of filter objects whose counters are bumped in
 * place, datagrams appended to a log of what was sent. Rules never change once they are listed, so
 * a filter's rule is carried as a value.
 */
module Engine {
  import opened Words
  import opened Options
  import opened Dispatch

  class FilterObject {
    var fid: u32
    var ftype: int
    var subtype: int
    var rule: Option<ResolvedRule>
    var count: u32
    var size: Option<int>

    constructor (fid: u32, ftype: int, subtype: int, rule: Option<ResolvedRule>, size: Option<int>)
      ensures View() == Filter(fid, ftype, subtype, rule, 0, size)
    {
      this.fid, this.ftype, this.subtype, this.rule, this.size := fid, ftype, subtype, rule, size;
      count := 0;
    }

    function View(): ResolvedFilter
      reads this
    {
      Filter(fid, ftype, subtype, rule, count, size)
    }
  }

  class ChainObject {
    var name: string
    var filters: seq<FilterObject>

    constructor (name: string)
      ensures this.name == name && filters == []
    {
      this.name, filters := name, [];
    }

    function View(): Chain<ResolvedRule>
      reads this, filters
    {
      Chain(name, seq(|filters|, f requires 0 <= f < |filters| reads this, filters => filters[f].View()))
    }
  }

  /** Whether a rule's handler accepts the action recorded in the rule. */
  predicate Agrees(func: ActionFn, aid: int) {
    match func
    case FnUnset => false
    case FnNone => aid == ACTION_NONE
    case FnDrop => aid == ACTION_DROP
    case FnForward => aid == ACTION_FWRD
    case FnCount => aid == ACTION_CNT
  }

  /** The network: every datagram sent so far. */
  class Network {
    var sent: seq<Datagram>

    constructor ()
      ensures sent == []
    {
      sent := [];
    }
  }

  ghost function Filters(chains: seq<ChainObject>): set<FilterObject>
    reads chains
  {
    set c, f | 0 <= c < |chains| && 0 <= f < |chains[c].filters| :: chains[c].filters[f]
  }

  /** One filter is not listed at two places. */
  ghost predicate Apart(chains: seq<ChainObject>, c: nat, f: nat, c': nat, f': nat)
    reads chains
  {
    (&& c < |chains| && f < |chains[c].filters| && c' < |chains| && f' < |chains[c'].filters|
     && chains[c].filters[f] == chains[c'].filters[f']) ==> c == c' && f == f'
  }

  /** No filter is listed twice. */
  ghost predicate Separate(chains: seq<ChainObject>)
    reads chains
  {
    forall c: nat, f: nat, c': nat, f': nat :: Apart(chains, c, f, c', f')
  }

  /** Every listed filter's type has a handler. */
  ghost predicate HandledTypes(chains: seq<ChainObject>)
    reads chains, Filters(chains)`ftype
  {
    forall c, f :: 0 <= c < |chains| && 0 <= f < |chains[c].filters| ==>
      assert chains[c].filters[f] in Filters(chains);
      Handled(chains[c].filters[f].ftype)
  }

  ghost function View(chains: seq<ChainObject>): Chains
    reads chains, Filters(chains)
  {
    seq(|chains|, c requires 0 <= c < |chains| reads chains, Filters(chains) =>
      assert forall f :: f in chains[c].filters ==> f in Filters(chains);
      chains[c].View())
  }

  /** listener_send: nothing is sent without a listener. */
  method ListenerSend(wire: Network, l: Option<Listener>, skb: seq<byte>)
    modifies wire`sent
    ensures wire.sent == old(wire.sent) + if l.Some? then [Datagram(l.value, skb)] else []
  {
    if l.Some? {
      wire.sent := wire.sent + [Datagram(l.value, skb)];
    }
  }

  /** rtap_rule_action_forward. */
  method ActionForward(wire: Network, r: ResolvedRule, skb: seq<byte>) returns (ret: int)
    modifies wire`sent
    ensures ret == if r.aid == ACTION_FWRD then 0 else -1
    ensures wire.sent == old(wire.sent) +
      if r.aid == ACTION_FWRD && r.arg.Some? then [Datagram(r.arg.value, skb)] else []
  {
    if r.aid != ACTION_FWRD {
      return -1;
    }
    ListenerSend(wire, r.arg, skb);
    return 0;
  }

  /**
   * rtap_rule_invoke: succeeds exactly when the rule's handler agrees with its action, and sends
   * exactly when that action is to forward to a listener.
   */
  method RuleInvoke(wire: Network, r: Option<ResolvedRule>, skb: seq<byte>) returns (ret: int)
    modifies wire`sent
    ensures ret == if r.Some? && Agrees(r.value.func, r.value.aid) then 0 else -1
    ensures ret == 0 <==>
      r.Some? && (r.value.func, r.value.aid) in {(FnNone, 0), (FnDrop, 1), (FnForward, 2), (FnCount, 3)}
    ensures wire.sent == old(wire.sent) + if r.Some? then SentBy(r.value, skb) else []
  {
    ret := -1;
    if r.Some? {
      match r.value.func
      case FnUnset =>
      case FnNone => ret := if r.value.aid != ACTION_NONE then -1 else 0;
      case FnDrop => ret := if r.value.aid != ACTION_DROP then -1 else 0;
      case FnForward => ret := ActionForward(wire, r.value, skb);
      case FnCount => ret := if r.value.aid != ACTION_CNT then -1 else 0;
    }
  }

  /** rtap_filter_all. */
  method FilterAll(wire: Network, f: FilterObject, skb: seq<byte>) returns (ret: int)
    modifies wire`sent, f`count
    ensures f.View() == Bump(old(f.View()), U32(|skb|))
    ensures wire.sent == old(wire.sent) + Contribution(old(f.View()), skb)
    ensures f.count == if Takes(old(f.View()), |skb| % 0x1_0000_0000) then U32(old(f.count) + 1) else old(f.count)
    ensures wire.sent == old(wire.sent) +
      if Takes(old(f.View()), |skb| % 0x1_0000_0000) && f.rule.Some? then SentBy(f.rule.value, skb) else []
  {
    ret := -1;
    var len := U32(|skb|);
    if f.ftype == TYPE_ALL {
      if f.subtype == SUBTYPE_ALL_ALL {
        f.count := U32(f.count + 1);
        ret := RuleInvoke(wire, f.rule, skb);
      } else if f.subtype == SUBTYPE_SIZE_EQ {
        if f.size.Some? && len == U32(f.size.value) {
          f.count := U32(f.count + 1);
          ret := RuleInvoke(wire, f.rule, skb);
        }
      } else if f.subtype == SUBTYPE_SIZE_GE {
        if f.size.Some? && len >= U32(f.size.value) {
          f.count := U32(f.count + 1);
          ret := RuleInvoke(wire, f.rule, skb);
        }
      } else if f.subtype == SUBTYPE_SIZE_LE {
        if f.size.Some? && len <= U32(f.size.value) {
          f.count := U32(f.count + 1);
          ret := RuleInvoke(wire, f.rule, skb);
        }
      }
    }
  }

  /** The handler table: ALL has its own handler, the other handled types have empty ones. */
  method CallHandler(wire: Network, f: FilterObject, skb: seq<byte>) returns (ret: int)
    requires Handled(f.ftype)
    modifies wire`sent, f`count
    ensures f.View() == Bump(old(f.View()), U32(|skb|))
    ensures wire.sent == old(wire.sent) + Contribution(old(f.View()), skb)
  {
    if f.ftype == TYPE_ALL {
      ret := FilterAll(wire, f, skb);
    } else {
      ret := -1;
    }
  }

  /** The inner loop of rtap_filter_recv, over the filters of one chain. */
  method RecvChain(wire: Network, c: ChainObject, skb: seq<byte>)
    requires forall f, f' :: 0 <= f < f' < |c.filters| ==> c.filters[f] != c.filters[f']
    requires forall f :: 0 <= f < |c.filters| ==> Handled(c.filters[f].ftype)
    modifies wire`sent, c.filters`count
    ensures wire.sent == old(wire.sent) + FilterOutput(old(c.View()).filters, skb)
    ensures c.View() == BumpChain(old(c.View()), U32(|skb|))
  {
    ghost var was := c.View().filters;
    for f := 0 to |c.filters|
      invariant PartWay(old(wire.sent), was, skb, f, wire.sent, c.View().filters)
    {
      ghost var sent, now := wire.sent, c.View().filters;
      var _ := CallHandler(wire, c.filters[f], skb);
      assert c.View().filters == now[f := Bump(now[f], U32(|skb|))];
      PartStep(old(wire.sent), was, skb, f, sent, now);
    }
    AllHandledOnce(old(wire.sent), was, skb);
  }

  /** The log and the filters of a chain when the first `f` of them have handled the frame. */
  ghost predicate PartWay(log: seq<Datagram>, was: seq<ResolvedFilter>, skb: seq<byte>, f: nat,
                          sent: seq<Datagram>, now: seq<ResolvedFilter>) {
    f <= |was| && sent == LogAfter(log, was, skb, f) && now == FiltersAfter(was, U32(|skb|), f)
  }

  function LogAfter(log: seq<Datagram>, was: seq<ResolvedFilter>, skb: seq<byte>, f: nat): seq<Datagram>
    requires f <= |was|
  {
    if f == 0 then log else LogAfter(log, was, skb, f - 1) + Contribution(was[f - 1], skb)
  }

  function FiltersAfter(was: seq<ResolvedFilter>, len: u32, f: nat): (r: seq<ResolvedFilter>)
    requires f <= |was|
    ensures |r| == |was|
    ensures forall i :: 0 <= i < |was| ==> r[i] == if i < f then Bump(was[i], len) else was[i]
  {
    if f == 0 then was else FiltersAfter(was, len, f - 1)[f - 1 := Bump(was[f - 1], len)]
  }

  lemma {:induction false} PartStep(log: seq<Datagram>, was: seq<ResolvedFilter>, skb: seq<byte>, f: nat,
                                    sent: seq<Datagram>, now: seq<ResolvedFilter>)
    requires f < |was| && PartWay(log, was, skb, f, sent, now)
    ensures PartWay(log, was, skb, f + 1, sent + Contribution(now[f], skb), now[f := Bump(now[f], U32(|skb|))])
  {
  }

  lemma AllHandledOnce(log: seq<Datagram>, was: seq<ResolvedFilter>, skb: seq<byte>)
    ensures LogAfter(log, was, skb, |was|) == log + FilterOutput(was, skb)
    ensures FiltersAfter(was, U32(|skb|), |was|) == BumpFilters(was, U32(|skb|))
  {
    LogIs(log, was, skb, |was|);
    assert was[..|was|] == was;
  }

  lemma {:induction false} LogIs(log: seq<Datagram>, was: seq<ResolvedFilter>, skb: seq<byte>, f: nat)
    requires f <= |was|
    ensures LogAfter(log, was, skb, f) == log + FilterOutput(was[..f], skb)
  {
    if f > 0 {
      LogIs(log, was, skb, f - 1);
      FilterOutputStep(was, f - 1, skb);
    }
  }

  /** The same for a listed chain: the other chains keep their counters. */
  method RecvNth(wire: Network, chains: seq<ChainObject>, c: nat, skb: seq<byte>)
    requires Separate(chains) && HandledTypes(chains) && c < |chains|
    modifies wire`sent, Filters(chains)`count
    ensures HandledTypes(chains)
    ensures wire.sent == old(wire.sent) + FilterOutput(old(View(chains))[c].filters, skb)
    ensures View(chains) == old(View(chains))[c := BumpChain(old(View(chains))[c], U32(|skb|))]
  {
    ChainApart(chains, c);
    RecvChain(wire, chains[c], skb);
    assert forall i :: 0 <= i < |chains| && i != c ==> chains[i].View() == old(chains[i].View());
  }

  /** A chain's filters are listed, none twice, and none in another chain. */
  lemma ChainApart(chains: seq<ChainObject>, c: nat)
    requires Separate(chains) && c < |chains|
    ensures forall f :: 0 <= f < |chains[c].filters| ==> chains[c].filters[f] in Filters(chains)
    ensures forall i, f, f' ::
      0 <= i < |chains| && i != c && 0 <= f < |chains[i].filters| && 0 <= f' < |chains[c].filters| ==>
      chains[i].filters[f] != chains[c].filters[f']
    ensures forall f, f' :: 0 <= f < f' < |chains[c].filters| ==> chains[c].filters[f] != chains[c].filters[f']
  {
    forall i, f, f' | 0 <= i < |chains| && i != c && 0 <= f < |chains[i].filters| && 0 <= f' < |chains[c].filters|
      ensures chains[i].filters[f] != chains[c].filters[f']
    {
      assert Apart(chains, i, f, c, f');
    }
    forall f, f' | 0 <= f < f' < |chains[c].filters| ensures chains[c].filters[f] != chains[c].filters[f']
    {
      assert Apart(chains, c, f, c, f');
    }
  }

  /**
   * rtap_filter_recv: two nested loops that refine the specification. The log grows by the frame's
   * output and every filter is bumped once.
   */
  method Recv(wire: Network, chains: seq<ChainObject>, skb: seq<byte>)
    requires Separate(chains) && HandledTypes(chains)
    modifies wire`sent, Filters(chains)`count
    ensures wire.sent == old(wire.sent) + Output(old(View(chains)), skb)
    ensures View(chains) == BumpAll(old(View(chains)), U32(|skb|))
  {
    ghost var was := View(chains);
    for c := 0 to |chains|
      invariant Separate(chains) && HandledTypes(chains) && Filters(chains) == old(Filters(chains))
      invariant Halfway(old(wire.sent), was, skb, c, wire.sent, View(chains))
    {
      ghost var sent, now := wire.sent, View(chains);
      RecvNth(wire, chains, c, skb);
      RecvStep(old(wire.sent), was, skb, c, sent, now);
    }
    AllSent(old(wire.sent), was, skb);
    AllBumped(was, U32(|skb|));
  }

  /** A configuration whose first `c` chains have seen a frame of `len` bytes. */
  function PartlyBumped(chains: Chains, len: u32, c: nat): (r: Chains)
    requires c <= |chains|
    ensures |r| == |chains|
    ensures forall i :: 0 <= i < |chains| ==> r[i] == if i < c then BumpChain(chains[i], len) else chains[i]
  {
    if c == 0 then chains else PartlyBumped(chains, len, c - 1)[c - 1 := BumpChain(chains[c - 1], len)]
  }

  /** The log and the chains when the first `c` chains have handled the frame. */
  ghost predicate Halfway(log: seq<Datagram>, was: Chains, skb: seq<byte>, c: nat, sent: seq<Datagram>, now: Chains) {
    && c <= |was| && sent == PartlySent(log, was, skb, c) && now == PartlyBumped(was, U32(|skb|), c)
  }

  lemma {:induction false} RecvStep(log: seq<Datagram>, was: Chains, skb: seq<byte>, c: nat,
                                    sent: seq<Datagram>, now: Chains)
    requires c < |was| && Halfway(log, was, skb, c, sent, now)
    ensures Halfway(log, was, skb, c + 1, sent + FilterOutput(now[c].filters, skb),
                    now[c := BumpChain(now[c], U32(|skb|))])
  {
  }

  /** A log after the first `c` chains have handled a frame. */
  function PartlySent(log: seq<Datagram>, chains: Chains, skb: seq<byte>, c: nat): seq<Datagram>
    requires c <= |chains|
  {
    if c == 0 then log else PartlySent(log, chains, skb, c - 1) + FilterOutput(chains[c - 1].filters, skb)
  }

  lemma {:induction false} AllSent(log: seq<Datagram>, chains: Chains, skb: seq<byte>)
    ensures PartlySent(log, chains, skb, |chains|) == log + Output(chains, skb)
  {
    if chains != [] {
      var before, x := chains[..|chains| - 1], chains[|chains| - 1];
      assert chains == before + [x];
      AllSent(log, before, skb);
      SentBefore(log, before, x, skb, |before|);
      OutputAppend(before, x, skb);
      Associative(log, Output(before, skb), FilterOutput(x.filters, skb));
    }
  }

  /** A further chain makes no difference to what those before it have sent. */
  lemma {:induction false} SentBefore(
    log: seq<Datagram>, chains: Chains, x: Chain<ResolvedRule>, skb: seq<byte>, c: nat)
    requires c <= |chains|
    ensures PartlySent(log, chains + [x], skb, c) == PartlySent(log, chains, skb, c)
  {
    if c > 0 {
      SentBefore(log, chains, x, skb, c - 1);
    }
  }

  lemma Associative<T>(a: seq<T>, b: seq<T>, c: seq<T>)
    ensures (a + b) + c == a + (b + c)
  {
  }

  lemma AllBumped(chains: Chains, len: u32)
    ensures PartlyBumped(chains, len, |chains|) == BumpAll(chains, len)
  {
  }

  lemma FilterOutputStep(fs: seq<ResolvedFilter>, f: nat, skb: seq<byte>)
    requires f < |fs|
    ensures FilterOutput(fs[..f + 1], skb) == FilterOutput(fs[..f], skb) + Contribution(fs[f], skb)
  {
    assert fs[..f + 1][..f] == fs[..f];
  }
}
