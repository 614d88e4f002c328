/** Where a frame goes, said of the listed rules and listeners themselves. */
module Targets {
  import opened Words
  import opened Options
  import opened Lists
  import opened Dispatch
  import opened Registry
  import opened Config
  import opened ConfigHistory
  import opened Engine

  // ---- Pointers lead to the entry at their address ----

  lemma {:induction false} AtAddress<K, T>(s: seq<Entry<K, Placed<T>>>, next: Addr, a: Addr)
    requires Placement(s, next)
    ensures forall x :: x in s && x.val.addr == a ==> First(s, AtAddr(a)) == Some(x)
    ensures (forall x :: x in s ==> x.val.addr != a) ==> First(s, AtAddr(a)).None?
  {
    WithoutFirstTakesOut(s, AtAddr(a));
    forall x | x in s && x.val.addr == a ensures First(s, AtAddr(a)) == Some(x) {
      var k: nat :| IsFirst(s, AtAddr(a), k) && First(s, AtAddr(a)).value == s[k];
      var i :| 0 <= i < |s| && s[i] == x;
    }
  }

  /** `r` is the rule `x` with its listener pointer followed: to the object there, if one is listed there. */
  ghost predicate IsRule(t: Tables, x: Rule<Addr>, r: ResolvedRule) {
    && r.rid == x.rid && r.aid == x.aid && r.func == x.func
    && (x.arg.None? ==> r.arg.None?)
    && (x.arg.Some? ==>
          && (forall l :: l in t.listeners && l.val.addr == x.arg.value ==> r.arg == Some(l.val.obj))
          && ((forall l :: l in t.listeners ==> l.val.addr != x.arg.value) ==> r.arg.None?))
  }

  /** What a filter's rule pointer leads to: the rule listed at that address, if there is one. */
  ghost predicate LeadsTo(t: Tables, a: Option<Addr>, r: Option<ResolvedRule>) {
    && (a.None? ==> r.None?)
    && (a.Some? ==>
          && (forall x :: x in t.rules && x.val.addr == a.value ==> r.Some? && IsRule(t, x.val.obj, r.value))
          && ((forall x :: x in t.rules ==> x.val.addr != a.value) ==> r.None?))
  }

  lemma FollowedRule(t: Tables, x: Rule<Addr>)
    requires Placements(t)
    ensures IsRule(t, x, Follow(t, x))
  {
    if x.arg.Some? {
      AtAddress(t.listeners, t.next, x.arg.value);
    }
  }

  /** Every filter dispatches with the rule its own pointer leads to, and is otherwise as listed. */
  lemma FilterFollowsItsRule(t: Tables, c: nat, f: nat)
    requires Placements(t) && c < |t.chains| && f < |t.chains[c].filters|
    ensures |Resolve(t)| == |t.chains| && |Resolve(t)[c].filters| == |t.chains[c].filters|
    ensures var was, now := t.chains[c].filters[f], Resolve(t)[c].filters[f];
      && LeadsTo(t, was.rule, now.rule)
      && now.fid == was.fid && now.ftype == was.ftype && now.subtype == was.subtype
      && now.count == was.count && now.size == was.size
  {
    var was := t.chains[c].filters[f];
    if was.rule.Some? {
      AtAddress(t.rules, t.next, was.rule.value);
      forall x | x in t.rules ensures IsRule(t, x.val.obj, Follow(t, x.val.obj)) {
        FollowedRule(t, x.val.obj);
      }
    }
  }

  /** Without dangling pointers every pointer that is set is followed, down to the listener. */
  lemma EveryPointerFollowed(e: Endian, cmds: seq<Command>, c: nat, f: nat)
    requires Integrity(Configured(e, cmds))
    requires c < |Configured(e, cmds).chains| && f < |Configured(e, cmds).chains[c].filters|
    ensures var t := Configured(e, cmds);
      var was, r := t.chains[c].filters[f].rule, Resolve(t)[c].filters[f].rule;
      && LeadsTo(t, was, r) && (r.Some? <==> was.Some?)
      && (r.Some? ==> Agrees(r.value.func, r.value.aid) && (r.value.aid == ACTION_FWRD ==> Forwards(r.value)))
  {
    var t := Configured(e, cmds);
    RulesAreGood(e, cmds);
    AlwaysPlaced(e, cmds);
    FilterFollowsItsRule(t, c, f);
    if t.chains[c].filters[f].rule.Some? {
      var a := t.chains[c].filters[f].rule.value;
      assert a in UsedRules(t);
      AddrIsFound(t.rules, a);
      FirstIsIn(t.rules, AtAddr(a));
      var r := First(t.rules, AtAddr(a)).value;
      if r.val.obj.aid == ACTION_FWRD {
        assert r.val.obj.arg.value in UsedListeners(t);
        AddrIsFound(t.listeners, r.val.obj.arg.value);
      }
    }
  }

  // ---- The datagrams of one frame ----

  /** The filter's rule forwards, action 2, to the listener `l`. */
  ghost predicate ForwardsTo(t: Tables, f: Filter<Addr>, l: ListenerEntry) {
    f.rule.Some? && l in t.listeners && exists x ::
      && x in t.rules && x.val.addr == f.rule.value
      && x.val.obj.aid == 2 && x.val.obj.arg == Some(l.val.addr)
  }

  /**
   * What one filter sends: the frame to the listener its rule forwards to, if it takes frames of that
   * length and there is such a listener; else nothing.
   */
  ghost predicate FilterSends(t: Tables, f: Filter<Addr>, skb: seq<byte>, out: seq<Datagram>) {
    && (forall l :: Takes(f, |skb| % 0x1_0000_0000) && ForwardsTo(t, f, l) ==> out == [Datagram(l.val.obj, skb)])
    && ((!Takes(f, |skb| % 0x1_0000_0000) || forall l :: l in t.listeners ==> !ForwardsTo(t, f, l)) ==> out == [])
  }

  ghost predicate ChainSends(t: Tables, fs: seq<Filter<Addr>>, skb: seq<byte>, parts: seq<seq<Datagram>>) {
    |parts| == |fs| && forall f :: 0 <= f < |fs| ==> FilterSends(t, fs[f], skb, parts[f])
  }

  /** What one frame gives rise to: chain after chain and filter after filter, what each filter sends. */
  ghost predicate FrameSends(t: Tables, skb: seq<byte>, out: seq<Datagram>) {
    exists parts: seq<seq<seq<Datagram>>> ::
      && |parts| == |t.chains|
      && (forall c :: 0 <= c < |t.chains| ==> ChainSends(t, t.chains[c].filters, skb, parts[c]))
      && out == JoinedAll(parts)
  }

  lemma MatchesTakes<R>(f: Filter<R>, len: u32)
    ensures Matches(f, len) <==> Takes(f, len)
  {
  }

  lemma FilterSendsContribution(t: Tables, f: Filter<Addr>, skb: seq<byte>)
    requires Placements(t) && GoodRules(t.rules)
    ensures FilterSends(t, f, skb, Contribution(FollowFilter(t, f), skb))
  {
    var now := FollowFilter(t, f);
    MatchesTakes(now, U32(|skb|));
    assert Takes(now, |skb| % 0x1_0000_0000) == Takes(f, |skb| % 0x1_0000_0000);
    if f.rule.Some? {
      AtAddress(t.rules, t.next, f.rule.value);
      var r := First(t.rules, AtAddr(f.rule.value));
      if r.Some? {
        FirstIsIn(t.rules, AtAddr(f.rule.value));
        RuleSends(t, r.value.val.obj);
      }
    }
  }

  /** A listed rule sends to the listener at its address, if its action is to forward. */
  lemma RuleSends(t: Tables, x: Rule<Addr>)
    requires Placements(t) && GoodRule(x)
    ensures forall l :: l in t.listeners && x.aid == 2 && x.arg == Some(l.val.addr) ==>
      Forwards(Follow(t, x)) && Follow(t, x).arg == Some(l.val.obj)
    ensures (forall l :: l in t.listeners ==> !(x.aid == 2 && x.arg == Some(l.val.addr))) ==> !Forwards(Follow(t, x))
  {
    FollowedRule(t, x);
    if x.arg.Some? {
      AtAddress(t.listeners, t.next, x.arg.value);
    }
  }

  // ---- Dispatch, put together from the filters ----

  function Contributions(fs: seq<ResolvedFilter>, skb: seq<byte>): (r: seq<seq<Datagram>>)
    ensures |r| == |fs| && forall i :: 0 <= i < |fs| ==> r[i] == Contribution(fs[i], skb)
  {
    seq(|fs|, i requires 0 <= i < |fs| => Contribution(fs[i], skb))
  }

  lemma {:induction false} FiltersJoined(fs: seq<ResolvedFilter>, skb: seq<byte>)
    ensures FilterOutput(fs, skb) == Joined(Contributions(fs, skb))
  {
    if fs != [] {
      var n := |fs| - 1;
      FiltersJoined(fs[..n], skb);
      JoinedLast(Contributions(fs[..n], skb), Contribution(fs[n], skb));
      assert Contributions(fs, skb) == Contributions(fs[..n], skb) + [Contribution(fs[n], skb)];
    }
  }

  /** What each filter of each chain sends. */
  function Parts(chains: Chains, skb: seq<byte>): (r: seq<seq<seq<Datagram>>>)
    ensures |r| == |chains| && forall c :: 0 <= c < |r| ==> r[c] == Contributions(chains[c].filters, skb)
  {
    seq(|chains|, c requires 0 <= c < |chains| => Contributions(chains[c].filters, skb))
  }

  lemma {:induction false} PartsLast(chains: Chains, x: Chain<ResolvedRule>, skb: seq<byte>)
    ensures Parts(chains + [x], skb) == Parts(chains, skb) + [Contributions(x.filters, skb)]
  {
  }

  lemma {:induction false} ChainsJoined(chains: Chains, skb: seq<byte>)
    ensures Output(chains, skb) == JoinedAll(Parts(chains, skb))
  {
    if chains != [] {
      var before, x := chains[..|chains| - 1], chains[|chains| - 1];
      assert chains == before + [x];
      ChainsJoined(before, skb);
      OutputAppend(before, x, skb);
      FiltersJoined(x.filters, skb);
      PartsLast(before, x, skb);
      JoinedAllLast(Parts(before, skb), Contributions(x.filters, skb));
    }
  }

  lemma ChainSendsContributions(t: Tables, fs: seq<Filter<Addr>>, skb: seq<byte>)
    requires Placements(t) && GoodRules(t.rules)
    ensures ChainSends(t, fs, skb, Contributions(FollowFilters(t, fs), skb))
  {
    forall f | 0 <= f < |fs| ensures FilterSends(t, fs[f], skb, Contributions(FollowFilters(t, fs), skb)[f]) {
      FilterSendsContribution(t, fs[f], skb);
    }
  }

  /** Dispatch through the tables sends exactly what the listed filters, rules and listeners say. */
  lemma {:induction false} OutputFromEntries(t: Tables, skb: seq<byte>)
    requires Placements(t) && GoodRules(t.rules)
    ensures FrameSends(t, skb, Output(Resolve(t), skb))
  {
    var parts := Parts(Resolve(t), skb);
    forall c | 0 <= c < |t.chains| ensures ChainSends(t, t.chains[c].filters, skb, parts[c]) {
      ChainSendsContributions(t, t.chains[c].filters, skb);
    }
    ChainsJoined(Resolve(t), skb);
  }
}
