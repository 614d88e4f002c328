/** Configurations that differ in their counters only: commands, pointers and output cannot tell. */
module Uncounted {
  import opened Words
  import opened Options
  import opened Lists
  import opened Dispatch
  import opened Config
  import opened ConfigHistory
  import opened Wire

  predicate SameFilters<R(==)>(fs: seq<Filter<R>>, gs: seq<Filter<R>>) {
    |fs| == |gs| && forall i :: 0 <= i < |fs| ==> fs[i].(count := 0) == gs[i].(count := 0)
  }

  predicate SameChain<R(==)>(x: Chain<R>, y: Chain<R>) {
    x.name == y.name && SameFilters(x.filters, y.filters)
  }

  predicate SameChains<R(==)>(a: seq<Chain<R>>, b: seq<Chain<R>>) {
    |a| == |b| && forall c :: 0 <= c < |a| ==> SameChain(a[c], b[c])
  }

  predicate SameTables(t: Tables, u: Tables) {
    t.listeners == u.listeners && t.rules == u.rules && t.next == u.next && SameChains(t.chains, u.chains)
  }

  // ---- Commands ----

  lemma {:induction false} SameFind(a: seq<RefChain>, b: seq<RefChain>, name: string)
    requires SameChains(a, b)
    ensures FindChain(a, name) == FindChain(b, name)
  {
    if a != [] {
      assert SameChain(a[|a| - 1], b[|a| - 1]);
      SameFind(a[..|a| - 1], b[..|b| - 1], name);
    }
  }

  lemma {:induction false} SameWithout(a: seq<RefChain>, b: seq<RefChain>, name: string)
    requires SameChains(a, b)
    ensures SameChains(WithoutFirst(a, ByName(name)), WithoutFirst(b, ByName(name)))
  {
    if a != [] {
      assert SameChain(a[0], b[0]);
      SameWithout(a[1..], b[1..], name);
    }
  }

  lemma SameEnsured(a: seq<RefChain>, b: seq<RefChain>, name: string)
    requires SameChains(a, b)
    ensures SameChains(EnsureChain(a, name).0, EnsureChain(b, name).0)
    ensures EnsureChain(a, name).1 == EnsureChain(b, name).1
  {
    SameFind(a, b, name);
    assert SameChain<Addr>(Chain(Stored(name), []), Chain(Stored(name), []));
  }

  lemma SameAppend(a: seq<RefChain>, b: seq<RefChain>, c: nat, f: Filter<Addr>)
    requires SameChains(a, b)
    ensures SameChains(AppendFilter(a, c, f), AppendFilter(b, c, f))
  {
    if c < |a| {
      assert SameChain(a[c], b[c]);
      assert SameFilters(a[c].filters + [f], b[c].filters + [f]);
    }
  }

  /** A command does the same to tables that differ in their counters only. */
  lemma SameApply(e: Endian, t: Tables, u: Tables, cmd: Command)
    requires SameTables(t, u)
    ensures SameTables(Config.Apply(e, t, cmd), Config.Apply(e, u, cmd))
  {
    if cmd.WriteFilter? {
      SameEnsured(t.chains, u.chains, cmd.name);
      SameAppend(EnsureChain(t.chains, cmd.name).0, EnsureChain(u.chains, cmd.name).0,
                 EnsureChain(t.chains, cmd.name).1, NewFilter(t, cmd));
      if cmd.name != "" {
        SameWithout(t.chains, u.chains, cmd.name[1..]);
      }
    }
  }

  lemma SameBumped<R>(a: seq<Chain<R>>, b: seq<Chain<R>>, len: u32)
    requires SameChains(a, b)
    ensures SameChains(BumpAll(a, len), b)
  {
    forall c | 0 <= c < |a| ensures SameChain(BumpAll(a, len)[c], b[c]) {
      assert SameChain(a[c], b[c]);
    }
  }

  // ---- Output ----

  lemma SameResolve(t: Tables, u: Tables)
    requires SameTables(t, u)
    ensures SameChains(Resolve(t), Resolve(u))
  {
    forall c | 0 <= c < |t.chains| ensures SameChain(Resolve(t)[c], Resolve(u)[c]) {
      assert SameChain(t.chains[c], u.chains[c]);
      SameFollowed(t, u, t.chains[c].filters, u.chains[c].filters);
    }
  }

  lemma SameFollowed(t: Tables, u: Tables, fs: seq<Filter<Addr>>, gs: seq<Filter<Addr>>)
    requires t.listeners == u.listeners && t.rules == u.rules && SameFilters(fs, gs)
    ensures SameFilters(FollowFilters(t, fs), FollowFilters(u, gs))
  {
    forall i | 0 <= i < |fs| ensures FollowFilter(t, fs[i]).(count := 0) == FollowFilter(u, gs[i]).(count := 0) {
      assert fs[i].(count := 0) == gs[i].(count := 0);
    }
  }

  lemma {:induction false} SameFlat<R>(a: seq<Chain<R>>, b: seq<Chain<R>>)
    requires SameChains(a, b)
    ensures SameFilters(Flat(a), Flat(b))
  {
    if a != [] {
      SameFlat(a[..|a| - 1], b[..|b| - 1]);
      assert SameChain(a[|a| - 1], b[|b| - 1]);
    }
  }

  lemma SameContribution(f: ResolvedFilter, g: ResolvedFilter, skb: seq<byte>)
    requires f.(count := 0) == g.(count := 0)
    ensures Contribution(f, skb) == Contribution(g, skb)
  {
    assert Matches(f, U32(|skb|)) == Matches(f.(count := 0), U32(|skb|));
  }

  lemma {:induction false} SameFilterOutput(fs: seq<ResolvedFilter>, gs: seq<ResolvedFilter>, skb: seq<byte>)
    requires SameFilters(fs, gs)
    ensures FilterOutput(fs, skb) == FilterOutput(gs, skb)
  {
    if fs != [] {
      var n := |fs| - 1;
      SameFilterOutput(fs[..n], gs[..n], skb);
      SameContribution(fs[n], gs[n], skb);
    }
  }

  /** What is sent is the same. */
  lemma SameSent(t: Tables, u: Tables)
    requires SameTables(t, u)
    ensures SameOutput(Resolve(t), Resolve(u))
  {
    SameResolve(t, u);
    SameFlat(Resolve(t), Resolve(u));
    forall skb ensures Output(Resolve(t), skb) == Output(Resolve(u), skb) {
      SameFilterOutput(Flat(Resolve(t)), Flat(Resolve(u)), skb);
    }
  }

  // ---- Pointers ----

  lemma SameIntegrity(t: Tables, u: Tables)
    requires SameTables(t, u) && Integrity(u)
    ensures Integrity(t)
  {
    forall a | a in UsedRules(t) ensures a in UsedRules(u) {
      var c, f :| 0 <= c < |t.chains| && 0 <= f < |t.chains[c].filters| && t.chains[c].filters[f].rule == Some(a);
      assert SameChain(t.chains[c], u.chains[c]);
      assert t.chains[c].filters[f].(count := 0) == u.chains[c].filters[f].(count := 0);
      assert u.chains[c].filters[f].rule == Some(a);
    }
  }
}
