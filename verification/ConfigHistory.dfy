/** What holds of the configuration after every history of commands. */
module ConfigHistory {
  import opened Words
  import opened Options
  import opened Lists
  import opened DottedQuad
  import opened Dispatch
  import opened Registry
  import opened Engine
  import opened Config

  // ---- Rules ----

  /** A rule has an id, one of the three actions, that action's handler, and a listener to forward to. */
  ghost predicate GoodRule(r: Rule<Addr>) {
    && r.rid != 0
    && r.aid in {ACTION_DROP, ACTION_FWRD, ACTION_CNT}
    && Agrees(r.func, r.aid)
    && (r.aid == ACTION_FWRD ==> r.arg.Some?)
  }

  ghost predicate GoodRules(s: seq<RuleEntry>) {
    forall x :: x in s ==> GoodRule(x.val.obj) && x.key == x.id == x.val.obj.rid
  }

  lemma {:induction false} RulesAreGood(e: Endian, cmds: seq<Command>)
    ensures GoodRules(Configured(e, cmds).rules)
  {
    if cmds != [] {
      var n := |cmds| - 1;
      RulesAreGood(e, cmds[..n]);
      var t, cmd := Configured(e, cmds[..n]), cmds[n];
      if cmd.WriteRule? {
        var op := RuleOp(t, cmd);
        if op.Some? && op.value.Put? {
          SubsetWithout(t.rules, ByKey(op.value.entry.key));
        }
      }
    }
  }

  /** A rule with its pointer followed. */
  function Follow(t: Tables, r: Rule<Addr>): ResolvedRule {
    Rule(r.rid, r.aid, r.func,
         if r.arg.None? then None
         else var l := First(t.listeners, AtAddr(r.arg.value)); if l.Some? then Some(l.value.val.obj) else None)
  }

  function AtAddr<K, T>(a: Addr): Entry<K, Placed<T>> -> bool {
    (e: Entry<K, Placed<T>>) => e.val.addr == a
  }

  lemma {:induction false} AddrIsFound<K, T>(s: seq<Entry<K, Placed<T>>>, a: Addr)
    ensures First(s, AtAddr(a)).Some? <==> a in Addrs(s)
  {
    if s != [] {
      assert s == [s[0]] + s[1..];
      AddrsCons(s[0], s[1..]);
      if s[0].val.addr != a {
        AddrIsFound(s[1..], a);
      }
    }
  }

  /** What is sent to the listener at an address, if one is listed there. */
  ghost predicate SentTo(t: Tables, a: Addr, skb: seq<byte>, out: seq<Datagram>) {
    exists x :: x in t.listeners && x.val.addr == a && out == [Datagram(x.val.obj, skb)]
  }

  lemma FollowListed(t: Tables, r: Rule<Addr>, skb: seq<byte>)
    requires r.arg.Some? && r.arg.value in Addrs(t.listeners)
    ensures Follow(t, r).arg.Some? && SentTo(t, r.arg.value, skb, [Datagram(Follow(t, r).arg.value, skb)])
  {
    AddrIsFound(t.listeners, r.arg.value);
    FirstIsIn(t.listeners, AtAddr(r.arg.value));
  }

  /**
   * Invoking any rule a history has listed succeeds: the mismatch result of the action handlers is
   * out of reach. A FORWARD rule sends one datagram to its listener, if that is still listed; a
   * rule with another action sends nothing.
   */
  method InvokeListedRule(wire: Network, e: Endian, cmds: seq<Command>, x: RuleEntry, skb: seq<byte>) returns (ret: int)
    requires x in Configured(e, cmds).rules
    modifies wire`sent
    ensures ret == 0
    ensures x.val.obj.aid == ACTION_FWRD ==> x.val.obj.arg.Some?
    ensures x.val.obj.aid == ACTION_FWRD && x.val.obj.arg.value in Addrs(Configured(e, cmds).listeners) ==>
      && old(wire.sent) <= wire.sent
      && SentTo(Configured(e, cmds), x.val.obj.arg.value, skb, wire.sent[|old(wire.sent)|..])
    ensures x.val.obj.aid != ACTION_FWRD ==> wire.sent == old(wire.sent)
  {
    RulesAreGood(e, cmds);
    var t, r := Configured(e, cmds), x.val.obj;
    assert GoodRule(r);
    if r.arg.Some? && r.arg.value in Addrs(t.listeners) {
      FollowListed(t, r, skb);
    }
    var resolved := Follow(t, r);
    ret := RuleInvoke(wire, Some(resolved), skb);
    assert wire.sent == old(wire.sent) + if Forwards(resolved) then [Datagram(resolved.arg.value, skb)] else [];
  }

  // ---- Listeners ----

  /** Id and port are set, and the socket address in memory is what the text says. */
  ghost predicate GoodListener(e: Endian, l: Listener) {
    && l.lid != 0 && l.port != 0 && l.sinPort == CpuToBe16(e, l.port)
    && (Aton(l.ipaddr).Some? ==> l.sinAddr == CpuToBe32(e, Aton(l.ipaddr).value))
  }

  ghost predicate GoodListeners(e: Endian, s: seq<ListenerEntry>) {
    forall x :: x in s ==>
      GoodListener(e, x.val.obj) && x.key == (x.val.obj.ipaddr, x.val.obj.port) && x.id == x.val.obj.lid
  }

  lemma NewListenerIsGood(e: Endian, cmd: Command)
    requires cmd.WriteListener? && U32(cmd.lid) != 0 && cmd.port != 0
    ensures GoodListener(e, NewListener(e, cmd))
  {
    if Aton(cmd.ip).Some? {
      AtonIsWord(cmd.ip, cmd.unset);
    }
  }

  lemma ListenersStay(e: Endian, t: Tables, cmd: Command)
    requires GoodListeners(e, t.listeners)
    ensures GoodListeners(e, Apply(e, t, cmd).listeners)
  {
    if cmd.WriteListener? {
      var op := ListenerOp(e, t.next, cmd);
      if op.Some? && op.value.Put? {
        NewListenerIsGood(e, cmd);
        SubsetWithout(t.listeners, ByKey(op.value.entry.key));
      } else if op.Some? && op.value.DropId? {
        SubsetWithout(t.listeners, ById(op.value.id));
      }
    }
  }

  lemma {:induction false} ListenersAreGood(e: Endian, cmds: seq<Command>)
    ensures GoodListeners(e, Configured(e, cmds).listeners)
  {
    if cmds != [] {
      ListenersAreGood(e, cmds[..|cmds| - 1]);
      ListenersStay(e, Configured(e, cmds[..|cmds| - 1]), cmds[|cmds| - 1]);
    }
  }

  /**
   * A listed listener with a canonical address: the socket address lies in memory in network order,
   * whatever the machine's byte order, and printing it gives the text back.
   */
  lemma SocketAddressAgrees(e: Endian, cmds: seq<Command>, x: ListenerEntry)
    requires x in Configured(e, cmds).listeners && IPv4Address(x.val.obj.ipaddr)
    ensures var l := x.val.obj;
      && l.lid != 0 && l.port != 0
      && Stored16(e, l.sinPort) == [l.port / 256, l.port % 256]
      && Aton(l.ipaddr).Some? && Stored32(e, l.sinAddr) == BigEndian32(Aton(l.ipaddr).value)
      && Ntoa(Aton(l.ipaddr).value) == l.ipaddr
  {
    ListenersAreGood(e, cmds);
    CanonicalParses(x.val.obj.ipaddr);
    StoredBigEndian(e, Aton(x.val.obj.ipaddr).value);
    StoredBigEndian16(e, x.val.obj.port);
  }

  // ---- Last write wins, for the real commands ----

  /** The operations a history performs on the listeners; `next` is the address it has reached. */
  function ListenerOps(e: Endian, cmds: seq<Command>): seq<Op<(string, u16), Placed<Listener>>> {
    if cmds == [] then []
    else
      var n := |cmds| - 1;
      var ops := ListenerOps(e, cmds[..n]);
      if !cmds[n].WriteListener? then ops
      else
        var op := ListenerOp(e, Configured(e, cmds[..n]).next, cmds[n]);
        if op.Some? then ops + [op.value] else ops
  }

  function RuleOps(e: Endian, cmds: seq<Command>): seq<Op<u32, Placed<Rule<Addr>>>> {
    if cmds == [] then []
    else
      var n := |cmds| - 1;
      var ops := RuleOps(e, cmds[..n]);
      if !cmds[n].WriteRule? then ops
      else
        var op := RuleOp(Configured(e, cmds[..n]), cmds[n]);
        if op.Some? then ops + [op.value] else ops
  }

  lemma ListedStep<K, V>(ops: seq<Op<K, V>>, op: Op<K, V>)
    ensures Listed(ops + [op]) == Applied(Listed(ops), op)
  {
    assert (ops + [op])[..|ops|] == ops;
  }

  lemma {:induction false} TablesAreListed(e: Endian, cmds: seq<Command>)
    ensures Configured(e, cmds).listeners == Listed(ListenerOps(e, cmds))
    ensures Configured(e, cmds).rules == Listed(RuleOps(e, cmds))
  {
    if cmds != [] {
      var before, cmd := cmds[..|cmds| - 1], cmds[|cmds| - 1];
      assert cmds == before + [cmd];
      TablesAreListed(e, before);
      ConfiguredStep(e, before, cmd);
      OpsStep(e, before, cmd);
      if cmd.WriteListener? && ListenerOp(e, Configured(e, before).next, cmd).Some? {
        ListedStep(ListenerOps(e, before), ListenerOp(e, Configured(e, before).next, cmd).value);
      } else if cmd.WriteRule? && RuleOp(Configured(e, before), cmd).Some? {
        ListedStep(RuleOps(e, before), RuleOp(Configured(e, before), cmd).value);
      }
    }
  }

  lemma {:induction false} OpsStep(e: Endian, before: seq<Command>, cmd: Command)
    ensures ListenerOps(e, before + [cmd]) == ListenerOps(e, before) +
      if cmd.WriteListener? then AsSeq(ListenerOp(e, Configured(e, before).next, cmd)) else []
    ensures RuleOps(e, before + [cmd]) == RuleOps(e, before) +
      if cmd.WriteRule? then AsSeq(RuleOp(Configured(e, before), cmd)) else []
  {
    assert (before + [cmd])[..|before|] == before;
  }

  function AsSeq<T>(x: Option<T>): seq<T> {
    if x.Some? then [x.value] else []
  }

  /** After any history both tables list exactly the surviving adds, one per key, in order. */
  lemma TablesLastWriteWins(e: Endian, cmds: seq<Command>)
    ensures var l, r := ListenerOps(e, cmds), RuleOps(e, cmds);
      && Configured(e, cmds).listeners == Survivors(l, |l|, |l|) && DistinctKeys(Configured(e, cmds).listeners)
      && Configured(e, cmds).rules == Survivors(r, |r|, |r|) && DistinctKeys(Configured(e, cmds).rules)
  {
    var l, r := ListenerOps(e, cmds), RuleOps(e, cmds);
    TablesAreListed(e, cmds);
    LastWriteWins(l, |l|);
    LastWriteWins(r, |r|);
    KeysStayDistinct(l);
    KeysStayDistinct(r);
    assert l[..|l|] == l && r[..|r|] == r;
  }

  // ---- Chains ----

  ghost predicate UniqueNames(chains: seq<RefChain>) {
    forall c, d :: 0 <= c < d < |chains| ==> chains[c].name != chains[d].name
  }

  lemma UniqueTail(chains: seq<RefChain>)
    requires UniqueNames(chains) && chains != []
    ensures chains == [chains[0]] + chains[1..] && UniqueNames(chains[1..])
    ensures forall c :: c in chains[1..] ==> c.name != chains[0].name
  {
  }

  lemma {:induction false} UniqueWithout(chains: seq<RefChain>, name: string)
    requires UniqueNames(chains)
    ensures UniqueNames(WithoutFirst(chains, ByName(name)))
    ensures forall c :: c in WithoutFirst(chains, ByName(name)) <==> c in chains && c.name != name
  {
    if chains != [] {
      UniqueTail(chains);
      if chains[0].name != name {
        UniqueWithout(chains[1..], name);
        UniqueCons(chains[0], WithoutFirst(chains[1..], ByName(name)));
      }
    }
  }

  lemma UniqueCons(c: RefChain, rest: seq<RefChain>)
    requires UniqueNames(rest) && forall d :: d in rest ==> d.name != c.name
    ensures UniqueNames([c] + rest)
  {
  }

  lemma NamesStayUnique(t: Tables, cmd: Command)
    requires UniqueNames(t.chains) && cmd.WriteFilter? && |cmd.name| <= 31
    ensures UniqueNames(FilterChains(t, cmd))
  {
    ChainFound(t.chains, cmd.name);
    if cmd.ret == 1 && cmd.name != "" {
      UniqueWithout(t.chains, cmd.name[1..]);
    }
  }

  ghost predicate ShortNames(cmds: seq<Command>) {
    forall k :: 0 <= k < |cmds| && cmds[k].WriteFilter? ==> |cmds[k].name| <= 31
  }

  lemma {:induction false} NamesAlwaysUnique(e: Endian, cmds: seq<Command>)
    requires ShortNames(cmds)
    ensures UniqueNames(Configured(e, cmds).chains)
  {
    if cmds != [] {
      var before, cmd := cmds[..|cmds| - 1], cmds[|cmds| - 1];
      assert cmds == before + [cmd];
      NamesAlwaysUnique(e, before);
      ConfiguredStep(e, before, cmd);
      if cmd.WriteFilter? {
        NamesStayUnique(Configured(e, before), cmd);
      }
    }
  }

  /** The chain that find selects, the last match, is the one that remove takes out, the first match. */
  lemma FindIsRemove(e: Endian, cmds: seq<Command>, name: string)
    requires ShortNames(cmds)
    ensures var chains := Configured(e, cmds).chains;
      match FindChain(chains, name)
      case None => WithoutFirst(chains, ByName(name)) == chains
      case Some(c) =>
        && c < |chains| && chains[c].name == name
        && WithoutFirst(chains, ByName(name)) == chains[..c] + chains[c + 1..]
  {
    NamesAlwaysUnique(e, cmds);
    var chains := Configured(e, cmds).chains;
    ChainFound(chains, name);
    match FindChain(chains, name)
    case None => NoneMatches(chains, ByName(name));
    case Some(c) => FirstAt(chains, ByName(name), c);
  }

  /**
   * Names over 31 characters are cut when stored, and are then not found again. The 32-byte buffer
   * such a name is scanned into has overflowed by then; this is what the code does if that has no
   * other effect.
   */
  lemma LongNamesCollide(t: Tables, cmd: Command)
    requires UniqueNames(t.chains) && cmd.WriteFilter? && |cmd.name| > 31
    requires forall c :: c in t.chains ==> |c.name| <= 31
    requires cmd.ret >= 5 && cmd.fid > 0
    ensures UniqueNames(FilterChains(t, cmd)) <==> forall c :: c in t.chains ==> c.name != cmd.name[..31]
  {
    NewChain(t, cmd);
    var r := FilterChains(t, cmd);
    assert forall c :: 0 <= c < |t.chains| ==> r[c] == r[..|t.chains|][c];
    if UniqueNames(r) {
      forall c | c in t.chains ensures c.name != cmd.name[..31] {
        var k :| 0 <= k < |t.chains| && t.chains[k] == c;
        assert r[k].name != r[|t.chains|].name;
      }
    }
  }

  /** Writing the same long name twice lists two chains of one name. */
  lemma LongNameTwice(e: Endian, cmd: Command)
    requires cmd.WriteFilter? && |cmd.name| > 31 && cmd.ret >= 5 && cmd.fid > 0
    ensures var chains := Configured(e, [cmd, cmd]).chains;
      |chains| == 2 && chains[0].name == chains[1].name == cmd.name[..31]
  {
    ConfiguredStep(e, [], cmd);
    ConfiguredStep(e, [cmd], cmd);
    assert [] + [cmd] == [cmd] && [cmd] + [cmd] == [cmd, cmd];
    NewChain(EMPTY, cmd);
    NewChain(Configured(e, [cmd]), cmd);
  }

  /** A name over 31 characters always makes a chain, if all listed names are as stored. */
  lemma NewChain(t: Tables, cmd: Command)
    requires cmd.WriteFilter? && |cmd.name| > 31 && cmd.ret >= 5 && cmd.fid > 0
    requires forall c :: c in t.chains ==> |c.name| <= 31
    ensures var r := FilterChains(t, cmd);
      |r| == |t.chains| + 1 && r[..|t.chains|] == t.chains && r[|t.chains|].name == cmd.name[..31]
  {
    ChainFound(t.chains, cmd.name);
  }

  // ---- The lone dash ----

  /**
   * What sscanf guarantees of a filter command: `%256s` reads a lone dash as a name, and further
   * fields convert only after a name.
   */
  ghost predicate AsScanned(cmd: Command) {
    cmd.WriteFilter? ==> (cmd.dash ==> cmd.ret == 1 && cmd.name == "-") && (cmd.ret >= 2 ==> cmd.name != "")
  }

  ghost predicate AllNamed(chains: seq<RefChain>) {
    forall c :: c in chains ==> c.name != ""
  }

  lemma NamedStay(t: Tables, cmd: Command)
    requires AllNamed(t.chains) && cmd.WriteFilter? && AsScanned(cmd)
    ensures AllNamed(FilterChains(t, cmd))
  {
    ChainFound(t.chains, cmd.name);
    if cmd.ret == 1 && cmd.name != "" {
      SubsetWithout(t.chains, ByName(cmd.name[1..]));
    }
  }

  lemma {:induction false} NoChainUnnamed(e: Endian, cmds: seq<Command>)
    requires forall k :: 0 <= k < |cmds| ==> AsScanned(cmds[k])
    ensures AllNamed(Configured(e, cmds).chains)
  {
    if cmds != [] {
      var n := |cmds| - 1;
      NoChainUnnamed(e, cmds[..n]);
      if cmds[n].WriteFilter? {
        NamedStay(Configured(e, cmds[..n]), cmds[n]);
      }
    }
  }

  /**
   * A lone dash, which clears listeners and rules, clears no chain: it is read as the removal of
   * the chain without a name, and no history lists one.
   */
  lemma DashClearsNothing(e: Endian, cmds: seq<Command>, cmd: Command)
    requires forall k :: 0 <= k < |cmds| ==> AsScanned(cmds[k])
    requires AsScanned(cmd) && cmd.WriteFilter? && cmd.dash
    ensures !Refused(cmd) && FilterChains(Configured(e, cmds), cmd) == Configured(e, cmds).chains
  {
    NoChainUnnamed(e, cmds);
    var chains := Configured(e, cmds).chains;
    assert cmd.name[1..] == "";
    NoneMatches(chains, ByName(""));
  }

  // ---- Filter counters over histories of commands and frames ----

  /**
   * Chain `x` of the new configuration against the old one: the chain of that name keeps all its
   * filters, in order and with their counters; filters beyond those start at zero.
   */
  ghost predicate Extends(before: seq<RefChain>, x: RefChain) {
    && (forall b :: 0 <= b < |before| && before[b].name == x.name ==> before[b].filters <= x.filters)
    && (forall f :: KeptFilters(before, x.name) <= f < |x.filters| ==> x.filters[f].count == 0)
  }

  /** How many filters the chain of that name had. */
  function KeptFilters(before: seq<RefChain>, name: string): nat {
    match FindChain(before, name)
    case Some(b) => if b < |before| then |before[b].filters| else 0
    case None => 0
  }

  lemma SameExtends(before: seq<RefChain>, x: RefChain)
    requires UniqueNames(before) && x in before
    ensures Extends(before, x)
  {
    ChainFound(before, x.name);
  }

  lemma GrownExtends(before: seq<RefChain>, b: nat, f: Filter<Addr>)
    requires UniqueNames(before) && b < |before| && f.count == 0
    ensures Extends(before, before[b].(filters := before[b].filters + [f]))
  {
    ChainFound(before, before[b].name);
  }

  lemma NewExtends(before: seq<RefChain>, x: RefChain)
    requires forall b :: 0 <= b < |before| ==> before[b].name != x.name
    requires forall f :: 0 <= f < |x.filters| ==> x.filters[f].count == 0
    ensures Extends(before, x)
  {
    ChainFound(before, x.name);
  }

  /** No command touches the counter or the place of a filter it does not create. */
  lemma CommandsExtend(t: Tables, cmd: Command, c: nat)
    requires UniqueNames(t.chains) && cmd.WriteFilter? && |cmd.name| <= 31 && c < |FilterChains(t, cmd)|
    ensures Extends(t.chains, FilterChains(t, cmd)[c])
  {
    var before, after := t.chains, FilterChains(t, cmd);
    ChainFound(before, cmd.name);
    if after[c] in before {
      SameExtends(before, after[c]);
    } else if cmd.ret == 1 && cmd.name != "" && cmd.name[0] == '-' {
      SubsetWithout(before, ByName(cmd.name[1..]));
    } else if c < |before| {
      assert FindChain(before, cmd.name) == Some(c);
      GrownExtends(before, c, NewFilter(t, cmd));
    } else {
      NewExtends(before, after[c]);
    }
  }

  datatype Event = Write(cmd: Command) | Frame(len: u32)

  /**
   * The configuration, the lengths of the frames dispatched so far, and for every listed filter how
   * many frames had been dispatched when it was added.
   */
  datatype Census = Census(t: Tables, births: seq<seq<nat>>, lens: seq<u32>)

  function Births(z: Census, x: RefChain): seq<nat> {
    var b := FindChain(z.t.chains, x.name);
    var kept := if b.Some? && b.value < |z.births| then z.births[b.value] else [];
    kept + seq(if |x.filters| >= |kept| then |x.filters| - |kept| else 0, _ => |z.lens|)
  }

  function Advance(e: Endian, z: Census, ev: Event): Census {
    match ev
    case Frame(len) => z.(t := z.t.(chains := BumpAll(z.t.chains, len)), lens := z.lens + [len])
    case Write(cmd) =>
      var t := Apply(e, z.t, cmd);
      if cmd.WriteFilter?
      then z.(t := t, births := seq(|t.chains|, c requires 0 <= c < |t.chains| => Births(z, t.chains[c])))
      else z.(t := t)
  }

  function CensusOf(e: Endian, h: seq<Event>): Census {
    if h == [] then Census(EMPTY, [], []) else Advance(e, CensusOf(e, h[..|h| - 1]), h[|h| - 1])
  }

  /** A filter counts exactly the frames it matched since it was added. */
  ghost predicate CountsSince(f: Filter<Addr>, born: nat, lens: seq<u32>) {
    born <= |lens| && f == Advanced(f.(count := 0), lens[born..])
  }

  ghost predicate Exact(z: Census) {
    && UniqueNames(z.t.chains)
    && |z.births| == |z.t.chains|
    && forall c :: 0 <= c < |z.births| ==> ExactChain(z.t.chains[c], z.births[c], z.lens)
  }

  ghost predicate ExactChain(x: RefChain, births: seq<nat>, lens: seq<u32>) {
    && |births| == |x.filters|
    && forall f :: 0 <= f < |births| ==> CountsSince(x.filters[f], births[f], lens)
  }

  lemma CountsOneMore(f: Filter<Addr>, born: nat, lens: seq<u32>, len: u32)
    requires CountsSince(f, born, lens)
    ensures CountsSince(Bump(f, len), born, lens + [len])
  {
    var zero := f.(count := 0);
    assert (lens + [len])[born..] == lens[born..] + [len];
    assert (lens[born..] + [len])[..|lens| - born] == lens[born..];
    AdvanceOnce(zero, lens[born..] + [len]);
    assert Bump(f, len).(count := 0) == zero;
  }

  lemma StartsAtZero(f: Filter<Addr>, lens: seq<u32>)
    requires f.count == 0
    ensures CountsSince(f, |lens|, lens)
  {
  }

  lemma FrameKeepsExact(z: Census, len: u32)
    requires Exact(z)
    ensures Exact(z.(t := z.t.(chains := BumpAll(z.t.chains, len)), lens := z.lens + [len]))
  {
    forall c | 0 <= c < |z.births|
      ensures ExactChain(BumpAll(z.t.chains, len)[c], z.births[c], z.lens + [len])
    {
      assert ExactChain(z.t.chains[c], z.births[c], z.lens);
      forall f | 0 <= f < |z.births[c]|
        ensures CountsSince(BumpAll(z.t.chains, len)[c].filters[f], z.births[c][f], z.lens + [len])
      {
        CountsOneMore(z.t.chains[c].filters[f], z.births[c][f], z.lens, len);
      }
    }
  }

  lemma WriteKeepsChain(z: Census, cmd: Command, c: nat)
    requires Exact(z) && cmd.WriteFilter? && |cmd.name| <= 31 && c < |FilterChains(z.t, cmd)|
    ensures ExactChain(FilterChains(z.t, cmd)[c], Births(z, FilterChains(z.t, cmd)[c]), z.lens)
  {
    var x := FilterChains(z.t, cmd)[c];
    CommandsExtend(z.t, cmd, c);
    ChainFound(z.t.chains, x.name);
    BirthsExact(z, x);
  }

  lemma BirthsExact(z: Census, x: RefChain)
    requires Exact(z) && Extends(z.t.chains, x)
    requires var r := FindChain(z.t.chains, x.name);
      r.Some? ==> r.value < |z.t.chains| && z.t.chains[r.value].name == x.name
    ensures ExactChain(x, Births(z, x), z.lens)
  {
    var b := FindChain(z.t.chains, x.name);
    if b.Some? {
      assert ExactChain(z.t.chains[b.value], z.births[b.value], z.lens);
    }
    var kept := KeptFilters(z.t.chains, x.name);
    var births := Births(z, x);
    forall f | 0 <= f < |births| ensures CountsSince(x.filters[f], births[f], z.lens) {
      if f < kept {
        assert x.filters[f] == z.t.chains[b.value].filters[f];
      } else {
        StartsAtZero(x.filters[f], z.lens);
      }
    }
  }

  ghost predicate ShortNamed(h: seq<Event>) {
    forall k :: 0 <= k < |h| && h[k].Write? && h[k].cmd.WriteFilter? ==> |h[k].cmd.name| <= 31
  }

  lemma AdvanceKeepsExact(e: Endian, z: Census, ev: Event)
    requires Exact(z) && (ev.Write? && ev.cmd.WriteFilter? ==> |ev.cmd.name| <= 31)
    ensures Exact(Advance(e, z, ev))
  {
    if ev.Frame? {
      FrameKeepsExact(z, ev.len);
    } else if ev.cmd.WriteFilter? {
      NamesStayUnique(z.t, ev.cmd);
      forall c | 0 <= c < |FilterChains(z.t, ev.cmd)|
        ensures ExactChain(FilterChains(z.t, ev.cmd)[c], Births(z, FilterChains(z.t, ev.cmd)[c]), z.lens)
      {
        WriteKeepsChain(z, ev.cmd, c);
      }
    }
  }

  /**
   * Over every history of commands and frames, each listed filter's counter is the number of frames
   * dispatched since it was added that it matched, modulo 2^32.
   */
  lemma {:induction false} CountersOverHistories(e: Endian, h: seq<Event>)
    requires ShortNamed(h)
    ensures Exact(CensusOf(e, h))
  {
    if h != [] {
      CountersOverHistories(e, h[..|h| - 1]);
      AdvanceKeepsExact(e, CensusOf(e, h[..|h| - 1]), h[|h| - 1]);
    }
  }

  // ---- From pointers to the configuration that dispatch sees ----

  function FollowFilter(t: Tables, f: Filter<Addr>): ResolvedFilter {
    Filter(f.fid, f.ftype, f.subtype,
           if f.rule.None? then None
           else
             var r := First(t.rules, AtAddr(f.rule.value));
             if r.Some? then Some(Follow(t, r.value.val.obj)) else None,
           f.count, f.size)
  }

  function FollowFilters(t: Tables, fs: seq<Filter<Addr>>): (r: seq<ResolvedFilter>)
    ensures |r| == |fs| && forall i :: 0 <= i < |fs| ==> r[i] == FollowFilter(t, fs[i])
  {
    seq(|fs|, i requires 0 <= i < |fs| => FollowFilter(t, fs[i]))
  }

  function Resolve(t: Tables): (r: Chains)
    ensures |r| == |t.chains|
    ensures forall c :: 0 <= c < |r| ==> r[c] == Chain(t.chains[c].name, FollowFilters(t, t.chains[c].filters))
  {
    seq(|t.chains|, c requires 0 <= c < |t.chains| => Chain(t.chains[c].name, FollowFilters(t, t.chains[c].filters)))
  }

  /** Counting through pointers is counting on the resolved configuration. */
  lemma ResolveCommutes(t: Tables, len: u32)
    ensures Resolve(t.(chains := BumpAll(t.chains, len))) == BumpAll(Resolve(t), len)
  {
    var u := t.(chains := BumpAll(t.chains, len));
    forall c | 0 <= c < |t.chains| ensures Resolve(u)[c] == BumpAll(Resolve(t), len)[c] {
      var fs := t.chains[c].filters;
      forall f | 0 <= f < |fs| ensures FollowFilter(u, Bump(fs[f], len)) == Bump(FollowFilter(t, fs[f]), len) {
      }
      assert FollowFilters(u, BumpFilters(fs, len)) == BumpFilters(FollowFilters(t, fs), len);
    }
  }

  /** In every history listed objects lie at addresses of their own. */
  lemma {:induction false} AlwaysPlaced(e: Endian, cmds: seq<Command>)
    ensures Placements(Configured(e, cmds))
  {
    if cmds != [] {
      AlwaysPlaced(e, cmds[..|cmds| - 1]);
      PlacementsKept(e, Configured(e, cmds[..|cmds| - 1]), cmds[|cmds| - 1]);
    }
  }
}
