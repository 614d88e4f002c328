/**
 * The configuration written through /proc: listeners, rules that point to listeners, chains of
 * filters that point to rules. Commands are modelled after sscanf has split them: `ret` is its
 * result, `dash` says that the whole text is a single dash.
 */
module Config {
  import opened Words
  import opened Options
  import opened Lists
  import opened DottedQuad
  import opened Dispatch
  import opened Registry

  /** A pointer; addresses are never reused. */
  type Addr = nat

  datatype Placed<T> = Placed(addr: Addr, obj: T)

  type ListenerEntry = Entry<(string, u16), Placed<Listener>>
  type RuleEntry = Entry<u32, Placed<Rule<Addr>>>
  type RefChain = Chain<Addr>

  datatype Tables = Tables(
    listeners: seq<ListenerEntry>, rules: seq<RuleEntry>, chains: seq<RefChain>, next: Addr)

  const EMPTY := Tables([], [], [], 0)

  /**
   * `unset` is what the variables of inet_aton held before it scanned the address text.
   */
  datatype Command =
    | WriteListener(ret: nat, dash: bool, lid: int, ip: string, unset: Unset, port: u16)
    | WriteRule(ret: nat, dash: bool, rid: u32, aid: u32, arg: u32)
    | WriteFilter(ret: nat, dash: bool, name: string, fid: int, ftype: int, rule: int, subtype: int, size: Option<int>)

  // ---- listener.c ----

  function NewListener(e: Endian, cmd: Command): Listener
    requires cmd.WriteListener?
  {
    Listener(U32(cmd.lid), cmd.ip, cmd.port, CpuToBe32(e, AtonWord(cmd.ip, cmd.unset)), CpuToBe16(e, cmd.port))
  }

  function ListenerEntryOf(addr: Addr, l: Listener): ListenerEntry {
    Entry((l.ipaddr, l.port), l.lid, Placed(addr, l))
  }

  /** The decision tree of proc_write in listener.c: what it does to the list, if anything. */
  function ListenerOp(e: Endian, next: Addr, cmd: Command): Option<Op<(string, u16), Placed<Listener>>>
    requires cmd.WriteListener?
  {
    if cmd.ret == 0 && cmd.dash then Some(Wipe)
    else if cmd.ret == 1 && cmd.lid < 0 then Some(DropId(U32(0 - cmd.lid)))
    else if cmd.ret >= 2 && |cmd.ip| > 1 then
      if U32(cmd.lid) == 0 || cmd.port == 0 then None
      else Some(Put(ListenerEntryOf(next, NewListener(e, cmd))))
    else None
  }

  // ---- rule.c ----

  /** rtap_rule_set_action on a zeroed rule; None when it fails. */
  function SetAction(listeners: seq<ListenerEntry>, rid: u32, aid: u32, arg: u32): Option<Rule<Addr>> {
    if aid == ACTION_DROP then Some(Rule(rid, aid, FnDrop, None))
    else if aid == ACTION_FWRD then
      var l :- First(listeners, ById(arg));
      Some(Rule(rid, aid, FnForward, Some(l.val.addr)))
    else if aid == ACTION_CNT then Some(Rule(rid, aid, FnCount, None))
    else None
  }

  /**
   * The decision tree of proc_write in rule.c. Its branch for removing one rule asks for a negative
   * value of an unsigned variable and is never taken.
   */
  function RuleOp(t: Tables, cmd: Command): Option<Op<u32, Placed<Rule<Addr>>>>
    requires cmd.WriteRule?
  {
    if cmd.ret == 0 && cmd.dash then Some(Wipe)
    else if cmd.ret > 1 && cmd.rid > 0 && cmd.aid > 0 then
      var r :- SetAction(t.listeners, cmd.rid, cmd.aid, cmd.arg);
      Some(Put(Entry(cmd.rid, cmd.rid, Placed(t.next, r))))
    else None
  }

  /** Writing a single number never removes the rule of that number: it changes nothing. */
  lemma SingleRuleStays(e: Endian, t: Tables, cmd: Command)
    requires cmd.WriteRule? && cmd.ret == 1
    ensures RuleOp(t, cmd).None? && Apply(e, t, cmd) == t
  {
  }

  /** The action exists, and forwarding has a listener of that number. */
  predicate GoodAction(t: Tables, aid: u32, arg: u32) {
    aid == ACTION_DROP || aid == ACTION_CNT || (aid == ACTION_FWRD && First(t.listeners, ById(arg)).Some?)
  }

  /** A listed rule goes if and only if all rules are cleared or a good rule with its id is written. */
  lemma RuleRemovals(e: Endian, t: Tables, cmd: Command, x: RuleEntry)
    requires Placements(t) && DistinctKeys(t.rules) && cmd.WriteRule? && x in t.rules
    ensures x !in Apply(e, t, cmd).rules <==>
      || (cmd.ret == 0 && cmd.dash)
      || (cmd.ret > 1 && cmd.rid == x.key && cmd.rid > 0 && GoodAction(t, cmd.aid, cmd.arg))
  {
    var op := RuleOp(t, cmd);
    if op.Some? && op.value.Put? {
      var added := op.value.entry;
      OthersStay(t.rules, added.key);
      assert x.val.addr != added.val.addr;
      assert x in Added(t.rules, added) <==> x in WithoutFirst(t.rules, ByKey(added.key));
    }
  }

  /** Replacing a key takes out its entry and no other. */
  lemma {:induction false} OthersStay<K, V>(s: seq<Entry<K, V>>, key: K)
    requires DistinctKeys(s)
    ensures forall x :: x in WithoutFirst(s, ByKey(key)) <==> x in s && x.key != key
  {
    if s != [] {
      assert s == [s[0]] + s[1..];
      assert forall x :: x in s[1..] ==> x.key != s[0].key;
      if s[0].key != key {
        OthersStay(s[1..], key);
      }
    }
  }

  // ---- filter.c ----

  function ByName(name: string): RefChain -> bool {
    (c: RefChain) => c.name == name
  }

  /** rtap_chain_find has no break: the last match wins. */
  function FindChain(chains: seq<RefChain>, name: string): Option<nat> {
    if chains == [] then None
    else if chains[|chains| - 1].name == name then Some(|chains| - 1)
    else FindChain(chains[..|chains| - 1], name)
  }

  /** rtap_chain_set_name keeps 31 characters. */
  function Stored(name: string): string {
    if |name| > 31 then name[..31] else name
  }

  /** The chains once the named one exists, and its index. */
  function EnsureChain(chains: seq<RefChain>, name: string): (seq<RefChain>, nat) {
    match FindChain(chains, name)
    case Some(c) => (chains, c)
    case None => (chains + [Chain(Stored(name), [])], |chains|)
  }

  function AppendFilter(chains: seq<RefChain>, c: nat, f: Filter<Addr>): seq<RefChain> {
    if c < |chains| then chains[c := chains[c].(filters := chains[c].filters + [f])] else chains
  }

  function NewFilter(t: Tables, cmd: Command): Filter<Addr>
    requires cmd.WriteFilter?
  {
    var r := First(t.rules, ById(U32(cmd.rule)));
    Filter(U32(cmd.fid), cmd.ftype, cmd.subtype, if r.Some? then Some(r.value.val.addr) else None, 0, cmd.size)
  }

  /** The setters refuse a zero type, rule id or subtype; an unknown rule id is accepted. */
  predicate GoodFilter(cmd: Command)
    requires cmd.WriteFilter?
  {
    U32(cmd.fid) != 0 && cmd.ftype != 0 && U32(cmd.rule) != 0 && cmd.subtype != 0
  }

  /**
   * The decision tree of proc_write in filter.c. A refused filter leaves a chain that was created
   * for it in the list. The branch for removing one filter does nothing.
   */
  function FilterChains(t: Tables, cmd: Command): seq<RefChain>
    requires cmd.WriteFilter?
  {
    if cmd.ret == 0 && cmd.dash then []
    else if cmd.ret == 1 && cmd.name != "" && cmd.name[0] == '-' then WithoutFirst(t.chains, ByName(cmd.name[1..]))
    else if cmd.ret >= 5 && cmd.fid > 0 then
      var (chains, c) := EnsureChain(t.chains, cmd.name);
      if GoodFilter(cmd) then AppendFilter(chains, c, NewFilter(t, cmd)) else chains
    else t.chains
  }

  /** The texts that reach a branch of that tree other than the last. */
  predicate Understood(cmd: Command)
    requires cmd.WriteFilter?
  {
    || (cmd.ret == 0 && cmd.dash)
    || (cmd.ret == 1 && cmd.name != "" && cmd.name[0] == '-')
    || (cmd.ret == 2 && cmd.fid < 0)
    || (cmd.ret >= 5 && cmd.fid > 0)
  }

  /** The texts answered with -1. */
  predicate Refused(cmd: Command)
    requires cmd.WriteFilter?
  {
    !Understood(cmd) || (cmd.ret >= 5 && !GoodFilter(cmd))
  }

  /** The texts for which a filter is really added. */
  predicate AddsFilter(cmd: Command)
    requires cmd.WriteFilter?
  {
    cmd.ret >= 5 && cmd.fid > 0 && GoodFilter(cmd)
  }

  function Apply(e: Endian, t: Tables, cmd: Command): Tables {
    match cmd
    case WriteListener(_, _, _, _, _, _) =>
      var op := ListenerOp(e, t.next, cmd);
      if op.None? then t else t.(listeners := Applied(t.listeners, op.value), next := t.next + 1)
    case WriteRule(_, _, _, _, _) =>
      var op := RuleOp(t, cmd);
      if op.None? then t else t.(rules := Applied(t.rules, op.value), next := t.next + 1)
    case WriteFilter(_, _, _, _, _, _, _, _) => t.(chains := FilterChains(t, cmd))
  }

  function Configured(e: Endian, cmds: seq<Command>): Tables {
    if cmds == [] then EMPTY else Apply(e, Configured(e, cmds[..|cmds| - 1]), cmds[|cmds| - 1])
  }

  // ---- Pointers ----

  function Addrs<K(==), T(==)>(s: seq<Entry<K, Placed<T>>>): set<Addr> {
    set e | e in s :: e.val.addr
  }

  /** Listed objects lie at different addresses, all of them handed out before `next`. */
  ghost predicate Placement<K, T>(s: seq<Entry<K, Placed<T>>>, next: Addr) {
    && (forall j, k :: 0 <= j < k < |s| ==> s[j].val.addr != s[k].val.addr)
    && (forall j :: 0 <= j < |s| ==> s[j].val.addr < next)
  }

  ghost predicate Placements(t: Tables) {
    Placement(t.listeners, t.next) && Placement(t.rules, t.next)
  }

  /** The listeners that listed FORWARD rules point to. */
  function UsedListeners(t: Tables): set<Addr> {
    set r | r in t.rules && r.val.obj.aid == ACTION_FWRD && r.val.obj.arg.Some? :: r.val.obj.arg.value
  }

  /** The rules that listed filters point to. */
  function UsedRules(t: Tables): set<Addr> {
    set c, f | 0 <= c < |t.chains| && 0 <= f < |t.chains[c].filters| && t.chains[c].filters[f].rule.Some?
      :: t.chains[c].filters[f].rule.value
  }

  ghost predicate ForwardRulesHaveListener(t: Tables) {
    forall r :: r in t.rules && r.val.obj.aid == ACTION_FWRD ==> r.val.obj.arg.Some?
  }

  /** No listed object points to one that is not listed. */
  ghost predicate Integrity(t: Tables) {
    && ForwardRulesHaveListener(t)
    && UsedListeners(t) <= Addrs(t.listeners)
    && UsedRules(t) <= Addrs(t.rules)
  }

  /** The addresses a list operation frees. */
  function Victims<K(==), T(==)>(s: seq<Entry<K, Placed<T>>>, op: Option<Op<K, Placed<T>>>): set<Addr> {
    match op
    case None => {}
    case Some(Wipe) => Addrs(s)
    case Some(Put(e)) => AddrOf(First(s, ByKey(e.key)))
    case Some(DropKey(k)) => AddrOf(First(s, ByKey(k)))
    case Some(DropId(id)) => AddrOf(First(s, ById(id)))
  }

  function AddrOf<K, T>(x: Option<Entry<K, Placed<T>>>): set<Addr> {
    if x.Some? then {x.value.val.addr} else {}
  }

  /** Nothing the command removes or replaces is pointed to. */
  ghost predicate RemovesOnlyUnused(e: Endian, t: Tables, cmd: Command) {
    match cmd
    case WriteListener(_, _, _, _, _, _) => Victims(t.listeners, ListenerOp(e, t.next, cmd)) !! UsedListeners(t)
    case WriteRule(_, _, _, _, _) => Victims(t.rules, RuleOp(t, cmd)) !! UsedRules(t)
    case WriteFilter(_, _, _, _, _, _, _, _) => true
  }

  lemma AddrsCons<K, T>(e: Entry<K, Placed<T>>, s: seq<Entry<K, Placed<T>>>)
    ensures Addrs([e] + s) == {e.val.addr} + Addrs(s)
  {
  }

  lemma PlacementTail<K, T>(s: seq<Entry<K, Placed<T>>>, next: Addr)
    requires s != [] && Placement(s, next)
    ensures Placement(s[1..], next) && s[0].val.addr !in Addrs(s[1..]) && s == [s[0]] + s[1..]
  {
    forall k | 0 <= k < |s[1..]| ensures s[1..][k].val.addr != s[0].val.addr {
      assert s[1..][k] == s[k + 1];
    }
  }

  lemma PlacementCons<K, T>(e: Entry<K, Placed<T>>, s: seq<Entry<K, Placed<T>>>, next: Addr)
    requires Placement(s, next) && e.val.addr < next && e.val.addr !in Addrs(s)
    ensures Placement([e] + s, next)
  {
    assert forall k :: 0 <= k < |s| ==> s[k].val.addr in Addrs(s);
  }

  lemma {:induction false} AddrsWithout<K, T>(s: seq<Entry<K, Placed<T>>>, p: Entry<K, Placed<T>> -> bool, next: Addr)
    requires Placement(s, next)
    ensures Placement(WithoutFirst(s, p), next)
    ensures Addrs(WithoutFirst(s, p)) == Addrs(s) - AddrOf(First(s, p))
  {
    if s != [] {
      PlacementTail(s, next);
      AddrsCons(s[0], s[1..]);
      if !p(s[0]) {
        AddrsWithout(s[1..], p, next);
        FirstIsIn(s[1..], p);
        AddrsCons(s[0], WithoutFirst(s[1..], p));
        PlacementCons(s[0], WithoutFirst(s[1..], p), next);
      }
    }
  }

  /** What an operation does to the set of listed addresses. */
  lemma AddrsApplied<K, T>(s: seq<Entry<K, Placed<T>>>, op: Op<K, Placed<T>>, next: Addr)
    requires Placement(s, next) && (op.Put? ==> op.entry.val.addr == next)
    ensures Placement(Applied(s, op), next + 1)
    ensures Addrs(Applied(s, op)) == Addrs(s) - Victims(s, Some(op)) + if op.Put? then {next} else {}
  {
    match op
    case Put(e) =>
      AddrsWithout(s, ByKey(e.key), next);
      var rest := WithoutFirst(s, ByKey(e.key));
      assert Addrs(rest + [e]) == Addrs(rest) + {next};
    case DropKey(k) => AddrsWithout(s, ByKey(k), next);
    case DropId(id) => AddrsWithout(s, ById(id), next);
    case Wipe =>
  }

  lemma PlacementGrows<K, T>(s: seq<Entry<K, Placed<T>>>, next: Addr)
    requires Placement(s, next)
    ensures Placement(s, next + 1)
  {
  }

  lemma PlacementsKept(e: Endian, t: Tables, cmd: Command)
    requires Placements(t)
    ensures Placements(Apply(e, t, cmd))
  {
    PlacementGrows(t.listeners, t.next);
    PlacementGrows(t.rules, t.next);
    match cmd
    case WriteListener(_, _, _, _, _, _) =>
      var op := ListenerOp(e, t.next, cmd);
      if op.Some? { AddrsApplied(t.listeners, op.value, t.next); }
    case WriteRule(_, _, _, _, _) =>
      var op := RuleOp(t, cmd);
      if op.Some? { AddrsApplied(t.rules, op.value, t.next); }
    case WriteFilter(_, _, _, _, _, _, _, _) =>
  }

  lemma ListenerIntegrity(e: Endian, t: Tables, cmd: Command)
    requires Placements(t) && Integrity(t) && cmd.WriteListener?
    ensures Integrity(Apply(e, t, cmd)) <==> RemovesOnlyUnused(e, t, cmd)
  {
    var op := ListenerOp(e, t.next, cmd);
    var r := Apply(e, t, cmd);
    assert UsedListeners(r) == UsedListeners(t) && UsedRules(r) == UsedRules(t);
    if op.Some? {
      AddrsApplied(t.listeners, op.value, t.next);
      assert t.next !in Addrs(t.listeners);
    }
  }

  lemma RuleIntegrity(e: Endian, t: Tables, cmd: Command)
    requires Placements(t) && Integrity(t) && cmd.WriteRule?
    ensures Integrity(Apply(e, t, cmd)) <==> RemovesOnlyUnused(e, t, cmd)
  {
    var op := RuleOp(t, cmd);
    var r := Apply(e, t, cmd);
    assert UsedRules(r) == UsedRules(t);
    if op.Some? {
      AddrsApplied(t.rules, op.value, t.next);
      assert t.next !in Addrs(t.rules);
      RuleKeepsListeners(e, t, cmd);
    }
  }

  /** Whatever a rule command does, the listeners of listed rules stay listed. */
  lemma RuleKeepsListeners(e: Endian, t: Tables, cmd: Command)
    requires Integrity(t) && cmd.WriteRule? && RuleOp(t, cmd).Some?
    ensures ForwardRulesHaveListener(Apply(e, t, cmd))
    ensures UsedListeners(Apply(e, t, cmd)) <= Addrs(t.listeners)
  {
    var op := RuleOp(t, cmd).value;
    if op.Put? {
      SubsetWithout(t.rules, ByKey(op.entry.key));
      FirstIsIn(t.listeners, ById(cmd.arg));
      forall r | r in Applied(t.rules, op) ensures r in t.rules || r == op.entry {
      }
    }
  }

  lemma {:induction false} SubsetWithout<T>(s: seq<T>, p: T -> bool)
    ensures forall x :: x in WithoutFirst(s, p) ==> x in s
  {
    if s != [] {
      assert s == [s[0]] + s[1..];
      if !p(s[0]) {
        SubsetWithout(s[1..], p);
      }
    }
  }

  lemma {:induction false} FirstIsIn<T>(s: seq<T>, p: T -> bool)
    ensures First(s, p).Some? ==> First(s, p).value in s && p(First(s, p).value)
  {
    if s != [] && !p(s[0]) {
      FirstIsIn(s[1..], p);
    }
  }

  // ---- Chains ----

  /** Every filter of `after` is one of `before` or has the rule given, if any. */
  ghost predicate FiltersFrom(before: seq<RefChain>, after: seq<RefChain>, rule: Option<Addr>) {
    forall c, f :: 0 <= c < |after| && 0 <= f < |after[c].filters| ==>
      || (exists ch :: ch in before && after[c].filters[f] in ch.filters)
      || after[c].filters[f].rule == rule
  }

  lemma {:induction false} ChainFound(chains: seq<RefChain>, name: string)
    ensures var r := FindChain(chains, name);
      && (r.Some? ==> r.value < |chains| && chains[r.value].name == name)
      && (r.None? ==> forall c :: 0 <= c < |chains| ==> chains[c].name != name)
  {
    if chains != [] {
      ChainFound(chains[..|chains| - 1], name);
    }
  }

  /**
   * A refused command should change nothing; it does so exactly when its text was not understood or
   * the chain it names is listed already. Otherwise the empty chain made for it stays.
   */
  lemma RefusedCommand(t: Tables, cmd: Command)
    requires cmd.WriteFilter? && Refused(cmd)
    ensures FilterChains(t, cmd) == t.chains <==> !Understood(cmd) || FindChain(t.chains, cmd.name).Some?
    ensures FilterChains(t, cmd) == t.chains || FilterChains(t, cmd) == t.chains + [Chain(Stored(cmd.name), [])]
  {
  }

  /** A refused command that leaves a chain behind: type 0 for a filter of a new chain. */
  lemma RefusedLeavesChain()
    ensures var cmd := WriteFilter(5, false, "lan", 1, 0, 1, 1, None);
      Refused(cmd) && FilterChains(EMPTY, cmd) == [Chain("lan", [])]
  {
  }

  /**
   * A command keeps every listed filter's type among the handled ones if and only if it does not add
   * a filter of another type.
   */
  lemma HandledExactly(t: Tables, cmd: Command)
    requires AllHandled(t.chains) && cmd.WriteFilter?
    ensures AllHandled(FilterChains(t, cmd)) <==> (AddsFilter(cmd) ==> 1 <= cmd.ftype <= 4)
  {
    ChainFound(t.chains, cmd.name);
    if AddsFilter(cmd) {
      var (chains, c) := EnsureChain(t.chains, cmd.name);
      var r := FilterChains(t, cmd);
      assert r[c].filters[|chains[c].filters|] == NewFilter(t, cmd);
      assert forall i :: 0 <= i < |r| && i != c ==> r[i] == chains[i];
    } else if cmd.ret == 1 && cmd.name != "" {
      SubsetWithout(t.chains, ByName(cmd.name[1..]));
      assert forall ch :: ch in t.chains ==> forall f :: 0 <= f < |ch.filters| ==> Handled(ch.filters[f].ftype);
    }
  }

  /** A command after which dispatch would call a handler that does not exist: a filter of type 5. */
  lemma UnhandledHappens()
    ensures !AllHandled(FilterChains(EMPTY, WriteFilter(5, false, "lan", 1, 5, 1, 1, None)))
  {
    HandledExactly(EMPTY, WriteFilter(5, false, "lan", 1, 5, 1, 1, None));
  }

  lemma FilterKeepsRules(t: Tables, cmd: Command)
    requires cmd.WriteFilter?
    ensures FiltersFrom(t.chains, FilterChains(t, cmd), NewFilter(t, cmd).rule)
  {
    ChainFound(t.chains, cmd.name);
    var after := FilterChains(t, cmd);
    if cmd.ret == 1 && cmd.name != "" {
      SubsetWithout(t.chains, ByName(cmd.name[1..]));
      assert cmd.name[0] == '-' ==> forall c :: 0 <= c < |after| ==> after[c] in t.chains;
    }
  }

  lemma FilterIntegrity(e: Endian, t: Tables, cmd: Command)
    requires Integrity(t) && cmd.WriteFilter?
    ensures Integrity(Apply(e, t, cmd))
  {
    var r := Apply(e, t, cmd);
    assert UsedListeners(r) == UsedListeners(t);
    FilterKeepsRules(t, cmd);
    FirstIsIn(t.rules, ById(U32(cmd.rule)));
    forall c, f | 0 <= c < |r.chains| && 0 <= f < |r.chains[c].filters| && r.chains[c].filters[f].rule.Some?
      ensures r.chains[c].filters[f].rule.value in Addrs(t.rules)
    {
      var x := r.chains[c].filters[f];
      if ch :| ch in t.chains && x in ch.filters {
        var c' :| 0 <= c' < |t.chains| && t.chains[c'] == ch;
        var f' :| 0 <= f' < |ch.filters| && ch.filters[f'] == x;
        assert x.rule.value in UsedRules(t);
      }
    }
  }

  /**
   * Referential integrity, exactly: from a state without dangling pointers a command leads to one
   * if and only if no entry it removes or replaces is pointed to.
   */
  lemma IntegrityExactly(e: Endian, t: Tables, cmd: Command)
    requires Placements(t) && Integrity(t)
    ensures Integrity(Apply(e, t, cmd)) <==> RemovesOnlyUnused(e, t, cmd)
  {
    match cmd
    case WriteListener(_, _, _, _, _, _) => ListenerIntegrity(e, t, cmd);
    case WriteRule(_, _, _, _, _) => RuleIntegrity(e, t, cmd);
    case WriteFilter(_, _, _, _, _, _, _, _) => FilterIntegrity(e, t, cmd);
  }

  lemma ConfiguredStep(e: Endian, cmds: seq<Command>, cmd: Command)
    ensures Configured(e, cmds + [cmd]) == Apply(e, Configured(e, cmds), cmd)
  {
    assert (cmds + [cmd])[..|cmds|] == cmds;
  }

  /** Adding a first listener, and a first rule that forwards to it. */
  lemma FirstListener(e: Endian, add: Command)
    requires add.WriteListener? && add.ret >= 2 && |add.ip| > 1 && U32(add.lid) != 0 && add.port != 0
    ensures Configured(e, [add]) == Tables([ListenerEntryOf(0, NewListener(e, add))], [], [], 1)
  {
    ConfiguredStep(e, [], add);
    assert [] + [add] == [add];
  }

  function ForwardEntry(rid: u32, listener: Addr): RuleEntry {
    Entry(rid, rid, Placed(1, Rule(rid, ACTION_FWRD, FnForward, Some(listener))))
  }

  lemma FirstRule(e: Endian, x: ListenerEntry, rule: Command)
    requires rule.WriteRule? && rule.ret > 1 && rule.rid > 0 && rule.aid == ACTION_FWRD && rule.arg == x.id
    ensures Apply(e, Tables([x], [], [], 1), rule) == Tables([x], [ForwardEntry(rule.rid, x.val.addr)], [], 2)
  {
  }

  lemma FirstTwo(e: Endian, add: Command, rule: Command)
    requires add.WriteListener? && add.ret >= 2 && |add.ip| > 1 && U32(add.lid) != 0 && add.port != 0
    requires rule.WriteRule? && rule.ret > 1 && rule.rid > 0 && rule.aid == ACTION_FWRD && rule.arg == U32(add.lid)
    ensures Configured(e, [add] + [rule]) ==
      Tables([ListenerEntryOf(0, NewListener(e, add))], [ForwardEntry(rule.rid, 0)], [], 2)
  {
    FirstListener(e, add);
    FirstRule(e, ListenerEntryOf(0, NewListener(e, add)), rule);
    ConfiguredStep(e, [add], rule);
  }

  /**
   * A history that leaves a dangling pointer: a listener is added, a rule that forwards to it, and
   * then the listener is removed.
   */
  lemma DanglingHappens(e: Endian, add: Command, rule: Command, remove: Command)
    requires add.WriteListener? && add.ret >= 2 && |add.ip| > 1 && 0 < add.lid < 0x8000_0000 && add.port != 0
    requires rule.WriteRule? && rule.ret > 1 && rule.rid > 0 && rule.aid == ACTION_FWRD && rule.arg == add.lid
    requires remove.WriteListener? && remove.ret == 1 && remove.lid == 0 - add.lid
    ensures Integrity(Configured(e, [add] + [rule])) && !Integrity(Configured(e, [add] + [rule] + [remove]))
  {
    FirstTwo(e, add, rule);
    ConfiguredStep(e, [add] + [rule], remove);
    RemovalDangles(e, ListenerEntryOf(0, NewListener(e, add)), ForwardEntry(rule.rid, 0), remove);
  }

  /** Removing the one listener that the one rule forwards to. */
  lemma RemovalDangles(e: Endian, x: ListenerEntry, y: RuleEntry, remove: Command)
    requires y.val.obj.aid == ACTION_FWRD && y.val.obj.arg == Some(x.val.addr) && x.val.addr < 2 && y.val.addr < 2
    requires remove.WriteListener? && remove.ret == 1 && remove.lid < 0 && U32(0 - remove.lid) == x.id
    ensures Integrity(Tables([x], [y], [], 2)) && !Integrity(Apply(e, Tables([x], [y], [], 2), remove))
  {
    var t := Tables([x], [y], [], 2);
    assert UsedListeners(t) == {x.val.addr};
    assert x in t.listeners && x.val.addr in Addrs(t.listeners);
    assert Victims(t.listeners, Some(DropId(x.id))) == {x.val.addr};
    IntegrityExactly(e, t, remove);
  }

  /** So it holds after every history whose commands remove nothing in use. */
  lemma {:induction false} IntegrityThroughout(e: Endian, cmds: seq<Command>)
    requires forall k :: 0 <= k < |cmds| ==> RemovesOnlyUnused(e, Configured(e, cmds[..k]), cmds[k])
    ensures Placements(Configured(e, cmds)) && Integrity(Configured(e, cmds))
  {
    if cmds != [] {
      var n := |cmds| - 1;
      assert forall k :: 0 <= k < n ==> cmds[..n][..k] == cmds[..k] && cmds[..n][k] == cmds[k];
      IntegrityThroughout(e, cmds[..n]);
      PlacementsKept(e, Configured(e, cmds[..n]), cmds[n]);
      IntegrityExactly(e, Configured(e, cmds[..n]), cmds[n]);
    }
  }
}
