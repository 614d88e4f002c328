/**
 * What each write does, said of the listed objects themselves: which go, which come, with what in
 * them, and that all others stay in their order.
 */
module Writes {
  import opened Words
  import opened Options
  import opened Lists
  import opened Dispatch
  import opened Registry
  import opened Config
  import opened ConfigHistory
  import opened Proc

  /** Entries are keyed and numbered by what their objects hold, at addresses of their own. */
  ghost predicate Indexed(t: Tables) {
    && Placements(t)
    && (forall x :: x in t.listeners ==> x.id == x.val.obj.lid && x.key == (x.val.obj.ipaddr, x.val.obj.port))
    && (forall x :: x in t.rules ==> x.id == x.val.obj.rid && x.key == x.val.obj.rid)
  }

  lemma AlwaysIndexed(e: Endian, cmds: seq<Command>)
    ensures Indexed(Configured(e, cmds))
  {
    AlwaysPlaced(e, cmds);
    ListenersAreGood(e, cmds);
    RulesAreGood(e, cmds);
  }

  // ---- listener.c ----

  /** The new list is the old one without the entry replaced, if any, and one entry more at its end. */
  ghost predicate Replaces<T>(before: seq<T>, after: seq<T>, p: T -> bool) {
    after != [] && TakesOut(before, after[..|after| - 1], p)
  }

  lemma {:induction false} AddReplaces<K, V>(s: seq<Entry<K, V>>, e: Entry<K, V>, p: Entry<K, V> -> bool)
    requires forall x :: x in s ==> p(x) == (x.key == e.key)
    ensures Replaces(s, Added(s, e), p) && Added(s, e)[|Added(s, e)| - 1] == e
  {
    WithoutFirstTakesOut(s, ByKey(e.key));
    TakesOutSame(s, WithoutFirst(s, ByKey(e.key)), ByKey(e.key), p);
    assert Added(s, e)[..|Added(s, e)| - 1] == WithoutFirst(s, ByKey(e.key));
  }

  lemma {:induction false} RemovalTakesOut<K, V>(s: seq<Entry<K, V>>, id: int, p: Entry<K, V> -> bool)
    requires forall x :: x in s ==> p(x) == (x.id == id)
    ensures TakesOut(s, WithoutFirst(s, ById(id)), p)
  {
    WithoutFirstTakesOut(s, ById(id));
    TakesOutSame(s, WithoutFirst(s, ById(id)), ById(id), p);
  }

  ghost predicate AddsListener(cmd: Command)
    requires cmd.WriteListener?
  {
    cmd.ret >= 2 && |cmd.ip| > 1 && cmd.lid != 0 && cmd.port != 0
  }

  /** The listener a command describes, at an address not in use. */
  ghost predicate ListenerAsWritten(t: Tables, cmd: Command, x: ListenerEntry)
    requires cmd.WriteListener?
  {
    && x.val.obj.lid == cmd.lid % 0x1_0000_0000 && x.val.obj.ipaddr == cmd.ip && x.val.obj.port == cmd.port
    && forall y :: y in t.listeners ==> y.val.addr != x.val.addr
  }

  lemma AddressReplaced(t: Tables, x: ListenerEntry, ip: string, port: u16)
    requires Indexed(t) && x.key == (ip, port)
    ensures var after := Added(t.listeners, x);
      && Replaces(t.listeners, after, (y: ListenerEntry) => y.val.obj.ipaddr == ip && y.val.obj.port == port)
      && after[|after| - 1] == x
  {
    AddReplaces(t.listeners, x, (y: ListenerEntry) => y.val.obj.ipaddr == ip && y.val.obj.port == port);
  }

  lemma NewListenerAsWritten(e: Endian, t: Tables, cmd: Command)
    requires Indexed(t) && cmd.WriteListener?
    ensures ListenerAsWritten(t, cmd, ListenerEntryOf(t.next, NewListener(e, cmd)))
    ensures ListenerEntryOf(t.next, NewListener(e, cmd)).key == (cmd.ip, cmd.port)
  {
  }

  lemma ListenerPut(e: Endian, t: Tables, cmd: Command)
    requires cmd.WriteListener? && -0x8000_0000 <= cmd.lid < 0x8000_0000 && AddsListener(cmd)
    ensures Config.Apply(e, t, cmd).listeners == Added(t.listeners, ListenerEntryOf(t.next, NewListener(e, cmd)))
  {
    assert ListenerOp(e, t.next, cmd) == Some(Put(ListenerEntryOf(t.next, NewListener(e, cmd))));
  }

  lemma ListenerAdded(e: Endian, t: Tables, cmd: Command)
    requires Indexed(t) && cmd.WriteListener? && -0x8000_0000 <= cmd.lid < 0x8000_0000 && AddsListener(cmd)
    ensures var after := Config.Apply(e, t, cmd).listeners;
      && Replaces(t.listeners, after,
                  (x: ListenerEntry) => x.val.obj.ipaddr == cmd.ip && x.val.obj.port == cmd.port)
      && ListenerAsWritten(t, cmd, after[|after| - 1])
  {
    ListenerPut(e, t, cmd);
    NewListenerAsWritten(e, t, cmd);
    AddressReplaced(t, ListenerEntryOf(t.next, NewListener(e, cmd)), cmd.ip, cmd.port);
  }

  lemma ListenerRemoved(e: Endian, t: Tables, cmd: Command)
    requires Indexed(t) && cmd.WriteListener? && -0x8000_0000 <= cmd.lid < 0 && cmd.ret == 1
    ensures TakesOut(t.listeners, Config.Apply(e, t, cmd).listeners,
                     (x: ListenerEntry) => x.val.obj.lid == 0 - cmd.lid)
  {
    assert ListenerOp(e, t.next, cmd) == Some(DropId(0 - cmd.lid));
    RemovalTakesOut(t.listeners, 0 - cmd.lid, (x: ListenerEntry) => x.val.obj.lid == 0 - cmd.lid);
  }

  lemma ListenersKept(e: Endian, t: Tables, cmd: Command)
    requires cmd.WriteListener? && -0x8000_0000 <= cmd.lid < 0x8000_0000
    ensures Config.Apply(e, t, cmd).rules == t.rules && Config.Apply(e, t, cmd).chains == t.chains
    ensures cmd.ret == 0 && cmd.dash ==> Config.Apply(e, t, cmd).listeners == []
    ensures !(cmd.ret == 0 && cmd.dash) && !(cmd.ret == 1 && cmd.lid < 0) && !AddsListener(cmd) ==>
      Config.Apply(e, t, cmd) == t
  {
    assert cmd.ret == 0 && cmd.dash ==> ListenerOp(e, t.next, cmd) == Some(Wipe);
  }

  /**
   * A dash clears the listeners, a negative number removes the first listener of that number, an
   * accepted listener replaces the one of the same address and port and comes last, and any other
   * text changes nothing.
   */
  ghost predicate ListenerEffect(t: Tables, r: Tables, cmd: Command)
    requires cmd.WriteListener?
  {
    && r.rules == t.rules && r.chains == t.chains
    && if cmd.ret == 0 && cmd.dash then
         r.listeners == []
       else if cmd.ret == 1 && cmd.lid < 0 then
         TakesOut(t.listeners, r.listeners, (x: ListenerEntry) => x.val.obj.lid == 0 - cmd.lid)
       else if AddsListener(cmd) then
         && Replaces(t.listeners, r.listeners,
                     (x: ListenerEntry) => x.val.obj.ipaddr == cmd.ip && x.val.obj.port == cmd.port)
         && ListenerAsWritten(t, cmd, r.listeners[|r.listeners| - 1])
       else
         r == t
  }

  /** The effect of every text, and which texts are answered with -1: those that match no case. */
  lemma {:induction false} ListenerWrites(e: Endian, t: Tables, cmd: Command)
    requires Indexed(t) && cmd.WriteListener? && -0x8000_0000 <= cmd.lid < 0x8000_0000
    ensures ListenerEffect(t, Config.Apply(e, t, cmd), cmd)
    ensures ListenerOp(e, t.next, cmd).None? <==>
      !(cmd.ret == 0 && cmd.dash) && !(cmd.ret == 1 && cmd.lid < 0) && !AddsListener(cmd)
  {
    ListenersKept(e, t, cmd);
    if cmd.ret == 1 && cmd.lid < 0 {
      ListenerRemoved(e, t, cmd);
    } else if AddsListener(cmd) {
      ListenerAdded(e, t, cmd);
    }
  }

  // ---- rule.c ----

  ghost predicate AddsRule(t: Tables, cmd: Command)
    requires cmd.WriteRule?
  {
    && cmd.ret > 1 && cmd.rid > 0
    && (cmd.aid in {1, 3} || (cmd.aid == 2 && exists x :: x in t.listeners && x.val.obj.lid == cmd.arg))
  }

  /**
   * The rule a command describes: DROP and COUNT, actions 1 and 3, have no listener; FORWARD, action
   * 2, has the first listener of the number that was written.
   */
  ghost predicate RuleAsWritten(t: Tables, cmd: Command, r: Rule<Addr>)
    requires cmd.WriteRule?
  {
    && r.rid == cmd.rid && r.aid == cmd.aid
    && (cmd.aid == 1 ==> r.func == FnDrop && r.arg == None)
    && (cmd.aid == 3 ==> r.func == FnCount && r.arg == None)
    && (cmd.aid == 2 ==> r.func == FnForward && exists k: nat ::
          && IsFirst(t.listeners, (x: ListenerEntry) => x.val.obj.lid == cmd.arg, k)
          && r.arg == Some(t.listeners[k].val.addr))
  }

  /** The listener looked up by number is the first of that number. */
  lemma ListenerById(t: Tables, id: u32)
    requires Indexed(t)
    ensures First(t.listeners, ById(id)).Some? ==> exists k: nat ::
      && IsFirst(t.listeners, (x: ListenerEntry) => x.val.obj.lid == id, k)
      && First(t.listeners, ById(id)).value == t.listeners[k]
    ensures First(t.listeners, ById(id)).None? ==> forall x :: x in t.listeners ==> x.val.obj.lid != id
  {
    WithoutFirstTakesOut(t.listeners, ById(id));
    if First(t.listeners, ById(id)).Some? {
      var k: nat :| IsFirst(t.listeners, ById(id), k) && First(t.listeners, ById(id)).value == t.listeners[k];
      assert IsFirst(t.listeners, (x: ListenerEntry) => x.val.obj.lid == id, k);
    }
  }

  /**
   * A dash clears the rules, an accepted rule replaces the one of the same number and comes last, and
   * any other text changes nothing.
   */
  lemma RuleWrites(e: Endian, t: Tables, cmd: Command)
    requires Indexed(t) && cmd.WriteRule?
    ensures Config.Apply(e, t, cmd).listeners == t.listeners && Config.Apply(e, t, cmd).chains == t.chains
    ensures cmd.ret == 0 && cmd.dash ==> Config.Apply(e, t, cmd).rules == []
    ensures AddsRule(t, cmd) ==>
      var after := Config.Apply(e, t, cmd).rules;
      && Replaces(t.rules, after, (x: RuleEntry) => x.val.obj.rid == cmd.rid)
      && RuleAsWritten(t, cmd, after[|after| - 1].val.obj)
      && forall y :: y in t.rules ==> y.val.addr != after[|after| - 1].val.addr
    ensures !(cmd.ret == 0 && cmd.dash) && !AddsRule(t, cmd) ==> Config.Apply(e, t, cmd) == t
    ensures RuleOp(t, cmd).None? <==> !(cmd.ret == 0 && cmd.dash) && !AddsRule(t, cmd)
  {
    ListenerById(t, cmd.arg);
    if AddsRule(t, cmd) {
      AddReplaces(t.rules, RuleOp(t, cmd).value.entry, (x: RuleEntry) => x.val.obj.rid == cmd.rid);
    }
  }

  // ---- filter.c ----

  ghost predicate RemovesChain(cmd: Command)
    requires cmd.WriteFilter?
  {
    cmd.ret == 1 && cmd.name != "" && cmd.name[0] == '-'
  }

  /** The texts that reach the branch for adding a filter; those with a zero field are refused there. */
  ghost predicate NamesFilter(cmd: Command)
    requires cmd.WriteFilter?
  {
    cmd.ret >= 5 && cmd.fid > 0
  }

  ghost predicate Complete(cmd: Command)
    requires cmd.WriteFilter?
  {
    cmd.ftype != 0 && cmd.rule % 0x1_0000_0000 != 0 && cmd.subtype != 0
  }

  /** The filter a command describes, with the first rule of the number that was written, if any. */
  ghost predicate FilterAsWritten(t: Tables, cmd: Command, f: Filter<Addr>)
    requires cmd.WriteFilter?
  {
    && f.fid == cmd.fid && f.ftype == cmd.ftype && f.subtype == cmd.subtype && f.size == cmd.size && f.count == 0
    && (f.rule.Some? ==> exists k: nat ::
          && IsFirst(t.rules, (x: RuleEntry) => x.val.obj.rid == cmd.rule % 0x1_0000_0000, k)
          && f.rule.value == t.rules[k].val.addr)
    && (f.rule.None? ==> forall x :: x in t.rules ==> x.val.obj.rid != cmd.rule % 0x1_0000_0000)
  }

  /** The chains with these filters appended to the one of that name, which is made if need be. */
  ghost predicate Appended(before: seq<RefChain>, after: seq<RefChain>, name: string, more: seq<Filter<Addr>>) {
    if exists c :: c in before && c.name == name then
      && |after| == |before|
      && forall i :: 0 <= i < |before| ==>
           after[i] == if before[i].name == name then Chain(name, before[i].filters + more) else before[i]
    else
      after == before + [Chain(if |name| > 31 then name[..31] else name, more)]
  }

  lemma NewFilterAsWritten(t: Tables, cmd: Command)
    requires Indexed(t) && cmd.WriteFilter? && 0 < cmd.fid < 0x8000_0000
    ensures FilterAsWritten(t, cmd, NewFilter(t, cmd))
  {
    var id := U32(cmd.rule);
    WithoutFirstTakesOut(t.rules, ById(id));
    if First(t.rules, ById(id)).Some? {
      var k: nat :| IsFirst(t.rules, ById(id), k) && First(t.rules, ById(id)).value == t.rules[k];
      assert IsFirst(t.rules, (x: RuleEntry) => x.val.obj.rid == cmd.rule % 0x1_0000_0000, k);
    }
  }

  lemma ChainRemoval(t: Tables, cmd: Command)
    requires UniqueNames(t.chains) && cmd.WriteFilter? && RemovesChain(cmd)
    ensures var after := FilterChains(t, cmd);
      && TakesOut(t.chains, after, (c: RefChain) => c.name == cmd.name[1..])
      && forall c :: c in after <==> c in t.chains && c.name != cmd.name[1..]
  {
    WithoutFirstTakesOut(t.chains, ByName(cmd.name[1..]));
    TakesOutSame(t.chains, WithoutFirst(t.chains, ByName(cmd.name[1..])), ByName(cmd.name[1..]),
                 (c: RefChain) => c.name == cmd.name[1..]);
    UniqueWithout(t.chains, cmd.name[1..]);
  }

  /** The texts answered with -1 are those that match no case, and incomplete filters. */
  lemma FilterAnswers(cmd: Command)
    requires cmd.WriteFilter? && cmd.fid < 0x8000_0000
    ensures Refused(cmd) <==>
      && !(cmd.ret == 0 && cmd.dash) && !RemovesChain(cmd) && !(cmd.ret == 2 && cmd.fid < 0)
      && !(NamesFilter(cmd) && Complete(cmd))
  {
  }

  lemma ChainAppend(t: Tables, cmd: Command)
    requires Indexed(t) && UniqueNames(t.chains) && cmd.WriteFilter? && NamesFilter(cmd) && cmd.fid < 0x8000_0000
    ensures Complete(cmd) ==>
      exists f :: FilterAsWritten(t, cmd, f) && Appended(t.chains, FilterChains(t, cmd), cmd.name, [f])
    ensures !Complete(cmd) ==> Appended(t.chains, FilterChains(t, cmd), cmd.name, [])
  {
    ChainFound(t.chains, cmd.name);
    NewFilterAsWritten(t, cmd);
    var after := FilterChains(t, cmd);
    var more := if Complete(cmd) then [NewFilter(t, cmd)] else [];
    assert GoodFilter(cmd) == Complete(cmd);
    match FindChain(t.chains, cmd.name)
    case None => assert [] + more == more;
    case Some(c) =>
      assert t.chains[c] in t.chains && t.chains[c].filters + [] == t.chains[c].filters;
      assert forall i :: 0 <= i < |t.chains| && i != c ==> t.chains[i].name != cmd.name;
  }

  /**
   * A dash and a name removes the chain of that name and no other; a complete filter goes to the end
   * of the chain of its name, which is made if need be; an incomplete one leaves at most an empty
   * chain; any other text changes nothing.
   */
  lemma FilterWrites(e: Endian, t: Tables, cmd: Command)
    requires Indexed(t) && UniqueNames(t.chains) && cmd.WriteFilter? && cmd.fid < 0x8000_0000
    ensures Config.Apply(e, t, cmd).listeners == t.listeners && Config.Apply(e, t, cmd).rules == t.rules
    ensures cmd.ret == 0 && cmd.dash ==> Config.Apply(e, t, cmd).chains == []
    ensures RemovesChain(cmd) ==>
      var after := Config.Apply(e, t, cmd).chains;
      && TakesOut(t.chains, after, (c: RefChain) => c.name == cmd.name[1..])
      && forall c :: c in after <==> c in t.chains && c.name != cmd.name[1..]
    ensures NamesFilter(cmd) && Complete(cmd) ==>
      exists f :: FilterAsWritten(t, cmd, f) && Appended(t.chains, Config.Apply(e, t, cmd).chains, cmd.name, [f])
    ensures NamesFilter(cmd) && !Complete(cmd) ==>
      Appended(t.chains, Config.Apply(e, t, cmd).chains, cmd.name, [])
    ensures !(cmd.ret == 0 && cmd.dash) && !RemovesChain(cmd) && !NamesFilter(cmd) ==> Config.Apply(e, t, cmd) == t
  {
    if RemovesChain(cmd) {
      ChainRemoval(t, cmd);
    } else if NamesFilter(cmd) {
      ChainAppend(t, cmd);
    }
  }

  // ---- device.c ----

  ghost predicate AddsDevice(cmd: DeviceCommand) {
    cmd.ret == 1 && |cmd.name| > 1 && cmd.name[0] != '-'
  }

  /** The name without a leading sign. */
  function Bare(cmd: DeviceCommand): string
    requires |cmd.name| > 1
  {
    if cmd.name[0] == '+' || cmd.name[0] == '-' then cmd.name[1..] else cmd.name
  }

  /**
   * A dash alone clears the devices, a dash and a name removes the device of that name; a name, with
   * or without a plus sign, replaces it and lists the new one last if that can be made; any other text
   * changes nothing.
   */
  lemma DeviceWrites(cmds: seq<DeviceCommand>, cmd: DeviceCommand)
    ensures cmd.ret == 1 && cmd.name == "-" ==> Devices(cmds + [cmd]) == []
    ensures cmd.ret == 1 && |cmd.name| > 1 && cmd.name[0] == '-' ==>
      TakesOut(Devices(cmds), Devices(cmds + [cmd]), (x: DeviceEntry) => x.key == Bare(cmd))
    ensures AddsDevice(cmd) && cmd.available ==>
      var after := Devices(cmds + [cmd]);
      && Replaces(Devices(cmds), after, (x: DeviceEntry) => x.key == Bare(cmd))
      && after[|after| - 1].key == Bare(cmd)
    ensures AddsDevice(cmd) && !cmd.available ==>
      TakesOut(Devices(cmds), Devices(cmds + [cmd]), (x: DeviceEntry) => x.key == Bare(cmd))
    ensures cmd.ret != 1 || |cmd.name| == 0 || (|cmd.name| == 1 && cmd.name[0] != '-') ==>
      Devices(cmds + [cmd]) == Devices(cmds)
    ensures DeviceOp(cmd).None? <==> cmd.ret != 1 || |cmd.name| == 0 || (|cmd.name| == 1 && cmd.name[0] != '-')
  {
    assert (cmds + [cmd])[..|cmds|] == cmds;
    if cmd.ret == 1 && |cmd.name| > 1 {
      var p := ByKey<string, ()>(Bare(cmd));
      WithoutFirstTakesOut(Devices(cmds), p);
      TakesOutSame(Devices(cmds), WithoutFirst(Devices(cmds), p), p, (x: DeviceEntry) => x.key == Bare(cmd));
    }
  }
}
