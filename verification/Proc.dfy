/** The proc_write handlers as they run: objects filled in by setters, then put on the lists. */
module Proc {
  import opened Words
  import opened Options
  import opened Lists
  import opened DottedQuad
  import opened Ring
  import opened Dispatch
  import opened Registry
  import opened Config

  class ListenerObject {
    var lid: u32
    var ipaddr: string
    var port: u16
    var sinAddr: u32
    var sinPort: u16

    /** listener_create: all zero. */
    constructor ()
      ensures View() == Listener(0, "", 0, 0, 0)
    {
      lid, ipaddr, port, sinAddr, sinPort := 0, "", 0, 0, 0;
    }

    function View(): Listener
      reads this
    {
      Listener(lid, ipaddr, port, sinAddr, sinPort)
    }

    method SetId(id: u32) returns (ret: int)
      modifies this`lid
      ensures ret == if id == 0 then -1 else 0
      ensures View() == if id == 0 then old(View()) else old(View()).(lid := id)
    {
      ret := -1;
      if id != 0 {
        lid := id;
        ret := 0;
      }
    }

    /** Never fails on a text, since inet_aton does not; the text is stored as it is. */
    method SetIpAddr(e: Endian, addr: string, unset: Unset) returns (ret: int)
      modifies this`ipaddr, this`sinAddr
      ensures ret == 0
      ensures View() == old(View()).(ipaddr := addr, sinAddr := CpuToBe32(e, AtonWord(addr, unset)))
    {
      ret := -1;
      var ok, word := InetAton(e, Some(addr), unset, sinAddr);
      if ok != 0 {
        sinAddr := word;
        ipaddr := addr;
        ret := 0;
      }
    }

    method SetPort(e: Endian, p: u16) returns (ret: int)
      modifies this`port, this`sinPort
      ensures ret == if p == 0 then -1 else 0
      ensures View() == if p == 0 then old(View()) else old(View()).(port := p, sinPort := CpuToBe16(e, p))
    {
      ret := -1;
      if p != 0 {
        sinPort := CpuToBe16(e, p);
        port := p;
        ret := 0;
      }
    }
  }

  /** Creates a listener and runs the setters until one refuses. */
  method Fill(e: Endian, cmd: Command) returns (r: Option<Listener>)
    requires cmd.WriteListener?
    ensures r == if U32(cmd.lid) == 0 || cmd.port == 0 then None else Some(NewListener(e, cmd))
  {
    var l := new ListenerObject();
    var err := l.SetId(U32(cmd.lid));
    if err == 0 {
      err := l.SetIpAddr(e, cmd.ip, cmd.unset);
    }
    if err == 0 {
      err := l.SetPort(e, cmd.port);
    }
    return if err != 0 then None else Some(l.View());
  }

  /** proc_write of listener.c. The list changes as the command's operation says, or not at all. */
  method WriteListeners(e: Endian, ring: Ring<ListenerEntry>, next: Addr, cmd: Command) returns (ret: int)
    requires ring.Valid() && cmd.WriteListener?
    modifies ring`nodes, ring.head, ring.NodeSet()
    ensures ring.Valid() && fresh(ring.NodeSet() - old(ring.NodeSet()))
    ensures ret == if ListenerOp(e, next, cmd).None? then -1 else 0
    ensures ListenerOp(e, next, cmd).None? ==> ring.Items() == old(ring.Items())
    ensures ListenerOp(e, next, cmd).Some? ==>
      ring.Items() == Applied(old(ring.Items()), ListenerOp(e, next, cmd).value)
  {
    if cmd.ret == 0 && cmd.dash {
      ring.Clear();
      return 0;
    } else if cmd.ret == 1 && cmd.lid < 0 {
      RemoveById(ring, U32(0 - cmd.lid));
      return 0;
    } else if cmd.ret >= 2 && |cmd.ip| > 1 {
      var l := Fill(e, cmd);
      if l.None? {
        return -1;
      }
      Add(ring, ListenerEntryOf(next, l.value));
      return 0;
    } else {
      return -1;
    }
  }

  /** Finding by number yields the first entry of that number. */
  lemma FirstById<K, V>(s: seq<Entry<K, V>>, id: int)
    ensures First(s, ById(id)).None? <==> forall x :: x in s ==> x.id != id
    ensures First(s, ById(id)).Some? ==> exists k: nat ::
      IsFirst(s, (x: Entry<K, V>) => x.id == id, k) && First(s, ById(id)) == Some(s[k])
  {
    WithoutFirstTakesOut(s, ById(id));
    if First(s, ById(id)).Some? {
      var k: nat :| IsFirst(s, ById(id), k) && First(s, ById(id)).value == s[k];
      assert IsFirst(s, (x: Entry<K, V>) => x.id == id, k);
      assert s[k] in s;
    }
  }

  class RuleObject {
    var rid: u32
    var aid: int
    var func: ActionFn
    var arg: Option<Addr>

    constructor ()
      ensures View() == Rule(0, 0, FnUnset, None)
    {
      rid, aid, func, arg := 0, 0, FnUnset, None;
    }

    function View(): Rule<Addr>
      reads this
    {
      Rule(rid, aid, func, arg)
    }

    method SetId(id: u32) returns (ret: int)
      modifies this`rid
      ensures ret == if id == 0 then -1 else 0
      ensures View() == if id == 0 then old(View()) else old(View()).(rid := id)
    {
      ret := -1;
      if id != 0 {
        rid := id;
        ret := 0;
      }
    }

    /** rtap_rule_set_action: succeeds with exactly the rule specified, or fails. */
    method SetAction(listeners: Ring<ListenerEntry>, id: u32, value: u32) returns (ret: int)
      requires listeners.Valid() && arg == None
      modifies this`aid, this`func, this`arg
      ensures ret == if id != 0 && Config.SetAction(listeners.Items(), rid, id, value).Some? then 0 else -1
      ensures ret == 0 ==> Config.SetAction(listeners.Items(), rid, id, value) == Some(View())
      ensures ret == 0 <==> id in {1, 3} || (id == 2 && exists x :: x in listeners.Items() && x.id == value)
      ensures ret == 0 ==> aid == id && rid == old(rid) && (id, func) in {(1, FnDrop), (2, FnForward), (3, FnCount)}
      ensures ret == 0 && id == 2 ==> exists k: nat ::
        && IsFirst(listeners.Items(), (x: ListenerEntry) => x.id == value, k)
        && arg == Some(listeners.Items()[k].val.addr)
      ensures ret == 0 && id != 2 ==> arg == None
    {
      ghost var numbered := (x: ListenerEntry) => x.id == value;
      FirstById(listeners.Items(), value);
      ret := -1;
      if id != 0 {
        aid := id;
        if id == ACTION_DROP {
          func := FnDrop;
          ret := 0;
        } else if id == ACTION_FWRD {
          func := FnForward;
          var l := listeners.Find(ById(value));
          if l.Some? {
            arg := Some(l.value.val.addr);
            ret := 0;
          }
        } else if id == ACTION_CNT {
          func := FnCount;
          ret := 0;
        }
      }
    }
  }

  /** Creates a rule and runs the setters until one refuses. */
  method FillRule(listeners: Ring<ListenerEntry>, cmd: Command) returns (r: Option<Rule<Addr>>)
    requires listeners.Valid() && cmd.WriteRule? && cmd.rid > 0 && cmd.aid > 0
    ensures r == Config.SetAction(listeners.Items(), cmd.rid, cmd.aid, cmd.arg)
    ensures r.Some? ==> r.value.rid == cmd.rid
  {
    var rule := new RuleObject();
    var err := rule.SetId(cmd.rid);
    if err == 0 {
      err := rule.SetAction(listeners, cmd.aid, cmd.arg);
    }
    return if err != 0 then None else Some(rule.View());
  }

  /** proc_write of rule.c. */
  method WriteRules(listeners: Ring<ListenerEntry>, rules: Ring<RuleEntry>, ghost t: Tables, next: Addr, cmd: Command)
    returns (ret: int)
    requires listeners.Valid() && rules.Valid() && cmd.WriteRule?
    requires t.listeners == listeners.Items() && t.rules == rules.Items() && t.next == next
    modifies rules`nodes, rules.head, rules.NodeSet()
    ensures rules.Valid() && fresh(rules.NodeSet() - old(rules.NodeSet()))
    ensures ret == if RuleOp(t, cmd).None? then -1 else 0
    ensures rules.Items() == if RuleOp(t, cmd).None? then t.rules else Applied(t.rules, RuleOp(t, cmd).value)
  {
    if cmd.ret == 0 && cmd.dash {
      rules.Clear();
      return 0;
    } else if cmd.ret > 1 && cmd.rid > 0 && cmd.aid > 0 {
      var r := FillRule(listeners, cmd);
      if r.None? {
        return -1;
      }
      Add(rules, Entry(r.value.rid, r.value.rid, Placed(next, r.value)));
      return 0;
    } else {
      return -1;
    }
  }

  class ChainTable {
    var chains: seq<RefChain>

    constructor ()
      ensures chains == []
    {
      chains := [];
    }

    /** rtap_chain_find: the loop runs to the end and keeps the last match. */
    method Find(name: string) returns (r: Option<nat>)
      ensures r == FindChain(chains, name)
    {
      r := None;
      for c := 0 to |chains|
        invariant r == FindChain(chains[..c], name)
      {
        assert chains[..c + 1][..c] == chains[..c];
        if chains[c].name == name {
          r := Some(c);
        }
      }
      assert chains[..|chains|] == chains;
    }

    /** rtap_chain_remove: the loop stops at the first match. */
    method Remove(name: string)
      modifies this
      ensures chains == WithoutFirst(old(chains), ByName(name))
      ensures TakesOut(old(chains), chains, (c: RefChain) => c.name == name)
    {
      ghost var named := (c: RefChain) => c.name == name;
      WithoutFirstTakesOut(chains, ByName(name));
      TakesOutSame(chains, WithoutFirst(chains, ByName(name)), ByName(name), named);
      var c := 0;
      while c < |chains|
        invariant c <= |chains| && chains == old(chains)
        invariant forall j :: 0 <= j < c ==> chains[j].name != name
      {
        if chains[c].name == name {
          FirstAt(chains, ByName(name), c);
          chains := chains[..c] + chains[c + 1..];
          return;
        }
        c := c + 1;
      }
      NoneMatches(chains, ByName(name));
    }

    /** proc_write of filter.c. */
    method Write(rules: Ring<RuleEntry>, ghost t: Tables, cmd: Command) returns (ret: int)
      requires rules.Valid() && cmd.WriteFilter? && t.rules == rules.Items() && t.chains == chains
      modifies this
      ensures chains == FilterChains(t, cmd)
      ensures cmd.ret == 1 && cmd.name != "" && cmd.name[0] == '-' ==>
        TakesOut(old(chains), chains, (c: RefChain) => c.name == cmd.name[1..])
      ensures ret == if Refused(cmd) then -1 else 0
    {
      ret := 0;
      if cmd.ret == 0 && cmd.dash {
        chains := [];
      } else if cmd.ret == 1 && cmd.name != "" && cmd.name[0] == '-' {
        Remove(cmd.name[1..]);
      } else if cmd.ret == 2 && cmd.fid < 0 {
        // The source leaves the removal of a single filter out.
      } else if cmd.ret >= 5 && cmd.fid > 0 {
        var c := Find(cmd.name);
        ChainFound(chains, cmd.name);
        if c.None? {
          c := Some(|chains|);
          chains := chains + [Chain(Stored(cmd.name), [])];
        }
        if U32(cmd.fid) == 0 || cmd.ftype == 0 || U32(cmd.rule) == 0 || cmd.subtype == 0 {
          return -1;
        }
        var r := rules.Find(ById(U32(cmd.rule)));
        var f := Filter(U32(cmd.fid), cmd.ftype, cmd.subtype,
                        if r.Some? then Some(r.value.val.addr) else None, 0, cmd.size);
        chains := chains[c.value := chains[c.value].(filters := chains[c.value].filters + [f])];
      } else {
        ret := -1;
      }
    }
  }

  // ---- All three files together ----

  /** The objects on the heap show these tables. */
  ghost predicate Shows(listeners: Ring<ListenerEntry>, rules: Ring<RuleEntry>, table: ChainTable, t: Tables)
    reads listeners, listeners.head, listeners.nodes, rules, rules.head, rules.nodes, table
  {
    && listeners.Valid() && rules.Valid()
    && listeners.Items() == t.listeners && rules.Items() == t.rules && table.chains == t.chains
  }

  /** One write to one of the three files. */
  method Perform(e: Endian, listeners: Ring<ListenerEntry>, rules: Ring<RuleEntry>, table: ChainTable,
                 ghost t: Tables, next: Addr, cmd: Command) returns (later: Addr)
    requires Shows(listeners, rules, table, t) && t.next == next
    modifies listeners`nodes, listeners.head, listeners.NodeSet()
    modifies rules`nodes, rules.head, rules.NodeSet(), table
    ensures Shows(listeners, rules, table, Config.Apply(e, t, cmd)) && later == Config.Apply(e, t, cmd).next
    ensures fresh(listeners.NodeSet() - old(listeners.NodeSet())) && fresh(rules.NodeSet() - old(rules.NodeSet()))
  {
    later := next;
    if cmd.WriteListener? {
      var ret := WriteListeners(e, listeners, next, cmd);
      later := if ret == 0 then next + 1 else next;
    } else if cmd.WriteRule? {
      var ret := WriteRules(listeners, rules, t, next, cmd);
      later := if ret == 0 then next + 1 else next;
    } else {
      var _ := table.Write(rules, t, cmd);
    }
  }

  /**
   * A whole history of writes to the three files, run on the lists and chains in memory, ends with
   * the tables the commands specify.
   */
  method PerformAll(e: Endian, listeners: Ring<ListenerEntry>, rules: Ring<RuleEntry>, table: ChainTable,
                    cmds: seq<Command>)
    requires Shows(listeners, rules, table, EMPTY)
    modifies listeners`nodes, listeners.head, listeners.NodeSet()
    modifies rules`nodes, rules.head, rules.NodeSet(), table
    ensures Shows(listeners, rules, table, Configured(e, cmds))
  {
    var next := 0;
    for n := 0 to |cmds|
      invariant Shows(listeners, rules, table, Configured(e, cmds[..n])) && next == Configured(e, cmds[..n]).next
      invariant fresh(listeners.NodeSet() - old(listeners.NodeSet()))
      invariant fresh(rules.NodeSet() - old(rules.NodeSet()))
    {
      assert cmds[..n + 1][..n] == cmds[..n];
      next := Perform(e, listeners, rules, table, Configured(e, cmds[..n]), next, cmds[n]);
    }
    assert cmds[..|cmds|] == cmds;
  }

  // ---- device.c ----

  /** A write to the devices file; `available` says whether the device exists and memory suffices. */
  datatype DeviceCommand = DeviceCommand(ret: nat, name: string, available: bool)

  type DeviceEntry = Entry<string, ()>

  /** An add that fails has removed the old entry all the same. */
  function AddDeviceOp(name: string, available: bool): Op<string, ()> {
    if available then Put(Entry(name, 0, ())) else DropKey(name)
  }

  /** The decision tree of proc_write in device.c: a dash clears, a sign removes or adds, no sign adds. */
  function DeviceOp(cmd: DeviceCommand): Option<Op<string, ()>> {
    if cmd.ret == 1 && cmd.name == "-" then Some(Wipe)
    else if cmd.ret == 1 && |cmd.name| > 1 then
      if cmd.name[0] == '-' then Some(DropKey(cmd.name[1..]))
      else if cmd.name[0] == '+' then Some(AddDeviceOp(cmd.name[1..], cmd.available))
      else Some(AddDeviceOp(cmd.name, cmd.available))
    else None
  }

  /** proc_write of device.c. What the removal or the add answers is ignored. */
  method WriteDevices(ring: Ring<DeviceEntry>, cmd: DeviceCommand) returns (ret: int)
    requires ring.Valid()
    modifies ring`nodes, ring.head, ring.NodeSet()
    ensures ring.Valid()
    ensures ret == if DeviceOp(cmd).None? then -1 else 0
    ensures ring.Items() ==
      if DeviceOp(cmd).None? then old(ring.Items()) else Applied(old(ring.Items()), DeviceOp(cmd).value)
  {
    ret := 0;
    if cmd.ret == 1 && |cmd.name| == 1 && cmd.name[0] == '-' {
      ring.Clear();
    } else if cmd.ret == 1 && |cmd.name| > 1 {
      if cmd.name[0] == '-' {
        var _ := RemoveByKey(ring, cmd.name[1..]);
      } else if cmd.name[0] == '+' {
        var _ := AddIfPossible(ring, Entry(cmd.name[1..], 0, ()), cmd.available);
      } else {
        var _ := AddIfPossible(ring, Entry(cmd.name, 0, ()), cmd.available);
      }
    } else {
      ret := -1;
    }
  }

  /** The devices listed after a history of writes. */
  function Devices(cmds: seq<DeviceCommand>): seq<DeviceEntry> {
    if cmds == [] then []
    else
      var before, op := Devices(cmds[..|cmds| - 1]), DeviceOp(cmds[|cmds| - 1]);
      if op.None? then before else Applied(before, op.value)
  }

  function DeviceOps(cmds: seq<DeviceCommand>): seq<Op<string, ()>> {
    if cmds == [] then []
    else
      var before, op := DeviceOps(cmds[..|cmds| - 1]), DeviceOp(cmds[|cmds| - 1]);
      if op.None? then before else before + [op.value]
  }

  lemma {:induction false} DevicesAreListed(cmds: seq<DeviceCommand>)
    ensures Devices(cmds) == Listed(DeviceOps(cmds))
  {
    if cmds != [] {
      DevicesAreListed(cmds[..|cmds| - 1]);
      var ops, op := DeviceOps(cmds[..|cmds| - 1]), DeviceOp(cmds[|cmds| - 1]);
      if op.Some? {
        assert (ops + [op.value])[..|ops|] == ops;
      }
    }
  }

  /** After any history of writes the devices are exactly the surviving adds, one per name, in order. */
  lemma DevicesLastWriteWins(cmds: seq<DeviceCommand>)
    ensures var ops := DeviceOps(cmds);
      Devices(cmds) == Survivors(ops, |ops|, |ops|) && DistinctKeys(Devices(cmds))
  {
    var ops := DeviceOps(cmds);
    DevicesAreListed(cmds);
    LastWriteWins(ops, |ops|);
    KeysStayDistinct(ops);
    assert ops[..|ops|] == ops;
  }

  /** A failed add, with a plus sign or without, takes the device of that name out and no other. */
  lemma FailedAddRemoves(cmds: seq<DeviceCommand>, cmd: DeviceCommand, name: string)
    requires DeviceOp(cmd) == Some(AddDeviceOp(name, false))
    ensures forall x :: x in Devices(cmds + [cmd]) <==> x in Devices(cmds) && x.key != name
  {
    assert (cmds + [cmd])[..|cmds|] == cmds;
    DevicesLastWriteWins(cmds);
    OthersStay(Devices(cmds), name);
  }
}
