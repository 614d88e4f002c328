/**
 * The whole module at work: receivers, workers and device changes interleaved with commands written
 * to the configuration. Dispatch goes through the tables as the commands have left them.
 */
module Live {
  import opened Words
  import opened Options
  import opened Device
  import opened Dispatch
  import opened Config
  import opened ConfigHistory
  import opened Lists
  import opened Targets
  import opened Ownership
  import opened Lanes
  import opened Wire
  import opened Uncounted
  import Protocol

  /** A critical section of the packet path, or a command. */
  datatype Step = Act(action: Protocol.Action) | Command(cmd: Config.Command)

  /**
   * The packet path; the tables with the age of every filter; whether a dispatch has gone through a
   * dangling pointer.
   */
  datatype System = System(p: Protocol.State, z: Census, followed: bool)

  /** Following the rule at this address leads to an object that is not listed any more. */
  ghost predicate Dangles(t: Tables, a: Addr) {
    || a !in Addrs(t.rules)
    || exists x :: x in t.rules && x.val.addr == a && x.val.obj.aid == ACTION_FWRD
         && x.val.obj.arg.Some? && x.val.obj.arg.value !in Addrs(t.listeners)
  }

  /** Some filter that matches a frame of this length has a dangling rule. */
  ghost predicate FollowsDangling(t: Tables, len: u32) {
    exists c, f ::
      && 0 <= c < |t.chains| && 0 <= f < |t.chains[c].filters|
      && Matches(t.chains[c].filters[f], len)
      && t.chains[c].filters[f].rule.Some? && Dangles(t, t.chains[c].filters[f].rule.value)
  }

  ghost predicate Start(s: System) {
    Protocol.Init(s.p) && s.p.chains == [] && s.z == Census(EMPTY, [], []) && !s.followed
  }

  ghost predicate CanTake(s: System, step: Step) {
    match step
    case Act(a) => !a.Configure? && Protocol.Enabled(s.p, a)
    case Command(cmd) => cmd.WriteFilter? && AddsFilter(cmd) ==> Handled(cmd.ftype)
  }

  ghost function FrameLen(p: Protocol.State, d: Protocol.DevId): u32
    requires Protocol.Enabled(p, Protocol.Send(d))
  {
    U32(|WireFrame(p.data[p.devs[d].running.value.item])|)
  }

  ghost function Take(e: Endian, s: System, step: Step): System
    requires CanTake(s, step)
  {
    match step
    case Act(a) =>
      var p := Protocol.Apply(s.p, a);
      if a.Send? then
        var len := FrameLen(s.p, a.dev);
        System(p, Advance(e, s.z, Frame(len)), s.followed || FollowsDangling(s.z.t, len))
      else s.(p := p)
    case Command(cmd) =>
      var z := Advance(e, s.z, Write(cmd));
      s.(p := Written(s.p, Resolve(z.t)), z := z)
  }

  /** The packet path finds this configuration from here on. */
  ghost function Written(p: Protocol.State, chains: Chains): Protocol.State {
    p.(chains := chains, base := chains, lens := [])
  }

  ghost function History(e: Endian, s: System, steps: seq<Step>): Option<System> {
    if steps == [] then Some(s)
    else
      var n := |steps| - 1;
      var m :- History(e, s, steps[..n]);
      if CanTake(m, steps[n]) then Some(Take(e, m, steps[n])) else None
  }

  /** The commands of a history, in order. */
  function Commands(steps: seq<Step>): seq<Config.Command> {
    if steps == [] then []
    else
      var last := steps[|steps| - 1];
      Commands(steps[..|steps| - 1]) + if last.Command? then [last.cmd] else []
  }

  /** For each dispatch of a device, how many commands had been written before it. */
  function Met(steps: seq<Step>, d: Protocol.DevId): seq<nat> {
    if steps == [] then []
    else
      var before, last := steps[..|steps| - 1], steps[|steps| - 1];
      Met(before, d) + if last == Act(Protocol.Send(d)) then [|Commands(before)|] else []
  }

  // ---- The packet path of the system is a run of the protocol ----

  ghost predicate InStep(s: System) {
    && Protocol.Reachable(s.p)
    && AllHandled(s.z.t.chains) && s.p.chains == Resolve(s.z.t)
  }

  lemma ReachableStep(p: Protocol.State, a: Protocol.Action)
    requires Protocol.Reachable(p) && Protocol.Enabled(p, a)
    ensures Protocol.Reachable(Protocol.Apply(p, a))
  {
    var p0, actions :| Protocol.Init(p0) && Protocol.Run(p0, actions) == Some(p);
    RunOne(p0, actions, p, a);
  }

  lemma ResolvedHandled(t: Tables)
    requires AllHandled(t.chains)
    ensures AllHandled(Resolve(t))
  {
    forall c, f | 0 <= c < |t.chains| && 0 <= f < |t.chains[c].filters|
      ensures Handled(Resolve(t)[c].filters[f].ftype)
    {
      assert Handled(t.chains[c].filters[f].ftype);
    }
  }

  lemma WriteHandled(e: Endian, t: Tables, cmd: Config.Command)
    requires AllHandled(t.chains) && (cmd.WriteFilter? && AddsFilter(cmd) ==> Handled(cmd.ftype))
    ensures AllHandled(Config.Apply(e, t, cmd).chains)
  {
    if cmd.WriteFilter? {
      HandledExactly(t, cmd);
    }
  }

  lemma CommandInStep(e: Endian, s: System, cmd: Config.Command)
    requires InStep(s) && CanTake(s, Command(cmd))
    ensures InStep(Take(e, s, Command(cmd)))
  {
    WriteHandled(e, s.z.t, cmd);
    var r := Resolve(Config.Apply(e, s.z.t, cmd));
    ResolvedHandled(Config.Apply(e, s.z.t, cmd));
    ReachableStep(s.p, Protocol.Configure(r));
    assert Protocol.Apply(s.p, Protocol.Configure(r)) == Written(s.p, r);
  }

  lemma SendInStep(e: Endian, s: System, d: Protocol.DevId)
    requires InStep(s) && CanTake(s, Act(Protocol.Send(d)))
    ensures InStep(Take(e, s, Act(Protocol.Send(d))))
  {
    var len := FrameLen(s.p, d);
    ReachableStep(s.p, Protocol.Send(d));
    SendBumps(s.p, d);
    ResolveCommutes(s.z.t, len);
    BumpAllHandled(s.z.t.chains, len);
  }

  lemma SendBumps(p: Protocol.State, d: Protocol.DevId)
    requires Protocol.Reachable(p) && Protocol.Enabled(p, Protocol.Send(d))
    ensures d in p.hist && Protocol.DoSend(p, d).chains == BumpAll(p.chains, FrameLen(p, d))
  {
    var p0, actions :| Protocol.Init(p0) && Protocol.Run(p0, actions) == Some(p);
    var _ := Throughout(p0, actions);
  }

  lemma StepInStep(e: Endian, s: System, step: Step)
    requires InStep(s) && CanTake(s, step)
    ensures InStep(Take(e, s, step))
  {
    if step.Command? {
      CommandInStep(e, s, step.cmd);
    } else if step.action.Send? {
      SendInStep(e, s, step.action.dev);
    } else {
      ReachableStep(s.p, step.action);
      ChainsStay(s.p, step.action);
    }
  }

  /**
   * In every history the packet path is in a state the protocol alone can reach, so all that holds of
   * every run of the protocol holds here, and the configuration it finds is the tables with every
   * pointer followed.
   */
  lemma {:induction false} AlwaysInStep(e: Endian, s0: System, steps: seq<Step>)
    requires Start(s0) && History(e, s0, steps).Some?
    ensures InStep(History(e, s0, steps).value)
  {
    if steps == [] {
      assert Protocol.Run(s0.p, []) == Some(s0.p);
    } else {
      var n := |steps| - 1;
      AlwaysInStep(e, s0, steps[..n]);
      StepInStep(e, History(e, s0, steps[..n]).value, steps[n]);
    }
  }

  // ---- Counters ----

  /** The tables are those the commands alone lead to, but for the counters. */
  lemma {:induction false} TablesAreWritten(e: Endian, s0: System, steps: seq<Step>)
    requires Start(s0) && History(e, s0, steps).Some?
    ensures SameTables(History(e, s0, steps).value.z.t, Configured(e, Commands(steps)))
  {
    if steps != [] {
      var n := |steps| - 1;
      TablesAreWritten(e, s0, steps[..n]);
      TablesStep(e, History(e, s0, steps[..n]).value, steps[n], Commands(steps[..n]));
    }
  }

  lemma TablesStep(e: Endian, s: System, step: Step, cmds: seq<Config.Command>)
    requires SameTables(s.z.t, Configured(e, cmds)) && CanTake(s, step)
    ensures SameTables(Take(e, s, step).z.t, Configured(e, cmds + if step.Command? then [step.cmd] else []))
  {
    if step.Command? {
      ConfiguredStep(e, cmds, step.cmd);
      SameApply(e, s.z.t, Configured(e, cmds), step.cmd);
    } else {
      assert cmds + [] == cmds;
      if step.action.Send? {
        SameBumped(s.z.t.chains, Configured(e, cmds).chains, FrameLen(s.p, step.action.dev));
      }
    }
  }

  ghost predicate ShortNamedSteps(steps: seq<Step>) {
    forall k :: 0 <= k < |steps| && steps[k].Command? && steps[k].cmd.WriteFilter? ==> |steps[k].cmd.name| <= 31
  }

  /**
   * However workers and commands interleave, each listed filter has counted exactly the frames that
   * any worker has dispatched since the filter was added and that it matched.
   */
  lemma {:induction false} CountersWhileLive(e: Endian, s0: System, steps: seq<Step>)
    requires Start(s0) && History(e, s0, steps).Some? && ShortNamedSteps(steps)
    ensures Exact(History(e, s0, steps).value.z)
  {
    if steps != [] {
      var n := |steps| - 1;
      CountersWhileLive(e, s0, steps[..n]);
      var s := History(e, s0, steps[..n]).value;
      if steps[n].Command? {
        AdvanceKeepsExact(e, s.z, Write(steps[n].cmd));
      } else if steps[n].action.Send? {
        AdvanceKeepsExact(e, s.z, Frame(FrameLen(s.p, steps[n].action.dev)));
      }
    }
  }

  // ---- Output ----

  /** The configurations that so many commands have led to, one for each dispatch. */
  ghost function ConfigsBy(e: Endian, met: seq<nat>, cmds: seq<Config.Command>): (r: seq<Chains>)
    requires forall k :: 0 <= k < |met| ==> met[k] <= |cmds|
    ensures |r| == |met|
  {
    seq(|met|, k requires 0 <= k < |met| => Resolve(Configured(e, cmds[..met[k]])))
  }

  /** Each dispatch met a configuration with the output of the commands written before it. */
  ghost predicate MetAre(e: Endian, configs: seq<Chains>, met: seq<nat>, cmds: seq<Config.Command>) {
    && |configs| == |met|
    && (forall k :: 0 <= k < |met| ==> met[k] <= |cmds|)
    && (forall j, k :: 0 <= j < k < |met| ==> met[j] <= met[k])
    && forall k :: 0 <= k < |met| ==> SameOutput(configs[k], Resolve(Configured(e, cmds[..met[k]])))
  }

  lemma MetExtend(e: Endian, configs: seq<Chains>, met: seq<nat>, cmds: seq<Config.Command>, cmd: Config.Command)
    requires MetAre(e, configs, met, cmds)
    ensures MetAre(e, configs, met, cmds + [cmd])
  {
    forall k | 0 <= k < |met| ensures SameOutput(configs[k], Resolve(Configured(e, (cmds + [cmd])[..met[k]]))) {
      assert (cmds + [cmd])[..met[k]] == cmds[..met[k]];
    }
  }

  lemma MetAppend(e: Endian, configs: seq<Chains>, met: seq<nat>, cmds: seq<Config.Command>, c: Chains)
    requires MetAre(e, configs, met, cmds) && SameOutput(c, Resolve(Configured(e, cmds)))
    ensures MetAre(e, configs + [c], met + [|cmds|], cmds)
  {
    assert cmds[..|cmds|] == cmds;
  }

  lemma MetStep(e: Endian, s: System, step: Step, met: seq<nat>, cmds: seq<Config.Command>, d: Protocol.DevId)
    requires InStep(s) && CanTake(s, step) && SameTables(s.z.t, Configured(e, cmds))
    requires MetAre(e, ConfigsMet(s.p, d), met, cmds)
    ensures MetAre(e, ConfigsMet(Take(e, s, step).p, d),
                   met + if step == Act(Protocol.Send(d)) then [|cmds|] else [],
                   cmds + if step.Command? then [step.cmd] else [])
  {
    if step.Command? {
      assert ConfigsMet(Take(e, s, step).p, d) == ConfigsMet(s.p, d);
      assert met + [] == met;
      MetExtend(e, ConfigsMet(s.p, d), met, cmds, step.cmd);
    } else {
      assert cmds + [] == cmds;
      ConfigsAfter(s.p, step.action, d);
      if step.action == Protocol.Send(d) {
        SameSent(s.z.t, Configured(e, cmds));
        MetAppend(e, ConfigsMet(s.p, d), met, cmds, s.p.chains);
      } else {
        assert met + [] == met;
      }
    }
  }

  lemma ConfigsAfter(p: Protocol.State, a: Protocol.Action, d: Protocol.DevId)
    requires Protocol.Reachable(p) && Protocol.Enabled(p, a)
    ensures ConfigsMet(Protocol.Apply(p, a), d) ==
      if a == Protocol.Send(d) then ConfigsMet(p, d) + [p.chains] else ConfigsMet(p, d)
  {
    InstancesGrow(p, a);
    if a == Protocol.Send(d) {
      SendBumps(p, d);
    }
    if d in Protocol.Apply(p, a).hist {
      ConfigsGrow(p, a, d);
    }
  }

  lemma {:induction false} AlwaysMet(e: Endian, s0: System, steps: seq<Step>, d: Protocol.DevId)
    requires Start(s0) && History(e, s0, steps).Some?
    ensures MetAre(e, ConfigsMet(History(e, s0, steps).value.p, d), Met(steps, d), Commands(steps))
  {
    if steps != [] {
      var n := |steps| - 1;
      AlwaysMet(e, s0, steps[..n], d);
      AlwaysInStep(e, s0, steps[..n]);
      TablesAreWritten(e, s0, steps[..n]);
      MetStep(e, History(e, s0, steps[..n]).value, steps[n], Met(steps[..n], d), Commands(steps[..n]), d);
    }
  }

  lemma {:induction false} SameConfigs(accepted: seq<Packet>, a: seq<Chains>, b: seq<Chains>)
    requires |a| == |b| <= |accepted| && forall k :: 0 <= k < |a| ==> SameOutput(a[k], b[k])
    ensures Sent(accepted, a) == Sent(accepted, b)
  {
    if a != [] {
      var n := |a| - 1;
      SameConfigs(accepted, a[..n], b[..n]);
      assert SameOutput(a[n], b[n]);
    }
  }

  lemma SentBy(e: Endian, accepted: seq<Packet>, configs: seq<Chains>, met: seq<nat>, cmds: seq<Config.Command>)
    requires MetAre(e, configs, met, cmds) && |configs| <= |accepted|
    ensures SentFromEntries(e, accepted, met, cmds, Sent(accepted, configs))
  {
    SameConfigs(accepted, configs, ConfigsBy(e, met, cmds));
    SentIsJoined(accepted, ConfigsBy(e, met, cmds));
    var outs := Outs(accepted, ConfigsBy(e, met, cmds));
    forall k | 0 <= k < |met|
      ensures FrameSends(Configured(e, cmds[..met[k]]), WireFrame(WorkFor(accepted, k)), outs[k])
    {
      CommandsSend(e, cmds[..met[k]], WireFrame(WorkFor(accepted, k)));
    }
    assert FramesSend(e, accepted, met, cmds, outs);
  }

  /** What each of the first |met| packets gives rise to, by the entries the commands before it listed. */
  ghost predicate FramesSend(e: Endian, accepted: seq<Packet>, met: seq<nat>, cmds: seq<Config.Command>,
                             outs: seq<seq<Datagram>>) {
    && |outs| == |met| <= |accepted| && (forall k :: 0 <= k < |met| ==> met[k] <= |cmds|)
    && forall k :: 0 <= k < |met| ==>
         FrameSends(Configured(e, cmds[..met[k]]), WireFrame(WorkFor(accepted, k)), outs[k])
  }

  /**
   * `out` is what the accepted packets give rise to one after the other: for each, its header and
   * frame to the listeners that the entries listed by the commands before its dispatch name.
   */
  ghost predicate SentFromEntries(e: Endian, accepted: seq<Packet>, met: seq<nat>, cmds: seq<Config.Command>,
                                  out: seq<Datagram>) {
    exists outs: seq<seq<Datagram>> :: FramesSend(e, accepted, met, cmds, outs) && out == Joined(outs)
  }

  lemma CommandsSend(e: Endian, cmds: seq<Config.Command>, skb: seq<byte>)
    ensures FrameSends(Configured(e, cmds), skb, Output(Resolve(Configured(e, cmds)), skb))
  {
    AlwaysPlaced(e, cmds);
    RulesAreGood(e, cmds);
    OutputFromEntries(Configured(e, cmds), skb);
  }

  /** What the `k`-th packet gives rise to under a configuration. */
  function OutOf(accepted: seq<Packet>, k: nat, chains: Chains): seq<Datagram>
    requires k < |accepted|
  {
    Output(chains, WireFrame(WorkFor(accepted, k)))
  }

  function Outs(accepted: seq<Packet>, configs: seq<Chains>): (r: seq<seq<Datagram>>)
    requires |configs| <= |accepted|
    ensures |r| == |configs| && forall k :: 0 <= k < |r| ==> r[k] == OutOf(accepted, k, configs[k])
  {
    seq(|configs|, k requires 0 <= k < |configs| => OutOf(accepted, k, configs[k]))
  }

  lemma {:induction false} OutsLast(accepted: seq<Packet>, configs: seq<Chains>, c: Chains)
    requires |configs| < |accepted|
    ensures Outs(accepted, configs + [c]) == Outs(accepted, configs) + [OutOf(accepted, |configs|, c)]
  {
  }

  lemma {:induction false} SentIsJoined(accepted: seq<Packet>, configs: seq<Chains>)
    requires |configs| <= |accepted|
    ensures Sent(accepted, configs) == Joined(Outs(accepted, configs))
  {
    if configs != [] {
      var before, c := configs[..|configs| - 1], configs[|configs| - 1];
      assert configs == before + [c];
      SentIsJoined(accepted, before);
      SentStep(accepted, before, c);
      OutsLast(accepted, before, c);
      JoinedLast(Outs(accepted, before), OutOf(accepted, |before|, c));
    }
  }

  /** One number of commands for each dispatch, never less than for the dispatch before. */
  ghost predicate InOrder(met: seq<nat>, dispatched: nat, most: nat) {
    && |met| == dispatched && (forall k :: 0 <= k < |met| ==> met[k] <= most)
    && (forall j, k :: 0 <= j < k < |met| ==> met[j] <= met[k])
  }

  /**
   * From commands to the wire. However receivers, workers, device changes and commands interleave:
   * as long as no dispatch has gone through a dangling pointer, what a worker has emitted is a
   * function of the packets its device accepted and of the commands written before each dispatch.
   * Later dispatches meet at least the commands of earlier ones.
   */
  lemma CommandsToWire(e: Endian, s0: System, steps: seq<Step>, d: Protocol.DevId)
    requires Start(s0) && History(e, s0, steps).Some? && d in History(e, s0, steps).value.p.hist
    ensures InOrder(Met(steps, d), Dispatched(ViewOf(History(e, s0, steps).value.p, d)), |Commands(steps)|)
    ensures var p := History(e, s0, steps).value.p; !History(e, s0, steps).value.followed ==>
      SentFromEntries(e, p.hist[d].accepted, Met(steps, d), Commands(steps), Emitted(p.wire, d))
  {
    var p := History(e, s0, steps).value.p;
    AlwaysInStep(e, s0, steps);
    AlwaysMet(e, s0, steps, d);
    EndToEnd(p, d);
    SentBy(e, p.hist[d].accepted, p.hist[d].configs, Met(steps, d), Commands(steps));
  }

  // ---- Pointers ----

  /** A pointer is sound if and only if a rule is listed there and, when it forwards, its listener is too. */
  lemma DanglesExactly(t: Tables, a: Addr)
    requires Placements(t) && GoodRules(t.rules)
    ensures !Dangles(t, a) <==> exists x ::
      && x in t.rules && x.val.addr == a
      && (x.val.obj.aid == 2 ==> exists l :: l in t.listeners && x.val.obj.arg == Some(l.val.addr))
  {
    if a in Addrs(t.rules) {
      var x :| x in t.rules && x.val.addr == a;
      forall y | y in t.rules && y.val.addr == a ensures y == x {
        var i :| 0 <= i < |t.rules| && t.rules[i] == x;
        var j :| 0 <= j < |t.rules| && t.rules[j] == y;
      }
      assert GoodRule(x.val.obj);
    }
  }

  lemma IntactFollows(t: Tables, len: u32)
    requires Integrity(t)
    ensures !FollowsDangling(t, len)
  {
    forall c, f | 0 <= c < |t.chains| && 0 <= f < |t.chains[c].filters| && t.chains[c].filters[f].rule.Some?
      ensures !Dangles(t, t.chains[c].filters[f].rule.value)
    {
      assert t.chains[c].filters[f].rule.value in UsedRules(t);
    }
  }

  /** No command removes or replaces an entry that is pointed to when it is written. */
  ghost predicate Careful(e: Endian, cmds: seq<Config.Command>) {
    forall k :: 0 <= k < |cmds| ==> RemovesOnlyUnused(e, Configured(e, cmds[..k]), cmds[k])
  }

  lemma CarefulPrefix(e: Endian, cmds: seq<Config.Command>, cmd: Config.Command)
    requires Careful(e, cmds + [cmd])
    ensures Careful(e, cmds)
  {
    forall k | 0 <= k < |cmds| ensures RemovesOnlyUnused(e, Configured(e, cmds[..k]), cmds[k]) {
      assert (cmds + [cmd])[..k] == cmds[..k] && (cmds + [cmd])[k] == cmds[k];
    }
  }

  /** If commands remove only what is unused, no dispatch ever goes through a dangling pointer. */
  lemma {:induction false} NothingDanglingFollowed(e: Endian, s0: System, steps: seq<Step>)
    requires Start(s0) && History(e, s0, steps).Some? && Careful(e, Commands(steps))
    ensures !History(e, s0, steps).value.followed
  {
    if steps != [] {
      var n := |steps| - 1;
      var s, cmds := History(e, s0, steps[..n]).value, Commands(steps[..n]);
      if steps[n].Command? {
        CarefulPrefix(e, cmds, steps[n].cmd);
      } else {
        assert cmds + [] == cmds;
      }
      NothingDanglingFollowed(e, s0, steps[..n]);
      TablesAreWritten(e, s0, steps[..n]);
      IntegrityThroughout(e, cmds);
      SameIntegrity(s.z.t, Configured(e, cmds));
      if steps[n].Act? && steps[n].action.Send? {
        IntactFollows(s.z.t, FrameLen(s.p, steps[n].action.dev));
      }
    }
  }

  /** With such commands the output is as commanded in every history. */
  lemma CarefulToWire(e: Endian, s0: System, steps: seq<Step>, d: Protocol.DevId)
    requires Start(s0) && History(e, s0, steps).Some? && Careful(e, Commands(steps))
    requires d in History(e, s0, steps).value.p.hist
    ensures var p := History(e, s0, steps).value.p;
      SentFromEntries(e, p.hist[d].accepted, Met(steps, d), Commands(steps), Emitted(p.wire, d))
  {
    NothingDanglingFollowed(e, s0, steps);
    CommandsToWire(e, s0, steps, d);
  }

  /** The step dispatches a frame that matches a filter whose rule the commands have left dangling. */
  ghost predicate MeetsDangling(e: Endian, s: Option<System>, step: Step, cmds: seq<Config.Command>) {
    && s.Some? && step.Act? && step.action.Send? && CanTake(s.value, step)
    && FollowsDangling(Configured(e, cmds), FrameLen(s.value.p, step.action.dev))
  }

  ghost predicate MeetsAt(e: Endian, s0: System, steps: seq<Step>, k: nat)
    requires k < |steps|
  {
    MeetsDangling(e, History(e, s0, steps[..k]), steps[k], Commands(steps[..k]))
  }

  lemma MeetsSplit(e: Endian, s0: System, before: seq<Step>, step: Step)
    ensures (exists k :: 0 <= k < |before + [step]| && MeetsAt(e, s0, before + [step], k)) <==>
      || (exists k :: 0 <= k < |before| && MeetsAt(e, s0, before, k))
      || MeetsDangling(e, History(e, s0, before), step, Commands(before))
  {
    var n := |before|;
    assert (before + [step])[..n] == before;
    forall k | 0 <= k < n ensures MeetsAt(e, s0, before + [step], k) <==> MeetsAt(e, s0, before, k) {
      assert (before + [step])[..k] == before[..k];
    }
    assert MeetsAt(e, s0, before + [step], n) <==> MeetsDangling(e, History(e, s0, before), step, Commands(before));
  }

  lemma HistoryLast(e: Endian, s0: System, before: seq<Step>, step: Step)
    requires History(e, s0, before + [step]).Some?
    ensures History(e, s0, before).Some? && CanTake(History(e, s0, before).value, step)
    ensures History(e, s0, before + [step]).value == Take(e, History(e, s0, before).value, step)
  {
    assert (before + [step])[..|before|] == before;
  }

  lemma FollowedStep(e: Endian, s: System, step: Step, cmds: seq<Config.Command>)
    requires CanTake(s, step) && SameTables(s.z.t, Configured(e, cmds))
    ensures Take(e, s, step).followed <==> s.followed || MeetsDangling(e, Some(s), step, cmds)
  {
    if step.Act? && step.action.Send? {
      var len := FrameLen(s.p, step.action.dev);
      if FollowsDangling(s.z.t, len) {
        SameDangling(s.z.t, Configured(e, cmds), len);
      } else if FollowsDangling(Configured(e, cmds), len) {
        SameDangling(Configured(e, cmds), s.z.t, len);
      }
    }
  }

  /** What dangles does not depend on the counters. */
  lemma SameDangling(t: Tables, u: Tables, len: u32)
    requires SameTables(t, u) && FollowsDangling(t, len)
    ensures FollowsDangling(u, len)
  {
    var c, f :| 0 <= c < |t.chains| && 0 <= f < |t.chains[c].filters|
      && Matches(t.chains[c].filters[f], len)
      && t.chains[c].filters[f].rule.Some? && Dangles(t, t.chains[c].filters[f].rule.value);
    assert SameChain(t.chains[c], u.chains[c]);
    var x, y := t.chains[c].filters[f], u.chains[c].filters[f];
    assert x.(count := 0) == y.(count := 0);
    MatchesIgnoresCount(x, 0, len);
    MatchesIgnoresCount(y, 0, len);
    assert Matches(y, len) && y.rule == x.rule && Dangles(u, y.rule.value);
  }

  /**
   * A dispatch has gone through a dangling pointer if and only if some step dispatched a frame that
   * matched a filter whose rule, or whose rule's listener, the commands so far had unlisted.
   */
  lemma {:induction false} FollowedExactly(e: Endian, s0: System, steps: seq<Step>)
    requires Start(s0) && History(e, s0, steps).Some?
    ensures History(e, s0, steps).value.followed <==> exists k :: 0 <= k < |steps| && MeetsAt(e, s0, steps, k)
  {
    if steps != [] {
      var before, step := steps[..|steps| - 1], steps[|steps| - 1];
      assert steps == before + [step];
      HistoryLast(e, s0, before, step);
      FollowedExactly(e, s0, before);
      TablesAreWritten(e, s0, before);
      FollowedStep(e, History(e, s0, before).value, step, Commands(before));
      MeetsSplit(e, s0, before, step);
    }
  }
}
