# rtap-ko: a verified model of the packet pipeline and its configuration

rtap-ko captures frames on network devices, puts a 32-byte metadata header in front of each and
forwards them over UDP to listeners, as chains of filters and rules decide. This project models that
pipeline and proves what it keeps, in every interleaving and over every history.

| file | what it models |
|---|---|
| `Words.dfy`, `Options.dfy`, `Lists.dfy` | fixed-width integers and byte order, absent values, list searches |
| `Pool.dfy` | the table of 16 work items and its free stack |
| `Device.dfy` | packets, device counters, the locked section of the receive handler |
| `Arrivals.dfy` | which device a packet belongs to, over runs |
| `Protocol.dfy` | receivers, workers, device list and configuration as a transition system, one step per critical section |
| `Ownership.dfy` | every item is in exactly one place; no run faults; exactly which items are lost |
| `Lanes.dfy` | FIFO numbering, counter conservation, end-to-end output, release of frames |
| `Wire.dfy` | loss accounting from received headers; counters under concurrency |
| `Dispatch.dfy`, `Engine.dfy`, `Worker.dfy` | what dispatch means, the loops that do it, and the worker as one call |
| `Ring.dfy`, `Registry.dfy` | the intrusive list on the heap; keyed registries over histories |
| `Writes.dfy`, `Targets.dfy` | what each write does to the listed entries; where frames go by the listed entries |
| `Config.dfy`, `ConfigHistory.dfy`, `Proc.dfy` | commands, pointers between the tables, what holds after every history, the handlers as they run |
| `Uncounted.dfy`, `Live.dfy` | the packet path and the real commands interleaved: output, counters and pointers over all of it |
| `Stats.dfy` | per-filter statistics |
| `Header.dfy`, `Scan.dfy`, `DottedQuad.dfy` | the header on the wire; decimal and dotted-quad text |

How the parts fit: the classes (`Pool.KworkTable`, `Device.DeviceObject`, `Engine` with `Worker`) are
proved against functions on values; the transition system's steps are made of the same functions, so
its theorems are about what the classes do. `Live` puts the commands of `Config` between the steps of
`Protocol` and has dispatch follow the pointers of the tables as they are.

Assumptions. A device is unlinked only while no receiver holds it, which is what `dev_remove_pack`
waits for; its worker is stopped only between items, which is what `kthread_stop` waits for. Unlinking
and stopping are two steps, so the model has more interleavings than the source, whose lock spans both.
The configuration is constant during one dispatch, which holds the chain lock throughout; a command is
one step. Every listed
filter has a type from ALL to IP; for the others the source calls through a NULL pointer
(`HandledExactly` says which commands keep it so). Frames do not
change between receive and worker, and allocations succeed, except where a parameter `available` says
otherwise (stats and devices). Freed addresses are not reused in `Config`. Command texts are modelled
after `sscanf` has split them; what `%d` reads from a filter's argument is part of the command, as the
text never changes after that. When `inet_aton` cannot convert four numbers, the source computes with
unset variables; their values are then part of the command.

Where the code and its comments or intent disagree, the model follows the code:

- Items queued at a stopped worker never come back to the pool. `LossHappens` is a run where it
  happens; `LostExactly` says which items are lost, and `NothingLost` and `PoolRefills` that none are,
  and that the stack fills up again, if and only if workers are stopped with empty queues only.
- `proc_write` of rule.c can never remove a single rule, since it asks whether an unsigned value is
  negative (`SingleRuleStays`). `RuleRemovals` says exactly when a rule goes.
- A refused filter command leaves the chain it created (`RefusedLeavesChain`). `RefusedCommand` says
  exactly when it changes nothing.
- Writing a lone dash clears listeners, rules and devices but no chains: filter.c reads it as the name
  of a chain to remove, and that chain never exists (`DashClearsNothing`). The clearing branch asks for
  a scan without any result, which a dash does not give.
- Chain names over 31 characters are cut when stored and then not found again. `LongNameTwice` is a
  history where this lists a name twice; `LongNamesCollide` says exactly when it does. Such a name has
  by then been scanned into a buffer of 32 bytes; both lemmas describe the code as if that had no other
  effect.
- Removing a listener or replacing a rule in use leaves a dangling pointer (`DanglingHappens`);
  `IntegrityExactly` is the exact condition.
- filter.c cannot remove a filter; the branch for it is empty.

## Model

| member | source | states |
|---|---|---|
| Ownership.OnePlaceEach | device.c:180-337 | In every reachable state of every interleaving each of the 16 work items is in one place and only one: a filled stack slot, one receiver, one queue, one worker, or left behind by a removed device. |
| Ownership.OncePerQueue | device.c:313-318 | No queue, and no set of stranded items, lists an item twice. |
| Ownership.NeverFaults | device.c:180-213 | No run pushes past slot 15 or follows a freed device; a pop yields an item exactly when the index is positive, slots below it are filled and slots from it on are NULL. |
| Ownership.RoomToPush | device.c:202-213 | While any worker holds an item the stack has a free slot, although the push tests no bound. |
| Ownership.LostExactly | device.c:342-368 | After any run an item is lost if and only if some step of the run stopped a worker with the item still in its queue. |
| Ownership.NothingLost | device.c:342-368 | A run loses nothing if and only if every worker it stops has an empty queue at that moment. |
| Ownership.PoolRefills | device.c:180-213 | Once nothing is in flight, all 16 items are back on the stack if and only if workers were stopped with empty queues only. |
| Ownership.LossHappens | device.c:342-368 | A run that loses an item: the device is removed while its packet waits for the worker. |
| Ownership.LostForever | device.c:342-368 | A lost item stays lost in every continuation of the run. |
| Ownership.AllLostNothingLeft | device.c:287-324 | When removals have stranded all items the pool yields nothing and no receiver holds an item. |
| Ownership.FoundIsListed | device.c:453-471 | Lookup by name yields the first listed device of that name, or none is listed. |
| Arrivals.LookupFindsFirst | device.c:277-286 | A receiver goes on with the first listed device of the name its packet came in under, or is done at once when none is listed; nothing else changes. |
| Arrivals.PacketsCameByName | device.c:277-327 | In every run each packet an instance has accepted or dropped came in under the name the instance was added with, while it was the first listed one of that name. |
| Arrivals.ListChanges | device.c:357-415 | The list of devices grows at its end, loses exactly the one removed, and else stays. |
| Lanes.FifoNumbering | device.c:289-327 | The unfinished items of a device instance hold, in order, the last accepted packets, with ids counting on from the finished ones without gap or repeat, modulo 2^32. |
| Lanes.CounterConservation | device.c:290-327 | Packets that reached the locked section were accepted or dropped; pkts, bytes and wrk_drop are those totals modulo 2^32, 2^32 and 2^16, under any interleaving. |
| Lanes.EndToEnd | device.c:218-337 | What a worker has emitted is the specification applied to the accepted packets in acceptance order, each under the configuration it met; no datagram is missing, extra or out of order. |
| Lanes.FreedOnce | device.c:259-264 | The worker frees the frames of accepted packets in acceptance order, each once and not before it was dispatched. |
| Wire.EndToEndFixed | device.c:218-272 | Without reconfiguration that output is one function of the initial configuration and the device's own accepted packets. |
| Wire.LossAccounting | device.c:297-311 | Between any two received headers of a device, pktid differs by the packets accepted and bytecnt by their bytes; for consecutive packets by len - 32; all modulo 2^32. |
| Wire.OriginsAre | device.c:237-260 | Datagrams leave in acceptance order and each carries its own packet's header and frame. |
| Wire.CountersUnderConcurrency | filter.c:703-712 | However many workers dispatch, each filter's counter grew by exactly the dispatched frames it matched since the configuration was written. |
| Lanes.DeliverSeen | device.c:295-318 | A delivery changes what exactly one device sees, although all items lie in one table. |
| Pool.KworkTable.constructor | device.c:476-490 | Initialization puts every item on the stack once. |
| Pool.KworkTable.Alloc | device.c:180-196 | Pops the top slot and clears it, or yields none and changes nothing. |
| Pool.KworkTable.Free | device.c:201-213 | Pushes into the first free slot; a NULL item is ignored. |
| Pool.PushPop | device.c:180-213 | Push and pop undo each other and keep filled slots below the index, NULL above. |
| Device.DeviceObject.Deliver | device.c:290-327 | With an item: counters move, the item carries their new values and is queued, 0; without: only the drop counter moves, -1. |
| Device.BuildWork | device.c:234-250 | The worker's buffer is the specified header followed by the frame. |
| Worker.Receive | device.c:278-337 | Pop and locked section together: the packet is queued, stamped, or dropped exactly when no item was there; no other item changes. |
| Worker.RxWorker | device.c:219-272 | The worker sends the output of its item's contents, bumps each filter once, frees the copy and then the captured frame once each, and returns that item to the stack. |
| Device.FrameLayout | device.c:67-84 | What a listener receives, byte by byte: "RTAP", 1, 32, address, packet number, length with header, byte count, seconds, nanoseconds, each most significant byte first, then the frame. |
| Header.BuildFrame | device.c:237-250 | Field-by-field writing gives the same bytes on either byte order, frame behind unchanged, len counting the header. |
| Header.DecodeEncode | device.c:67-78 | Reading each field at its offset recovers every field, and the frame follows. |
| Header.EncodeDecode | device.c:67-78 | Any 32 bytes are the encoding of what they decode to. |
| Words.StoredBigEndian | device.c:242-250 | A converted word is big-endian in memory whatever the machine's order. |
| Engine.Recv | filter.c:688-719 | The nested loops append exactly the frame's output to the wire and bump every filter once, in place. |
| Engine.FilterAll | filter.c:570-625 | Counts and invokes the rule exactly when the size test named by the subtype's number holds of header plus frame, with the size converted to unsigned. |
| Dispatch.SizeTests | filter.c:570-625 | Subtypes 1, 2, 3 and 4 of type 1 take every frame and those equal to, at least and at most the argument, a negative one counted as 2^32 more; other subtypes, or no number, take none. Taken frames are counted once and go where the rule sends them. |
| Engine.CallHandler | filter.c:92-102 | For the handled types, radiotap, 802.11 and IP do nothing. |
| Engine.RuleInvoke | rule.c:365-374 | 0 exactly when handler and action agree; sends exactly when they forward and there is a listener. |
| Engine.ActionForward | rule.c:197-210 | Sends to the rule's listener if the action is FORWARD, else -1. |
| Engine.ListenerSend | listener.c:358-369 | One datagram to a listener, none without one. |
| Targets.FilterFollowsItsRule | filter.c:581-615 | A filter dispatches with the rule listed at its own pointer, that rule's number, action and handler, and the listener listed at that rule's pointer. |
| Targets.OutputFromEntries | filter.c:703-712 | A frame's datagrams, chain after chain and filter after filter: the frame to the listener that the filter's rule forwards to, if its size test holds and there is one. |
| Dispatch.CountsOverHistory | filter.c:570-625 | Over any history of frames each counter grows by the number matched, modulo 2^32, and nothing else of the filter changes. |
| Dispatch.OtherTypesAreInert | filter.c:630-679 | Radiotap, 802.11 and IP filters never count and never send. |
| Dispatch.InsertionIsAdditive | filter.c:703-712 | An inserted filter adds exactly its own datagrams between those of the filters before and after it. |
| Dispatch.SilentFilter | rule.c:184-224 | A filter whose rule does not forward can be inserted or deleted without changing a datagram of any history. |
| Dispatch.InsertionKeepsCounters | filter.c:703-712 | Over any history an inserted filter leaves all other counters as they would have been. |
| Dispatch.OutputIgnoresCounts | filter.c:570-625 | What is sent does not depend on the counters. |
| Ring.Ring.AddTail | listener.c:152-154 | Appending keeps the circle well formed and the order. |
| Ring.Ring.Del | listener.c:132 | Deleting any listed node keeps the circle well formed, poisons the node and keeps the order of the rest. |
| Ring.Ring.RemoveFirst | stats.c:69-82 | Exactly the first match goes and is freed, the rest keep their order. |
| Ring.Ring.Clear | rule.c:150-167 | Clearing while iterating terminates with an empty circle, every listed node freed, none freed twice or read afterwards. |
| Ring.Ring.Find | listener.c:299-322 | The lookup loops yield the first match. |
| Ring.Ring.UpdateFirst | stats.c:169-177 | Only the first match is overwritten, in place. |
| Registry.LastWriteWins | listener.c:141-159 | After any history the list is the surviving adds ordered by each key's most recent add, survival being defined without the list. |
| Registry.KeysStayDistinct | rule.c:127-145 | No history lists a key twice. |
| Registry.Replay | rule.c:127-167 | Any history run on the heap list ends with the surviving adds. |
| Registry.Add | rule.c:127-145 | The old entry of the key goes and the new one comes last. |
| Registry.AddIfPossible | device.c:373-424 | A device add that fails still removes the old entry, because removal comes first. |
| Registry.RemoveByKey | device.c:342-368 | Removes the entry of that name and reports whether there was one. |
| Registry.RemoveById | listener.c:453-457 | Removes the first entry with that number and no other. |
| Writes.ListenerWrites | listener.c:434-477 | The effect of every listener text on the listed objects: a dash clears, -n removes the first of number n, an accepted one replaces its address and port and comes last as written, others change nothing and are refused. |
| Writes.RuleWrites | rule.c:501-542 | The same for rules; a FORWARD rule gets the first listener of the number written. |
| Writes.FilterWrites | filter.c:1117-1191 | The same for filters: -name removes the chain of that name and no other, a complete filter goes to the end of the chain of its name with the first rule of the number written. |
| Writes.FilterAnswers | filter.c:1140-1187 | Which filter texts are answered with -1. |
| Writes.DeviceWrites | device.c:562-599 | The same for devices: + or no sign adds, - removes, a dash clears. |
| Config.IntegrityExactly | listener.c:126-159 | From a state without dangling pointers a command leads to one exactly if nothing it removes or replaces is pointed to. |
| Config.IntegrityThroughout | filter.c:282-292 | So there is none after any history whose commands remove nothing in use. |
| Config.DanglingHappens | listener.c:453-457 | A history that leaves a dangling pointer: a listener is removed while a rule forwards to it. |
| Config.RuleRemovals | rule.c:514-533 | A listed rule goes if and only if all rules are cleared or a good rule with its id is written. |
| Config.SingleRuleStays | rule.c:518-522 | Writing a single number to the rules removes none and changes nothing. |
| Config.RefusedCommand | filter.c:1153-1174 | A refused filter command changes nothing if and only if its text was not understood or its chain is listed already; otherwise exactly the empty chain made for it is left. |
| Config.RefusedLeavesChain | filter.c:1158-1174 | A refused command that leaves an empty chain behind. |
| Config.HandledExactly | filter.c:92-102 | A command keeps all listed types handled if and only if it does not add a filter of an unhandled type. |
| Config.UnhandledHappens | filter.c:92-102 | A command that adds a filter whose type has no handler. |
| Config.RuleKeepsListeners | rule.c:313-324 | A rule command never makes a listed rule point to an unlisted listener. |
| ConfigHistory.RulesAreGood | rule.c:267-334 | After any history every listed rule has a non-zero id, an action from DROP, FORWARD, COUNT, its handler, and a listener if it forwards. |
| ConfigHistory.InvokeListedRule | rule.c:365-374 | After any history invoking a listed rule returns 0; a FORWARD rule whose listener is still listed sends one datagram to it, other rules none. |
| ConfigHistory.SocketAddressAgrees | listener.c:222-294 | After any history a listener with a canonical address has its network-order parse and byte-swapped port in memory, non-zero id and port, and prints back as written. |
| ConfigHistory.TablesLastWriteWins | listener.c:449-469 | After any history of real commands, failures included, listeners and rules are exactly the surviving adds, one per key. |
| ConfigHistory.NamesAlwaysUnique | filter.c:1153-1164 | Chain names up to 31 characters stay unique over any history. |
| ConfigHistory.FindIsRemove | filter.c:466-516 | The last match of find is the chain that remove, stopping at the first, takes out. |
| ConfigHistory.LongNamesCollide | filter.c:451-461 | A name over 31 characters makes a duplicate exactly if its first 31 are listed; that the name overran its 32-byte scan buffer first is left aside. |
| ConfigHistory.LongNameTwice | filter.c:451-461 | Writing one such name twice lists two chains of the same name. |
| ConfigHistory.DashClearsNothing | filter.c:1140-1147 | After any history a lone dash removes no chain. |
| ConfigHistory.CommandsExtend | filter.c:178-195 | A command keeps every filter of a chain that stays, in order and with its counter; new filters start at zero. |
| ConfigHistory.CountersOverHistories | filter.c:570-625 | Over any history of commands and frames each listed filter counts exactly the frames it matched since it was added. |
| Targets.EveryPointerFollowed | filter.c:282-292 | Without dangling pointers every set pointer leads to the rule listed there, whose handler agrees, and to that rule's own listener if it forwards. |
| ConfigHistory.ResolveCommutes | filter.c:703-712 | Counting through pointers is counting on the resolved configuration. |
| Live.AlwaysInStep | filter.c:688-719 | With commands interleaved at any point, the packet path stays in states the protocol reaches, and the configuration it finds is the tables with every pointer followed. |
| Live.CommandsToWire | device.c:218-272 | However workers, receivers and commands interleave, as long as no dispatch has gone through a dangling pointer a worker's output is its accepted packets in order, each to the listeners that the filters, rules and listeners name which the commands before its dispatch had listed. |
| Live.CarefulToWire | device.c:218-272 | So it is in every history whose commands remove only what is unused. |
| Live.CountersWhileLive | filter.c:703-712 | However workers and commands interleave, each listed filter has counted exactly the frames any worker dispatched since it was added and that it matched. |
| Live.FollowedExactly | rule.c:197-210 | A dispatch has gone through a dangling pointer if and only if some step dispatched a frame that matched a filter whose rule, or that rule's listener, the commands so far had unlisted. |
| Live.DanglesExactly | rule.c:197-210 | A filter's pointer is sound if and only if a rule is listed there and, when that forwards, its listener is too. |
| Live.NothingDanglingFollowed | rule.c:197-210 | If commands remove only what is unused, no dispatch ever goes through a dangling pointer. |
| Uncounted.SameApply | filter.c:1117-1191 | No command's effect depends on the counters. |
| Uncounted.SameSent | filter.c:703-712 | Nor does what is sent, through pointers. |
| Proc.WriteListeners | listener.c:434-477 | The handler with its setters performs exactly the command's operation on the heap list, or refuses and changes nothing. |
| Proc.WriteRules | rule.c:501-542 | The same for rules, including the listener lookup. |
| Proc.PerformAll | filter.c:1117-1191 | Any history of writes to the three files, run on the lists and chains in memory, ends with the tables the commands specify. |
| Proc.WriteDevices | device.c:562-599 | The handler adds, replaces, removes or clears as the text says; a failed add removes. |
| Proc.DevicesLastWriteWins | device.c:373-424 | After any history of writes, failed adds included, the devices are exactly the surviving adds, one per name. |
| Proc.FailedAddRemoves | device.c:380-396 | A failed add, written with a plus sign or without, takes the device of that name out, and no other. |
| Proc.RuleObject.SetAction | rule.c:296-334 | Succeeds exactly for actions 1 and 3, and for 2 if a listener has the number; the rule then has that action's handler and the first listener of that number. |
| Proc.ChainTable.Find | filter.c:466-485 | The loop without break keeps the last match. |
| Proc.ChainTable.Remove | filter.c:490-516 | Takes out the first match only. |
| Proc.ChainTable.Write | filter.c:1117-1191 | The handler creates, appends, removes or clears as the decision tree says and returns -1 exactly for refused texts. |
| Stats.HeadCountsEverything | stats.c:160-226 | The head's columns count every event ever, known id or not, modulo 2^32; nothing resets them. |
| Stats.EntriesAreExact | stats.c:62-249 | Every entry shows exactly its id's events since it was added or reset, its total being forwarded, dropped and failed together; no id is listed twice. |
| Stats.ListedExactly | stats.c:62-138 | An id has an entry if and only if it was added and not removed or cleared since. |
| Stats.AddedLast | stats.c:90-117 | A new entry comes last, at zero, in place of the one its id had; the rest keep their order. |
| Stats.Conservation | stats.c:62-249 | In each column the head equals the entries plus what removal, reset and clearing retired plus events of unknown ids, modulo 2^32. |
| Stats.Table.AddEntry | stats.c:90-117 | Replaces by id; the old entry goes even when the allocation fails. |
| Stats.Table.RemoveEntry | stats.c:62-86 | Removes the entry and reports whether there was one. |
| Stats.Table.ClearEntries | stats.c:121-138 | Leaves no entry and the head as it was. |
| Stats.Table.ResetEntry | stats.c:230-249 | Zeroes the entry's counters and leaves the head. |
| Stats.Table.Count | stats.c:160-226 | Moves the head, and the entry of the id if listed, by one event. |
| DottedQuad.AtonNtoa | ksocket.c:123-175 | Every 32-bit address survives printing and parsing. |
| DottedQuad.NtoaAton | ksocket.c:123-175 | A parsed text prints back to itself exactly if it is an IPv4address of section 3.2.2 of RFC 3986. |
| DottedQuad.CanonicalParses | ksocket.c:134-142 | Every canonical quad parses and prints back to itself. |
| DottedQuad.NtoaCanonical | ksocket.c:160-171 | Printed text is canonical and 7 to 15 characters long, so it fits the buffer. |
| DottedQuad.QuadValue | ksocket.c:134-171 | The first number is the most significant byte and the last the least, in parsing and in printing. |
| DottedQuad.FewerNumbers | ksocket.c:126-134 | A text with one number sets one variable only, a text without sets none. |
| DottedQuad.InetAton | ksocket.c:123-151 | 1 for any text and 0 for NULL; four numbers are left in network order in memory, and with fewer the unset variables take their places. |
| DottedQuad.InetNtoa | ksocket.c:154-175 | Prints the four bytes of the stored address in the order they have in memory, on either byte order. |
| Scan.ScanNegative | filter.c:586-588 | A minus sign in front of a number negates it. |
| Scan.ScanPrinted | ksocket.c:134-171 | Scanning a printed number gives it back and stops right behind it. |

## Left out

- Sockets, packet-handler registration, kernel threads, `/proc` files and logging: a wire log, a FIFO per worker and parsed commands stand in for them.
- `sscanf` on whole command lines; only `%d` and the dotted quad are modelled as text.
- Filters and rules of the transition system are values that a step replaces as a whole; `Live` shows that the tables with their pointers amount to the same.
- What a dispatch through a dangling pointer does; `Live.FollowedExactly` and `Config.IntegrityExactly` say when there is one.
- Proc.ListenerObject.SetIpAddr: stores a text of any length, while the source copies up to 256 characters into a buffer of 32 without a check.
- Engine.Recv: chains are sequences of objects whose counters change in place; list surgery is modelled in `Ring`.
- Proc.ChainTable.Write: the chain list is a field of sequence type, so freeing of chains is not modelled; the source never frees the filters of a removed chain.
- Registry.Add: the lock around the append but not around the removal before it; histories here are sequential.
- Release of frames that are dropped or whose device is not found: the source frees nothing there, so nothing is claimed.
- Device writes of `Proc` as steps of the transition system, which adds, unlinks and stops device instances in any order instead.
- ConfigHistory.LongNamesCollide: a name over 31 characters has overrun the 32-byte buffer it is scanned into; what else that does is not modelled.
- ConfigHistory.LongNameTwice: the same, for both writes.
- Deadlock and interrupt context, which depend on kernel rules outside the repository.
- The disabled block of filter.c, recv.c (not built), getters, name strings and table printing.
- `wrk_count` and `wrk_highwater`, which no code uses.
