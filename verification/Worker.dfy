/** The receive handler and the worker as single calls, composed of their critical sections. */
module Worker {
  import opened Words
  import opened Options
  import opened Pool
  import opened Device
  import opened Dispatch
  import opened Engine

  /**
   * rtap_device_recv once the device is found: pop an item, then queue or drop under the lock. The
   * packet is dropped exactly when the pool yields no item.
   */
  method Receive(table: KworkTable, dev: DeviceObject, items: seq<WorkObject>, pkt: Packet) returns (ret: int)
    requires table.View().InBounds() && |items| == POOL_SIZE
    requires forall j, k :: 0 <= j < k < |items| ==> items[j] != items[k]
    modifies table`index, table.freelist, dev, items
    ensures ret == if Top(old(table.View())).Some? then 0 else -1
    ensures table.freelist == old(table.freelist) && table.View() == Popped(old(table.View()))
    ensures dev.View() ==
      if ret == 0 then Accepted(old(dev.View()), Top(old(table.View())).value, |pkt.frame|)
      else Dropped(old(dev.View()))
    ensures ret == 0 ==> items[Top(old(table.View())).value].work == Stamp(old(dev.View()), pkt)
    ensures forall i :: 0 <= i < |items| && Top(old(table.View())) != Some(i) ==> items[i].work == old(items[i].work)
  {
    var item := table.Alloc();
    ret := dev.Deliver(item, if item.Some? then items[item.value] else items[0], pkt);
  }

  /** A socket buffer: one handed over by the network layer, or a copy with the header in front. */
  datatype Buffer = Captured(pkt: Packet) | Copied(bytes: seq<byte>)

  /** What kfree_skb has released so far. */
  class Released {
    var buffers: seq<Buffer>

    constructor ()
      ensures buffers == []
    {
      buffers := [];
    }

    method FreeSkb(b: Buffer)
      modifies this
      ensures buffers == old(buffers) + [b]
    {
      buffers := buffers + [b];
    }
  }

  /** The part of the worker up to the release of the frames. */
  method SendWork(e: Endian, wire: Network, chains: seq<ChainObject>, work: Work) returns (skb: seq<byte>)
    requires Separate(chains) && HandledTypes(chains)
    modifies wire`sent, Filters(chains)`count
    ensures skb == WireFrame(work)
    ensures wire.sent == old(wire.sent) + Output(old(View(chains)), WireFrame(work))
    ensures View(chains) == BumpAll(old(View(chains)), U32(|WireFrame(work)|))
  {
    skb := BuildWork(e, work);
    Recv(wire, chains, skb);
  }

  /** The rest of it: both frames are released, and the item goes back. */
  method Finish(table: KworkTable, item: Item, freed: Released, skb: seq<byte>, pkt: Packet)
    requires table.View().InBounds() && table.index < POOL_SIZE
    modifies table`index, table.freelist, freed
    ensures freed.buffers == old(freed.buffers) + [Copied(skb), Captured(pkt)]
    ensures table.View() == Pushed(old(table.View()), item)
  {
    freed.FreeSkb(Copied(skb));
    freed.FreeSkb(Captured(pkt));
    table.Free(Some(item));
  }

  /**
   * rtap_device_rx_worker: builds the frame from the item's contents, runs the filters, releases the
   * copy and the captured frame once each, and gives the item back.
   */
  method RxWorker(e: Endian, wire: Network, chains: seq<ChainObject>, table: KworkTable,
                  items: seq<WorkObject>, item: Item, freed: Released)
    requires Separate(chains) && HandledTypes(chains)
    requires table.View().InBounds() && table.index < POOL_SIZE && |items| == POOL_SIZE
    modifies wire`sent, Filters(chains)`count, table`index, table.freelist, freed
    ensures wire.sent == old(wire.sent) + Output(old(View(chains)), WireFrame(old(items[item].work)))
    ensures View(chains) == BumpAll(old(View(chains)), U32(|WireFrame(old(items[item].work))|))
    ensures freed.buffers ==
      old(freed.buffers) + [Copied(WireFrame(old(items[item].work))), Captured(old(items[item].work.pkt))]
    ensures table.View() == Pushed(old(table.View()), item)
  {
    var work := items[item].work;
    var skb := SendWork(e, wire, chains, work);
    assert table.View() == old(table.View());
    Finish(table, item, freed, skb, work.pkt);
  }
}
