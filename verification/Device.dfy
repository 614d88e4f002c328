/** Captured packets, per-device counters, and the receive path's locked section (device.c). */
module Device {
  import opened Words
  import opened Options
  import opened Header
  import opened Pool

  /** What the network layer hands over: device address, frame bytes and receive time. */
  datatype Packet = Packet(addr: Address, frame: seq<byte>, secs: int, nsecs: int)

  /** The contents of a work item. */
  datatype Work = Work(pkt: Packet, pkts: u32, bytes: u32)

  const NO_WORK := Work(Packet([0, 0, 0, 0, 0, 0], [], 0, 0), 0, 0)

  /** The work items themselves. */
  type Table = d: seq<Work> | |d| == 16
    witness seq(16, _ => NO_WORK)

  /** The item a worker is on, and whether its frame has been dispatched already. */
  datatype Running = Running(item: Item, sent: bool)

  /** A device: its counters, the queue of its worker, and what the worker is on. */
  datatype DeviceState = DeviceState(
    name: string, linked: bool, pkts: u32, bytes: u32, drops: u16,
    queue: seq<Item>, running: Option<Running>)

  function NewDevice(name: string): DeviceState {
    DeviceState(name, true, 0, 0, 0, [], None)
  }

  /** The device after the locked section has queued item `i` for a frame of `size` bytes. */
  function Accepted(d: DeviceState, i: Item, size: nat): DeviceState {
    d.(pkts := U32(d.pkts + 1), bytes := U32(d.bytes + U32(size)), queue := d.queue + [i])
  }

  /** The device after the locked section has dropped a frame for want of an item. */
  function Dropped(d: DeviceState): DeviceState {
    d.(drops := U16(d.drops + 1))
  }

  /** What the locked section writes into the item: the counters as they are after the update. */
  function Stamp(d: DeviceState, pkt: Packet): Work {
    Work(pkt, U32(d.pkts + 1), U32(d.bytes + U32(|pkt.frame|)))
  }

  /** The bytes the worker makes of an item: header and frame. */
  function WireFrame(w: Work): seq<byte> {
    Encode(MetaFor(w.pkt.addr, w.pkts, |w.pkt.frame|, w.bytes, w.pkt.secs, w.pkt.nsecs)) + w.pkt.frame
  }

  /** The four bytes of a word as they lie on the wire. */
  function Word(v: u32): (b: seq<byte>)
    ensures |b| == 4
  {
    [v / 0x100_0000, v / 0x1_0000 % 0x100, v / 0x100 % 0x100, v % 0x100]
  }

  /**
   * What a listener receives, byte by byte: "RTAP", version 1, header length 32, the device address,
   * packet number, length with header, byte count, seconds and nanoseconds, and then the frame.
   */
  lemma FrameLayout(w: Work)
    ensures var b := WireFrame(w);
      && |b| == 32 + |w.pkt.frame|
      && b[0..4] == [0x52, 0x54, 0x41, 0x50] && b[4] == 1 && b[5] == 32 && b[6..12] == w.pkt.addr
      && b[12..16] == Word(w.pkts)
      && b[16..20] == Word((32 + |w.pkt.frame|) % 0x1_0000_0000)
      && b[20..24] == Word(w.bytes)
      && b[24..28] == Word(w.pkt.secs % 0x1_0000_0000)
      && b[28..32] == Word(w.pkt.nsecs % 0x1_0000_0000)
      && b[32..] == w.pkt.frame
  {
    var m := MetaFor(w.pkt.addr, w.pkts, |w.pkt.frame|, w.bytes, w.pkt.secs, w.pkt.nsecs);
    EncodedFields(m, w.pkt.frame);
    MagicWord();
    WordIs(m.pktid);
    WordIs(m.len);
    WordIs(m.bytecnt);
    WordIs(m.secs);
    WordIs(m.nsecs);
  }

  lemma WordIs(v: u32)
    ensures BigEndian32(v) == Word(v)
  {
    OctetsInPlace(v);
  }

  lemma MagicWord()
    ensures BigEndian32(MAGIC) == [0x52, 0x54, 0x41, 0x50]
  {
    WordIs(MAGIC);
  }

  class WorkObject {
    var work: Work

    constructor ()
      ensures work == NO_WORK
    {
      work := NO_WORK;
    }
  }

  class DeviceObject {
    const name: string
    var pkts: u32
    var bytes: u32
    var wrkDrop: u16
    var queue: seq<Item>

    constructor (name: string)
      ensures View() == NewDevice(name) && this.name == name
    {
      this.name := name;
      pkts, bytes, wrkDrop, queue := 0, 0, 0, [];
    }

    function View(): DeviceState
      reads this
    {
      DeviceState(name, true, pkts, bytes, wrkDrop, queue, None)
    }

    /**
     * The locked section of rtap_device_recv. With an item the counters move first and the item is
     * stamped with their new values and queued; without one the drop is counted and -1 returned.
     */
    method Deliver(item: Option<Item>, wrk: WorkObject, pkt: Packet) returns (ret: int)
      modifies this, wrk
      ensures ret == if item.Some? then 0 else -1
      ensures View() == if item.Some? then Accepted(old(View()), item.value, |pkt.frame|) else Dropped(old(View()))
      ensures wrk.work == if item.Some? then Stamp(old(View()), pkt) else old(wrk.work)
    {
      ret := 0;
      if item.Some? {
        wrk.work := NO_WORK;
        pkts := U32(pkts + 1);
        bytes := U32(bytes + U32(|pkt.frame|));
        wrk.work := Work(pkt, pkts, bytes);
        queue := queue + [item.value];
      } else {
        ret := -1;
        wrkDrop := U16(wrkDrop + 1);
      }
    }
  }

  /** The worker's step from item to wire: it puts exactly the specified bytes in the buffer. */
  method BuildWork(e: Endian, w: Work) returns (skb: seq<byte>)
    ensures skb == WireFrame(w)
  {
    var buf := BuildFrame(e, w.pkt.addr, w.pkt.frame, w.pkts, w.bytes, w.pkt.secs, w.pkt.nsecs);
    skb := buf[..];
  }
}
