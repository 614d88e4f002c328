/** The 32-byte metadata header that the worker pushes in front of every captured frame. */
module Header {
  import opened Words

  const MAGIC: u32 := 0x52544150
  const VERSION: byte := 1
  const HEADER_LEN: byte := 32

  type Address = a: seq<byte> | |a| == 6 witness [0, 0, 0, 0, 0, 0]

  datatype Meta = Meta(
    magic: u32, ver: byte, hdrlen: byte, ethaddr: Address,
    pktid: u32, len: u32, bytecnt: u32, secs: u32, nsecs: u32)

  /** The wire layout: packed, multi-byte integers most significant byte first. */
  function Encode(m: Meta): (b: seq<byte>)
    ensures |b| == 32
  {
    BigEndian32(m.magic) + [m.ver, m.hdrlen] + m.ethaddr + BigEndian32(m.pktid)
    + BigEndian32(m.len) + BigEndian32(m.bytecnt) + BigEndian32(m.secs) + BigEndian32(m.nsecs)
  }

  /** Reads each field at its own offset. */
  function Decode(b: seq<byte>): Meta
    requires |b| >= 32
  {
    Meta(Join32(b[0..4]), b[4], b[5], b[6..12], Join32(b[12..16]), Join32(b[16..20]),
         Join32(b[20..24]), Join32(b[24..28]), Join32(b[28..32]))
  }

  /** A buffer whose header decodes to `m` and in which the frame follows the header unchanged. */
  ghost predicate Carries(b: seq<byte>, m: Meta, frame: seq<byte>) {
    |b| >= 32 && Decode(b) == m && b[32..] == frame
  }

  /** Every field is recovered from the front of a frame, and the frame follows unchanged. */
  lemma DecodeEncode(m: Meta, frame: seq<byte>)
    ensures Carries(Encode(m) + frame, m, frame)
  {
    JoinOctets(m.magic);
    JoinOctets(m.pktid);
    JoinOctets(m.len);
    JoinOctets(m.bytecnt);
    JoinOctets(m.secs);
    JoinOctets(m.nsecs);
    EncodedFields(m, frame);
  }

  /** Where each field lies. */
  lemma EncodedFields(m: Meta, frame: seq<byte>)
    ensures var b := Encode(m) + frame;
      && b[0..4] == BigEndian32(m.magic) && b[4] == m.ver && b[5] == m.hdrlen && b[6..12] == m.ethaddr
      && b[12..16] == BigEndian32(m.pktid) && b[16..20] == BigEndian32(m.len)
      && b[20..24] == BigEndian32(m.bytecnt) && b[24..28] == BigEndian32(m.secs)
      && b[28..32] == BigEndian32(m.nsecs) && b[32..] == frame
  {
    Slices(BigEndian32(m.magic), [m.ver, m.hdrlen], m.ethaddr, BigEndian32(m.pktid), BigEndian32(m.len),
           BigEndian32(m.bytecnt), BigEndian32(m.secs), BigEndian32(m.nsecs), frame);
  }

  lemma Slices(a: seq<byte>, b: seq<byte>, c: seq<byte>, d: seq<byte>, e: seq<byte>, f: seq<byte>, g: seq<byte>,
               h: seq<byte>, frame: seq<byte>)
    requires |a| == |d| == |e| == |f| == |g| == |h| == 4 && |b| == 2 && |c| == 6
    ensures var s := a + b + c + d + e + f + g + h + frame;
      && s[0..4] == a && s[4] == b[0] && s[5] == b[1] && s[6..12] == c && s[12..16] == d && s[16..20] == e
      && s[20..24] == f && s[24..28] == g && s[28..32] == h && s[32..] == frame
  {
  }

  /** The layout wastes no byte: any 32 bytes are the encoding of what they decode to. */
  lemma EncodeDecode(b: seq<byte>)
    requires |b| == 32
    ensures Encode(Decode(b)) == b
  {
    JoinInjective(b[0..4]);
    JoinInjective(b[12..16]);
    JoinInjective(b[16..20]);
    JoinInjective(b[20..24]);
    JoinInjective(b[24..28]);
    JoinInjective(b[28..32]);
    assert b == b[0..4] + [b[4], b[5]] + b[6..12] + b[12..16] + b[16..20] + b[20..24] + b[24..28] + b[28..32];
  }

  /** The header the worker builds for a captured frame of `size` bytes. */
  function MetaFor(addr: Address, pktid: u32, size: nat, bytecnt: u32, secs: int, nsecs: int): Meta {
    Meta(MAGIC, VERSION, HEADER_LEN, addr, pktid, U32(32 + size), bytecnt, U32(secs), U32(nsecs))
  }

  /** One 32-bit store into the frame buffer, in the machine's own byte order. */
  method Store32(e: Endian, buf: array<byte>, off: nat, v: u32)
    requires off + 4 <= buf.Length
    modifies buf
    ensures buf[..off] == old(buf[..off])
    ensures buf[off..off + 4] == Stored32(e, v)
    ensures buf[off + 4..] == old(buf[off + 4..])
  {
    var b := Stored32(e, v);
    forall i | 0 <= i < 4 { buf[off + i] := b[i]; }
  }

  /** `field = cpu_to_be32(v)` for the next field: what lies before and the frame behind stay. */
  method Put32(e: Endian, buf: array<byte>, off: nat, v: u32)
    requires off + 4 <= 32 <= buf.Length
    modifies buf
    ensures buf[..off + 4] == old(buf[..off]) + BigEndian32(v)
    ensures buf[32..] == old(buf[32..])
  {
    ghost var rest := buf[off + 4..];
    assert buf[32..] == rest[28 - off..];
    Store32(e, buf, off, CpuToBe32(e, v));
    StoredBigEndian(e, v);
    assert buf[..off + 4] == buf[..off] + buf[off..off + 4];
    assert buf[32..] == buf[off + 4..][28 - off..];
  }

  /** Copies `bytes` to offset `off`; nothing else changes. */
  method PutBytes(buf: array<byte>, off: nat, bytes: seq<byte>)
    requires off + |bytes| <= 32 <= buf.Length
    modifies buf
    ensures buf[..off + |bytes|] == old(buf[..off]) + bytes
    ensures buf[32..] == old(buf[32..])
  {
    forall i | 0 <= i < |bytes| { buf[off + i] := bytes[i]; }
  }

  /** skb_copy_expand followed by skb_push: the frame behind 32 bytes of headroom. */
  method CopyExpand(frame: seq<byte>) returns (buf: array<byte>)
    ensures fresh(buf) && buf.Length == 32 + |frame| && buf[32..] == frame
  {
    buf := new byte[32 + |frame|](i requires 0 <= i < 32 + |frame| => if i < 32 then 0 else frame[i - 32]);
  }

  /** The fields that identify the sender. */
  method PutIdentity(e: Endian, buf: array<byte>, addr: Address)
    requires 32 <= buf.Length
    modifies buf
    ensures buf[..12] == BigEndian32(MAGIC) + [VERSION, HEADER_LEN] + addr
    ensures buf[32..] == old(buf[32..])
  {
    Put32(e, buf, 0, MAGIC);
    PutBytes(buf, 4, [VERSION]);
    PutBytes(buf, 5, [HEADER_LEN]);
    PutBytes(buf, 6, addr);
  }

  /** The five words that follow. */
  method PutWords(e: Endian, buf: array<byte>, a: u32, b: u32, c: u32, d: u32, f: u32)
    requires 32 <= buf.Length
    modifies buf
    ensures buf[..32] ==
      old(buf[..12]) + BigEndian32(a) + BigEndian32(b) + BigEndian32(c) + BigEndian32(d) + BigEndian32(f)
    ensures buf[32..] == old(buf[32..])
  {
    Put32(e, buf, 12, a);
    Put32(e, buf, 16, b);
    Put32(e, buf, 20, c);
    Put32(e, buf, 24, d);
    Put32(e, buf, 28, f);
  }

  /**
   * The worker's copy of the frame, with the header filled in field by field in the order of the
   * source. Whatever the machine's byte order, the bytes on the wire are the same.
   */
  method BuildFrame(e: Endian, addr: Address, frame: seq<byte>, pkts: u32, bytes: u32, secs: int, nsecs: int)
    returns (buf: array<byte>)
    ensures fresh(buf)
    ensures buf[..] == Encode(MetaFor(addr, pkts, |frame|, bytes, secs, nsecs)) + frame
  {
    buf := CopyExpand(frame);
    PutIdentity(e, buf, addr);
    PutWords(e, buf, pkts, U32(buf.Length), bytes, U32(secs), U32(nsecs));
    assert buf[..] == buf[..32] + buf[32..];
  }
}
