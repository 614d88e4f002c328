/** Fixed-width machine integers, modelled as bounded integers with explicit wrap-around. */
module Words {
  type byte = x: int | 0 <= x < 0x100
  type u16 = x: int | 0 <= x < 0x1_0000
  type u32 = x: int | 0 <= x < 0x1_0000_0000

  /** Conversion of any integer to an unsigned 16-bit value, as C does it. */
  function U16(x: int): u16 {
    x % 0x1_0000
  }

  /** Conversion of any integer to an unsigned 32-bit value, as C does it. */
  function U32(x: int): u32 {
    x % 0x1_0000_0000
  }

  /** Adding to a wrapped counter is wrapping the sum. */
  lemma WrappedSum(a: int, b: int)
    ensures U32(U32(a) + b) == U32(a + b)
  {
    assert a + b == a / 0x1_0000_0000 * 0x1_0000_0000 + (U32(a) + b);
  }

  /** Wrapping either summand first makes no difference. */
  lemma WrappedSums(a: int, b: int)
    ensures U32(U32(a) + U32(b)) == U32(a + b)
  {
    WrappedSum(b, U32(a));
    WrappedSum(a, b);
  }

  lemma WrappedSum16(a: int, b: int)
    ensures U16(U16(a) + b) == U16(a + b)
  {
    assert a + b == a / 0x1_0000 * 0x1_0000 + (U16(a) + b);
  }

  /** The order in which the machine stores the bytes of an integer. */
  datatype Endian = Little | Big

  /** Appends one byte to the right of a number. */
  function Join(high: int, low: int): int {
    high * 256 + low
  }

  /** The value whose big-endian bytes are `b`. */
  function Join32(b: seq<byte>): u32
    requires |b| == 4
  {
    Join(Join(Join(b[0], b[1]), b[2]), b[3])
  }

  /** The last `n` bytes of a number, shifted out one after the other from the right. */
  function Octets(v: nat, n: nat): (b: seq<byte>)
    ensures |b| == n
  {
    if n == 0 then [] else Octets(v / 256, n - 1) + [v % 256]
  }

  /** The four bytes of `v`, most significant first. */
  function BigEndian32(v: u32): (b: seq<byte>)
    ensures |b| == 4
  {
    Octets(v, 4)
  }

  lemma OctetsByShifting(v: u32)
    ensures BigEndian32(v) == [v / 256 / 256 / 256 % 256, v / 256 / 256 % 256, v / 256 % 256, v % 256]
  {
    var q1 := v / 256;
    var q2 := q1 / 256;
    var q3 := q2 / 256;
    assert Octets(q3, 1) == Octets(q3 / 256, 0) + [q3 % 256];
    assert Octets(q2, 2) == Octets(q3, 1) + [q2 % 256];
    assert Octets(q1, 3) == Octets(q2, 2) + [q1 % 256];
  }

  lemma ShiftTwice(v: nat)
    ensures v / 256 / 256 == v / 0x1_0000
  {
    var q, r := v / 0x1_0000, v % 0x1_0000;
    assert v == 256 * (256 * q + r / 256) + r % 256;
  }

  /** The same bytes, cut out in place. */
  lemma OctetsInPlace(v: u32)
    ensures BigEndian32(v) == [v / 0x100_0000, v / 0x1_0000 % 256, v / 0x100 % 256, v % 256]
  {
    OctetsByShifting(v);
    TopOctet(v);
    ShiftTwice(v);
    ShiftTwice(v / 256);
    Thrice(v);
  }

  lemma Thrice(v: nat)
    ensures v / 256 / 0x1_0000 == v / 0x100_0000
  {
    var q, r := v / 0x100_0000, v % 0x100_0000;
    assert v == 256 * (0x1_0000 * q + r / 256) + r % 256;
  }

  lemma ShiftJoins(v: nat)
    ensures Join(v / 256, v % 256) == v
  {
  }

  lemma TopOctet(v: u32)
    ensures v / 256 / 256 / 256 % 256 == v / 256 / 256 / 256
  {
  }

  /** Those bytes spell the value. */
  lemma JoinOctets(v: u32)
    ensures Join32(BigEndian32(v)) == v
  {
    OctetsByShifting(v);
    TopOctet(v);
    ShiftJoins(v / 256 / 256);
    ShiftJoins(v / 256);
    ShiftJoins(v);
  }

  /** Four bytes are determined by the value they spell. */
  lemma JoinInjective(b: seq<byte>)
    requires |b| == 4
    ensures BigEndian32(Join32(b)) == b
  {
    var p := Join(b[0], b[1]);
    var q := Join(p, b[2]);
    OctetsByShifting(Join32(b));
    JoinSplits(q, b[3]);
    JoinSplits(p, b[2]);
    JoinSplits(b[0], b[1]);
  }

  lemma JoinSplits(high: nat, low: byte)
    ensures Join(high, low) / 256 == high && Join(high, low) % 256 == low
  {
  }

  /** The bytes a store of `v` leaves in memory. */
  function Stored32(e: Endian, v: u32): seq<byte> {
    var b := BigEndian32(v);
    if e.Big? then b else [b[3], b[2], b[1], b[0]]
  }

  /** cpu_to_be32 and htonl: swaps the bytes on a little-endian machine only. */
  function CpuToBe32(e: Endian, v: u32): u32 {
    var b := BigEndian32(v);
    if e.Big? then v else Join32([b[3], b[2], b[1], b[0]])
  }

  /** ntohl: the same swap the other way. */
  function Ntohl(e: Endian, v: u32): u32 {
    CpuToBe32(e, v)
  }

  /** htons, the same for 16 bits. */
  function CpuToBe16(e: Endian, v: u16): u16 {
    if e.Big? then v else v % 256 * 256 + v / 256
  }

  /** The two bytes a store of `v` leaves in memory. */
  function Stored16(e: Endian, v: u16): seq<byte> {
    if e.Big? then [v / 256, v % 256] else [v % 256, v / 256]
  }

  /** Whatever the machine's byte order, storing a converted word leaves big-endian bytes. */
  lemma StoredBigEndian(e: Endian, v: u32)
    ensures Stored32(e, CpuToBe32(e, v)) == BigEndian32(v)
  {
    var b := BigEndian32(v);
    JoinInjective([b[3], b[2], b[1], b[0]]);
  }

  /** ntohl reads the bytes in memory as a big-endian number. */
  lemma NtohlReads(e: Endian, v: u32)
    ensures Ntohl(e, v) == Join32(Stored32(e, v))
  {
    if e.Big? {
      JoinOctets(v);
    }
  }

  lemma StoredBigEndian16(e: Endian, v: u16)
    ensures Stored16(e, CpuToBe16(e, v)) == [v / 256, v % 256]
  {
  }
}
