/** inet_aton and inet_ntoa of ksocket.c: dotted-quad text and 32-bit addresses. */
module DottedQuad {
  import opened Words
  import opened Options
  import opened Scan

  /** Bitwise or of two words. */
  function BitOr(x: nat, y: nat): nat {
    if x == 0 && y == 0 then 0
    else 2 * BitOr(x / 2, y / 2) + if x % 2 == 1 || y % 2 == 1 then 1 else 0
  }

  function Pow2(n: nat): nat {
    if n == 0 then 1 else 2 * Pow2(n - 1)
  }

  lemma {:induction false} OrZero(x: nat)
    ensures BitOr(x, 0) == x
  {
    if x > 0 {
      OrZero(x / 2);
    }
  }

  /** Or-ing a small word into the cleared low bits of a shifted one is an addition. */
  lemma {:induction false} OrDisjoint(n: nat, high: nat, low: nat)
    requires low < Pow2(n)
    ensures BitOr(Pow2(n) * high, low) == Pow2(n) * high + low
  {
    if n == 0 {
      OrZero(high);
    } else {
      var x := Pow2(n - 1) * high;
      assert Pow2(n) * high == 2 * x;
      OrDisjoint(n - 1, high, low / 2);
    }
  }

  lemma {:induction false} OrBound(n: nat, x: nat, y: nat)
    requires x < Pow2(n) && y < Pow2(n)
    ensures BitOr(x, y) < Pow2(n)
  {
    if n > 0 {
      OrBound(n - 1, x / 2, y / 2);
    }
  }

  /** `addr |= v` on 32-bit words. */
  function Or32(x: u32, y: u32): u32 {
    assert Pow2(32) == 0x1_0000_0000 by { Pow2Of32(); }
    OrBound(32, x, y);
    BitOr(x, y)
  }

  lemma Pow2Of32()
    ensures Pow2(8) == 256 && Pow2(32) == 0x1_0000_0000
  {
    assert Pow2(8) == 256;
    assert Pow2(16) == 256 * Pow2(8);
    assert Pow2(24) == 256 * Pow2(16);
    assert Pow2(32) == 256 * Pow2(24);
  }

  /** `addr <<= 8`: the top byte falls off. */
  function ShiftLeft8(addr: u32): u32 {
    addr % 0x100_0000 * 256
  }

  /** `addr <<= 8; addr |= v`, for any int `v`. */
  function ShiftIn(addr: u32, v: int): u32 {
    Or32(ShiftLeft8(addr), U32(v))
  }

  lemma OrOctet(high: nat, low: byte)
    ensures BitOr(high * 256, low) == Join(high, low)
  {
    Pow2Of32();
    var n := 8;
    OrDisjoint(n, high, low);
  }

  lemma NothingFallsOff(addr: u32, v: byte)
    requires addr < 0x100_0000
    ensures ShiftLeft8(addr) == addr * 256 && U32(v) == v
  {
  }

  lemma ShiftInOctet(addr: u32, v: byte)
    requires addr < 0x100_0000
    ensures ShiftIn(addr, v) == Join(addr, v)
  {
    NothingFallsOff(addr, v);
    OrOctet(addr, v);
    assert Or32(ShiftLeft8(addr), U32(v)) == BitOr(addr * 256, v);
  }

  /** The four fields of "%d.%d.%d.%d", or None when fewer than four convert. */
  function ScanQuad(s: string): (r: Option<seq<int>>)
    ensures r.Some? ==> |r.value| == 4
  {
    var (a, r1) :- ScanInt(s);
    var s1 :- Dot(r1);
    var (b, r2) :- ScanInt(s1);
    var s2 :- Dot(r2);
    var (c, r3) :- ScanInt(s2);
    var s3 :- Dot(r3);
    var (d, _) :- ScanInt(s3);
    Some([a, b, c, d])
  }

  /** Matches a literal dot. */
  function Dot(s: string): Option<string> {
    if s != "" && s[0] == '.' then Some(s[1..]) else None
  }

  /** The host-order address the text denotes; None when the scan leaves a field unset. */
  function Aton(cp: string): Option<u32> {
    var fields :- ScanQuad(cp);
    Some(Shifted(fields))
  }

  /** The values of four local variables that are never set. */
  type Unset = s: seq<int> | |s| == 4 witness [0, 0, 0, 0]

  /**
   * What the variables hold after scanning numbers with dots between them: those the scan does not
   * reach keep what was there.
   */
  function Filled(s: string, unset: seq<int>): (r: seq<int>)
    ensures |r| == |unset|
    decreases |unset|
  {
    if unset == [] then []
    else
      match ScanInt(s)
      case None => unset
      case Some((v, rest)) =>
        match Dot(rest)
        case None => [v] + unset[1..]
        case Some(more) => [v] + Filled(more, unset[1..])
  }

  lemma FilledLast(s: string, v: int, rest: string, unset: seq<int>)
    requires ScanInt(s) == Some((v, rest)) && |unset| == 1
    ensures Filled(s, unset) == [v]
  {
    match Dot(rest)
    case None =>
    case Some(more) => assert Filled(more, unset[1..]) == [];
  }

  /** A field and what is filled in behind it. */
  ghost predicate Leads(s: string, v: int, more: string) {
    ScanInt(s).Some? && ScanInt(s).value.0 == v && Dot(ScanInt(s).value.1) == Some(more)
  }

  lemma {:induction false} FilledLeads(s: string, v: int, more: string, unset: seq<int>, vs: seq<int>)
    requires Leads(s, v, more) && unset != [] && Filled(more, unset[1..]) == vs
    ensures Filled(s, unset) == [v] + vs
  {
  }

  lemma {:induction false} QuadLeads(s: string) returns (s1: string, s2: string, s3: string, v: seq<int>)
    requires ScanQuad(s).Some?
    ensures |v| == 4 && ScanQuad(s).value == v
    ensures Leads(s, v[0], s1) && Leads(s1, v[1], s2) && Leads(s2, v[2], s3)
    ensures ScanInt(s3).Some? && ScanInt(s3).value.0 == v[3]
  {
    v := ScanQuad(s).value;
    s1 := Dot(ScanInt(s).value.1).value;
    s2 := Dot(ScanInt(s1).value.1).value;
    s3 := Dot(ScanInt(s2).value.1).value;
  }

  lemma {:induction false} FilledTwo(s: string, v: int, more: string, w: int, unset: seq<int>)
    requires Leads(s, v, more) && ScanInt(more).Some? && ScanInt(more).value.0 == w && |unset| == 2
    ensures Filled(s, unset) == [v] + [w]
  {
    FilledLast(more, w, ScanInt(more).value.1, unset[1..]);
    FilledLeads(s, v, more, unset, [w]);
  }

  /** When all four numbers convert, what was there before plays no part. */
  lemma {:induction false} FilledQuad(s: string, unset: Unset)
    requires ScanQuad(s).Some?
    ensures Filled(s, unset) == ScanQuad(s).value
  {
    var s1, s2, s3, v := QuadLeads(s);
    FilledTwo(s2, v[2], s3, v[3], unset[2..]);
    FilledLeads(s1, v[1], s2, unset[1..], [v[2]] + [v[3]]);
    FilledLeads(s, v[0], s1, unset, [v[1]] + ([v[2]] + [v[3]]));
  }

  /** The host-order word inet_aton computes, whatever the text. */
  function AtonWord(cp: string, unset: Unset): u32 {
    Shifted(Filled(cp, unset))
  }

  /** For a text with four numbers the unset variables play no part. */
  lemma AtonIsWord(cp: string, unset: Unset)
    requires Aton(cp).Some?
    ensures AtonWord(cp, unset) == Aton(cp).value
  {
    FilledQuad(cp, unset);
  }

  /** The word left after shifting in each field in turn. */
  function Shifted(fields: seq<int>): u32 {
    if fields == [] then 0
    else ShiftIn(Shifted(fields[..|fields| - 1]), fields[|fields| - 1])
  }

  /** Up to four octets never collide: shifting them in spells them in base 256. */
  lemma {:induction false} ShiftedOctets(o: seq<byte>, fields: seq<int>)
    requires |o| == |fields| <= 4 && forall k :: 0 <= k < |o| ==> fields[k] == o[k]
    ensures Shifted(fields) == Spelled(o)
  {
    if |o| > 0 {
      var n := |o| - 1;
      ShiftedOctets(o[..n], fields[..n]);
      SpelledBound(o[..n]);
      ShiftInOctet(Shifted(fields[..n]), o[n]);
    }
  }

  function Spelled(o: seq<byte>): nat {
    if o == [] then 0 else Join(Spelled(o[..|o| - 1]), o[|o| - 1])
  }

  lemma SpelledBound(o: seq<byte>)
    requires |o| <= 3
    ensures Spelled(o) < 0x100_0000
  {
    if |o| == 3 {
      var p := o[..2];
      assert Spelled(p[..1]) < 0x100 by { assert p[..1][..0] == []; }
      assert Spelled(p) < 0x1_0000;
    } else if |o| == 2 {
      assert Spelled(o[..1]) < 0x100 by { assert o[..1][..0] == []; }
    } else if |o| == 1 {
      assert o[..0] == [];
    }
  }

  lemma SpelledFour(o: seq<byte>)
    requires |o| == 4
    ensures Spelled(o) == Join32(o)
  {
    var p, q, r := o[..3], o[..2], o[..1];
    assert p[..2] == q && q[..1] == r && r[..0] == [];
    assert Spelled(r) == o[0];
    assert Spelled(q) == Join(o[0], o[1]);
    assert Spelled(p) == Join(Join(o[0], o[1]), o[2]);
  }

  function Quad(a: string, b: string, c: string, d: string): string {
    a + "." + b + "." + c + "." + d
  }

  /** The text of a host-order address. */
  function Ntoa(addr: u32): string {
    var o := BigEndian32(addr);
    Quad(Decimal(o[0]), Decimal(o[1]), Decimal(o[2]), Decimal(o[3]))
  }

  /** The unrolled form: the first field is assigned, the other three shifted in. */
  lemma ShiftedFour(s: seq<int>)
    requires |s| == 4
    ensures Shifted(s) == ShiftIn(ShiftIn(ShiftIn(U32(s[0]), s[1]), s[2]), s[3])
  {
    assert Shifted(s[..1]) == U32(s[0]) by {
      assert s[..1][..0] == [];
      OrZeroLeft(U32(s[0]));
    }
    assert s[..2][..1] == s[..1] && s[..3][..2] == s[..2];
    assert Shifted(s[..2]) == ShiftIn(Shifted(s[..1]), s[1]);
    assert Shifted(s[..3]) == ShiftIn(Shifted(s[..2]), s[2]);
  }

  lemma {:induction false} OrZeroLeft(y: nat)
    ensures BitOr(0, y) == y
  {
    if y > 0 {
      OrZeroLeft(y / 2);
    }
  }

  /**
   * inet_aton: builds the address by shifting in one field after another and stores it big-endian.
   * It does not look at what the scan reports: any text but NULL counts as success.
   */
  method InetAton(e: Endian, cp: Option<string>, unset: Unset, was: u32) returns (ret: int, sAddr: u32)
    ensures ret == if cp.None? then 0 else 1
    ensures cp.None? ==> sAddr == was
    ensures cp.Some? ==> sAddr == CpuToBe32(e, AtonWord(cp.value, unset))
    ensures cp.Some? && Aton(cp.value).Some? ==> Stored32(e, sAddr) == BigEndian32(Aton(cp.value).value)
  {
    if cp.None? {
      return 0, was;
    }
    var fields := Filled(cp.value, unset);
    var addr: u32 := U32(fields[0]);
    addr := ShiftLeft8(addr);
    addr := Or32(addr, U32(fields[1]));
    addr := ShiftLeft8(addr);
    addr := Or32(addr, U32(fields[2]));
    addr := ShiftLeft8(addr);
    addr := Or32(addr, U32(fields[3]));
    ShiftedFour(fields);
    StoredBigEndian(e, addr);
    if Aton(cp.value).Some? {
      AtonIsWord(cp.value, unset);
    }
    return 1, CpuToBe32(e, addr);
  }

  /** inet_ntoa prints the four bytes of a stored address in the order they have in memory. */
  method InetNtoa(e: Endian, sAddr: u32) returns (ip: string)
    ensures ip == Ntoa(Join32(Stored32(e, sAddr)))
  {
    NtohlReads(e, sAddr);
    var addr := Ntohl(e, sAddr);
    OctetsByShifting(addr);
    var d := addr % 256;
    addr := addr / 256;
    var c := addr % 256;
    addr := addr / 256;
    var b := addr % 256;
    addr := addr / 256;
    var a := addr % 256;
    ip := Decimal(a) + "." + Decimal(b) + "." + Decimal(c) + "." + Decimal(d);
  }

  /** dec-octet in section 3.2.2 of RFC 3986. */
  predicate DecOctet(s: string) {
    match |s|
    case 1 => IsDigit(s[0])
    case 2 => '1' <= s[0] <= '9' && IsDigit(s[1])
    case 3 =>
      || (s[0] == '1' && IsDigit(s[1]) && IsDigit(s[2]))
      || (s[0] == '2' && '0' <= s[1] <= '4' && IsDigit(s[2]))
      || (s[0] == '2' && s[1] == '5' && '0' <= s[2] <= '5')
    case _ => false
  }

  /** IPv4address in section 3.2.2 of RFC 3986. */
  ghost predicate IPv4Address(s: string) {
    exists a, b, c, d ::
      DecOctet(a) && DecOctet(b) && DecOctet(c) && DecOctet(d) && s == Quad(a, b, c, d)
  }

  lemma DecimalIsOctet(n: byte)
    ensures DecOctet(Decimal(n)) && 1 <= |Decimal(n)| <= 3
  {
    if n >= 100 {
      assert Decimal(n) == [Digit(n / 100), Digit(n / 10 % 10), Digit(n % 10)] by {
        assert Decimal(n / 10) == [Digit(n / 10 / 10), Digit(n / 10 % 10)];
      }
    }
  }

  lemma NumberOfTwo(s: string)
    requires |s| == 2 && IsDigit(s[0]) && IsDigit(s[1])
    ensures Number(s) == DigitValue(s[0]) * 10 + DigitValue(s[1])
  {
    var t := s[..1];
    assert t[..0] == "" && Number(t) == DigitValue(s[0]);
  }

  lemma TwoDigits(s: string)
    requires |s| == 2 && '1' <= s[0] <= '9' && IsDigit(s[1])
    ensures 10 <= Number(s) < 100 && Decimal(Number(s)) == s
  {
    NumberOfTwo(s);
  }

  lemma OctetIsDecimal(s: string)
    requires DecOctet(s)
    ensures forall k :: 0 <= k < |s| ==> IsDigit(s[k])
    ensures Number(s) < 256 && Decimal(Number(s)) == s
  {
    if |s| == 1 {
      assert s[..0] == "";
    } else if |s| == 2 {
      TwoDigits(s);
    } else {
      ThreeDigits(s);
    }
  }

  lemma {:induction false} ThreeDigits(s: string)
    requires DecOctet(s) && |s| == 3
    ensures forall k :: 0 <= k < |s| ==> IsDigit(s[k])
    ensures Number(s) < 256 && Decimal(Number(s)) == s
  {
    TwoDigits(s[..2]);
    OneMoreDigit(s[..2], s[2]);
    assert s == s[..2] + [s[2]];
  }

  lemma NumberMore(t: string, c: char)
    requires (forall k :: 0 <= k < |t| ==> IsDigit(t[k])) && IsDigit(c)
    ensures forall k :: 0 <= k < |t + [c]| ==> IsDigit((t + [c])[k])
    ensures Number(t + [c]) == Number(t) * 10 + DigitValue(c)
  {
    assert (t + [c])[..|t|] == t;
  }

  lemma DecimalMore(m: nat, d: nat)
    requires m > 0 && d < 10
    ensures Decimal(m * 10 + d) == Decimal(m) + [Digit(d)]
  {
    var n := m * 10 + d;
    assert n / 10 == m && n % 10 == d && n >= 10;
  }

  /** Appending a digit to a printed number that is not zero. */
  lemma OneMoreDigit(t: string, c: char)
    requires (forall k :: 0 <= k < |t| ==> IsDigit(t[k])) && IsDigit(c)
    requires Decimal(Number(t)) == t && Number(t) > 0
    ensures forall k :: 0 <= k < |t + [c]| ==> IsDigit((t + [c])[k])
    ensures Number(t + [c]) == Number(t) * 10 + DigitValue(c) && Decimal(Number(t + [c])) == t + [c]
  {
    NumberMore(t, c);
    DecimalMore(Number(t), DigitValue(c));
    assert Digit(DigitValue(c)) == c;
  }

  /** One printed field followed by a dot. */
  lemma ScanField(n: byte, rest: string)
    ensures ScanInt(Decimal(n) + ("." + rest)) == Some((n as int, "." + rest))
    ensures Dot("." + rest) == Some(rest)
  {
    ScanPrinted(n, "." + rest);
    assert ("." + rest)[1..] == rest;
  }

  lemma ScanQuadFields(s0: string, s1: string, s2: string, s3: string, a: int, b: int, c: int, d: int, rest: string)
    requires ScanInt(s0) == Some((a, "." + s1)) && Dot("." + s1) == Some(s1)
    requires ScanInt(s1) == Some((b, "." + s2)) && Dot("." + s2) == Some(s2)
    requires ScanInt(s2) == Some((c, "." + s3)) && Dot("." + s3) == Some(s3)
    requires ScanInt(s3) == Some((d, rest))
    ensures ScanQuad(s0) == Some([a, b, c, d])
  {
  }

  lemma ScanLast(n: byte)
    ensures ScanInt(Decimal(n)) == Some((n as int, ""))
  {
    ScanPrinted(n, "");
    assert Decimal(n) + "" == Decimal(n);
  }

  lemma ScanQuadPrinted(a: byte, b: byte, c: byte, d: byte)
    ensures ScanQuad(Quad(Decimal(a), Decimal(b), Decimal(c), Decimal(d)))
         == Some([a as int, b as int, c as int, d as int])
  {
    ScanField(a, Decimal(b) + ("." + (Decimal(c) + ("." + Decimal(d)))));
    ScanField(b, Decimal(c) + ("." + Decimal(d)));
    ScanField(c, Decimal(d));
    ScanLast(d);
    ScanQuadStrings(Decimal(a), Decimal(b), Decimal(c), Decimal(d), a, b, c, d);
  }

  lemma ScanQuadStrings(sa: string, sb: string, sc: string, sd: string, a: byte, b: byte, c: byte, d: byte)
    requires ScanInt(sa + ("." + (sb + ("." + (sc + ("." + sd))))))
          == Some((a as int, "." + (sb + ("." + (sc + ("." + sd))))))
    requires ScanInt(sb + ("." + (sc + ("." + sd)))) == Some((b as int, "." + (sc + ("." + sd))))
    requires ScanInt(sc + ("." + sd)) == Some((c as int, "." + sd))
    requires ScanInt(sd) == Some((d as int, ""))
    ensures ScanQuad(Quad(sa, sb, sc, sd)) == Some([a as int, b as int, c as int, d as int])
  {
    var s2 := sc + ("." + sd);
    var s1 := sb + ("." + s2);
    QuadNested(sa, sb, sc, sd);
    assert ("." + s1)[1..] == s1 && ("." + s2)[1..] == s2 && ("." + sd)[1..] == sd;
    ScanQuadFields(sa + ("." + s1), s1, s2, sd, a, b, c, d, "");
  }

  lemma QuadNested(a: string, b: string, c: string, d: string)
    ensures Quad(a, b, c, d) == a + ("." + (b + ("." + (c + ("." + d)))))
  {
  }

  lemma AtonOfFields(s: string, a: byte, b: byte, c: byte, d: byte)
    requires ScanQuad(s) == Some([a as int, b as int, c as int, d as int])
    ensures Aton(s) == Some(Join32([a, b, c, d]))
  {
    ShiftedOctets([a, b, c, d], [a, b, c, d]);
    SpelledFour([a, b, c, d]);
  }

  /** Parsing four printed octets shifts exactly those octets together. */
  lemma AtonOfQuad(a: byte, b: byte, c: byte, d: byte)
    ensures Aton(Quad(Decimal(a), Decimal(b), Decimal(c), Decimal(d))) == Some(Join32([a, b, c, d]))
  {
    ScanQuadPrinted(a, b, c, d);
    AtonOfFields(Quad(Decimal(a), Decimal(b), Decimal(c), Decimal(d)), a, b, c, d);
  }

  lemma JoinValue(a: byte, b: byte, c: byte, d: byte)
    ensures Join32([a, b, c, d]) == a * 0x100_0000 + b * 0x1_0000 + c * 0x100 + d
  {
  }

  /** The first number is the most significant byte, the last the least, for parsing and for printing. */
  lemma {:induction false} QuadValue(a: byte, b: byte, c: byte, d: byte, v: u32)
    requires v == a * 0x100_0000 + b * 0x1_0000 + c * 0x100 + d
    ensures Aton(Quad(Decimal(a), Decimal(b), Decimal(c), Decimal(d))) == Some(v)
    ensures Ntoa(v) == Quad(Decimal(a), Decimal(b), Decimal(c), Decimal(d))
  {
    JoinValue(a, b, c, d);
    AtonOfQuad(a, b, c, d);
    PrintsValue([a, b, c, d], v);
  }

  lemma {:induction false} PrintsValue(o: seq<byte>, v: u32)
    requires |o| == 4 && Join32(o) == v
    ensures Ntoa(v) == Quad(Decimal(o[0]), Decimal(o[1]), Decimal(o[2]), Decimal(o[3]))
  {
    JoinInjective(o);
  }

  /** A text with one number sets one variable only, and a text without sets none. */
  lemma {:induction false} FewerNumbers(n: byte, s: string, unset: Unset)
    ensures Filled(Decimal(n), unset) == [n as int] + unset[1..]
    ensures ScanInt(s).None? ==> Filled(s, unset) == unset
  {
    ScanLast(n);
  }

  /** Every 32-bit address survives being printed and parsed again. */
  lemma AtonNtoa(addr: u32)
    ensures Aton(Ntoa(addr)) == Some(addr)
  {
    var o := BigEndian32(addr);
    assert o == [o[0], o[1], o[2], o[3]];
    AtonOfQuad(o[0], o[1], o[2], o[3]);
    JoinOctets(addr);
  }

  /** What is printed is canonical and fits the 16-byte buffer with its terminator. */
  lemma NtoaCanonical(addr: u32)
    ensures IPv4Address(Ntoa(addr))
    ensures 7 <= |Ntoa(addr)| <= 15
  {
    var o := BigEndian32(addr);
    DecimalIsOctet(o[0]);
    DecimalIsOctet(o[1]);
    DecimalIsOctet(o[2]);
    DecimalIsOctet(o[3]);
  }

  /** Printing a parsed text gives the same text exactly when it was canonical. */
  lemma NtoaAton(s: string)
    requires Aton(s).Some?
    ensures Ntoa(Aton(s).value) == s <==> IPv4Address(s)
  {
    NtoaCanonical(Aton(s).value);
    if IPv4Address(s) {
      CanonicalParses(s);
    }
  }

  /** A canonical quad always parses, and prints back to itself. */
  lemma CanonicalParses(s: string)
    requires IPv4Address(s)
    ensures Aton(s).Some? && Ntoa(Aton(s).value) == s
  {
    var a, b, c, d :| DecOctet(a) && DecOctet(b) && DecOctet(c) && DecOctet(d) && s == Quad(a, b, c, d);
    QuadParses(a, b, c, d);
  }

  lemma {:induction false} OctetsPrintBack(o: seq<byte>)
    requires |o| == 4
    ensures var s := Quad(Decimal(o[0]), Decimal(o[1]), Decimal(o[2]), Decimal(o[3]));
      Aton(s).Some? && Ntoa(Aton(s).value) == s
  {
    AtonOfQuad(o[0], o[1], o[2], o[3]);
    assert o == [o[0], o[1], o[2], o[3]];
    PrintsValue(o, Join32(o));
  }

  lemma {:induction false} QuadParses(a: string, b: string, c: string, d: string)
    requires DecOctet(a) && DecOctet(b) && DecOctet(c) && DecOctet(d)
    ensures Aton(Quad(a, b, c, d)).Some? && Ntoa(Aton(Quad(a, b, c, d)).value) == Quad(a, b, c, d)
  {
    OctetIsDecimal(a);
    OctetIsDecimal(b);
    OctetIsDecimal(c);
    OctetIsDecimal(d);
    OctetsPrintBack([Number(a), Number(b), Number(c), Number(d)]);
  }
}
