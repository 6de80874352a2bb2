/** Bit operations on octets, from the lowest bit up. */
module Bits {
  function Pow2(n: nat): (p: nat)
    ensures p > 0
  {
    if n == 0 then 1 else 2 * Pow2(n - 1)
  }

  /** x >> j */
  function Shr(x: nat, j: nat): nat {
    if j == 0 then x else Shr(x / 2, j - 1)
  }

  /** The bitwise and of the low `n` bits. */
  function And(x: nat, m: nat, n: nat): (r: nat)
    ensures r < Pow2(n)
  {
    if n == 0 then 0 else 2 * And(x / 2, m / 2, n - 1) + (if x % 2 == 1 && m % 2 == 1 then 1 else 0)
  }

  /** `k` ones followed by `n - k` zeros. */
  function HighOnes(k: nat, n: nat): nat
    requires k <= n
  {
    if n == 0 then 0 else if k == n then 2 * HighOnes(k - 1, n - 1) + 1 else 2 * HighOnes(k, n - 1)
  }

  lemma {:induction false} AndAllOnes(x: nat, n: nat)
    requires x < Pow2(n)
    ensures And(x, HighOnes(n, n), n) == x
  {
    if n > 0 {
      AndAllOnes(x / 2, n - 1);
      assert HighOnes(n, n) / 2 == HighOnes(n - 1, n - 1);
    }
  }

  lemma {:induction false} AndTwice(x: nat, m: nat, n: nat)
    ensures And(And(x, m, n), m, n) == And(x, m, n)
  {
    if n > 0 {
      AndTwice(x / 2, m / 2, n - 1);
      var b := if x % 2 == 1 && m % 2 == 1 then 1 else 0;
      assert And(x, m, n) / 2 == And(x / 2, m / 2, n - 1) && And(x, m, n) % 2 == b;
    }
  }

  /** Equal under a mask of `k` high ones is equal in the `k` high bits. */
  lemma {:induction false} AndIsShr(x: nat, y: nat, k: nat, n: nat)
    requires k <= n && x < Pow2(n) && y < Pow2(n)
    ensures And(x, HighOnes(k, n), n) == And(y, HighOnes(k, n), n) <==> Shr(x, n - k) == Shr(y, n - k)
  {
    if k == n {
      AndAllOnes(x, n);
      AndAllOnes(y, n);
    } else {
      AndIsShr(x / 2, y / 2, k, n - 1);
      assert HighOnes(k, n) / 2 == HighOnes(k, n - 1) && HighOnes(k, n) % 2 == 0;
    }
  }
}

/** IPv4 addresses and prefixes: the part of `net/netip` the service relies on,
    and `ipv4Prefix` (internal/utils/route/route.go). */
module Addr {
  import opened Basics
  import opened Text
  import opened Bits

  datatype Addr = Addr(a: Octet, b: Octet, c: Octet, d: Octet)

  // ----- text form

  function Digit(n: int): char
    requires 0 <= n < 10
  {
    '0' + n as char
  }

  function PrintDecimal(n: Octet): string {
    if n < 10 then [Digit(n)]
    else if n < 100 then [Digit(n / 10), Digit(n % 10)]
    else [Digit(n / 100), Digit(n / 10 % 10), Digit(n % 10)]
  }

  function PrintAddr(x: Addr): string {
    Join([PrintDecimal(x.a), PrintDecimal(x.b), PrintDecimal(x.c), PrintDecimal(x.d)], '.')
  }

  function DecimalValue(s: string): int {
    if s == "" then 0 else 10 * DecimalValue(s[..|s| - 1]) + (s[|s| - 1] as int - '0' as int)
  }

  predicate IsDigit(c: char) {
    '0' <= c <= '9'
  }

  /** One field of a dotted quad: no empty field, no leading zero, at most 255. */
  function ParseDecimal(s: string): Option<Octet> {
    if 0 < |s| <= 3 && (forall c | c in s :: IsDigit(c)) && (|s| == 1 || s[0] != '0') && 0 <= DecimalValue(s) < 256
    then Some(DecimalValue(s))
    else None
  }

  /** `netip.ParseAddr` restricted to IPv4 results. */
  function ParseAddr(s: string): Option<Addr> {
    var f := Split(s, '.');
    if |f| == 4 && ParseDecimal(f[0]).Some? && ParseDecimal(f[1]).Some? && ParseDecimal(f[2]).Some?
       && ParseDecimal(f[3]).Some?
    then Some(Addr(ParseDecimal(f[0]).value, ParseDecimal(f[1]).value, ParseDecimal(f[2]).value,
                   ParseDecimal(f[3]).value))
    else None
  }

  lemma DecimalRoundTrip(n: Octet)
    ensures var p := PrintDecimal(n);
            ParseDecimal(p) == Some(n) && '.' !in p && p != "" && forall c | c in p :: IsDigit(c)
  {
    var p := PrintDecimal(n);
    DecimalOfDigits(p);
  }

  lemma DecimalOfDigits(s: string)
    requires 0 < |s| <= 3
    ensures DecimalValue(s) == if |s| == 1 then s[0] as int - 48
                               else if |s| == 2 then 10 * (s[0] as int - 48) + (s[1] as int - 48)
                               else 100 * (s[0] as int - 48) + 10 * (s[1] as int - 48) + (s[2] as int - 48)
  {
    assert DecimalValue(s[..0]) == 0;
    assert s[..1][..0] == s[..0];
    assert DecimalValue(s[..1]) == s[0] as int - 48;
    if |s| >= 2 {
      assert s[..2][..1] == s[..1];
      assert DecimalValue(s[..2]) == 10 * (s[0] as int - 48) + (s[1] as int - 48);
    }
    assert s[..|s|] == s;
  }

  lemma DecimalUnique(s: string)
    requires ParseDecimal(s).Some?
    ensures s == PrintDecimal(ParseDecimal(s).value)
  {
    DecimalOfDigits(s);
    forall i | 0 <= i < |s| ensures IsDigit(s[i]) && Digit(s[i] as int - 48) == s[i] {
      assert s[i] in s;
      DigitInverse(s[i]);
    }
    var n := DecimalValue(s);
    if |s| == 1 {
      assert PrintDecimal(n) == [s[0]];
    } else if |s| == 2 {
      assert n / 10 == s[0] as int - 48 && n % 10 == s[1] as int - 48;
      assert PrintDecimal(n) == [s[0], s[1]];
    } else {
      assert n / 10 == 10 * (s[0] as int - 48) + (s[1] as int - 48);
      assert n / 100 == s[0] as int - 48 && n / 10 % 10 == s[1] as int - 48 && n % 10 == s[2] as int - 48;
      assert PrintDecimal(n) == [s[0], s[1], s[2]];
    }
  }

  lemma DigitInverse(c: char)
    requires IsDigit(c)
    ensures Digit(c as int - 48) == c
  {
  }

  /** A text is an IPv4 address exactly when it is that address printed. */
  lemma AddrTextUnique(s: string, x: Addr)
    ensures ParseAddr(s) == Some(x) <==> s == PrintAddr(x)
  {
    DecimalRoundTrip(x.a);
    DecimalRoundTrip(x.b);
    DecimalRoundTrip(x.c);
    DecimalRoundTrip(x.d);
    var parts := [PrintDecimal(x.a), PrintDecimal(x.b), PrintDecimal(x.c), PrintDecimal(x.d)];
    SplitOfJoin(parts, '.');
    if ParseAddr(s) == Some(x) {
      var f := Split(s, '.');
      DecimalUnique(f[0]);
      DecimalUnique(f[1]);
      DecimalUnique(f[2]);
      DecimalUnique(f[3]);
      assert f == parts;
      JoinOfSplit(s, '.');
    }
  }

  // ----- prefixes

  /** `netip.Prefix`; NoPrefix is the zero value, which contains nothing. */
  datatype Prefix = NoPrefix | Prefix(base: Addr, ones: nat)

  /** How many bits of octet `i` belong to the network. */
  function NetBits(ones: nat, i: nat): (k: nat)
    ensures k <= 8
  {
    if ones >= 8 * (i + 1) then 8 else if ones <= 8 * i then 0 else ones - 8 * i
  }

  predicate SameNetwork(x: Octet, y: Octet, k: nat)
    requires k <= 8
  {
    Shr(x, 8 - k) == Shr(y, 8 - k)
  }

  /** `Prefix.Contains`: shifting the host bits away leaves equal addresses. */
  predicate Contains(p: Prefix, x: Addr) {
    p.Prefix? && p.ones <= 32
    && SameNetwork(p.base.a, x.a, NetBits(p.ones, 0)) && SameNetwork(p.base.b, x.b, NetBits(p.ones, 1))
    && SameNetwork(p.base.c, x.c, NetBits(p.ones, 2)) && SameNetwork(p.base.d, x.d, NetBits(p.ones, 3))
  }

  function AndOctet(x: Octet, m: Octet): Octet {
    assert Pow2(8) == 256;
    And(x, m, 8)
  }

  /** An address under four mask bytes. */
  function AndMask(x: Addr, m: Addr): Addr {
    Addr(AndOctet(x.a, m.a), AndOctet(x.b, m.b), AndOctet(x.c, m.c), AndOctet(x.d, m.d))
  }

  function OctetMask(k: nat): Octet
    requires k <= 8
  {
    assert HighOnes(0, 8) == 0 && HighOnes(1, 8) == 0x80 && HighOnes(2, 8) == 0xC0 && HighOnes(3, 8) == 0xE0;
    assert HighOnes(4, 8) == 0xF0 && HighOnes(5, 8) == 0xF8 && HighOnes(6, 8) == 0xFC && HighOnes(7, 8) == 0xFE;
    assert HighOnes(8, 8) == 0xFF;
    HighOnes(k, 8)
  }

  function NetMask(ones: nat): Addr {
    Addr(OctetMask(NetBits(ones, 0)), OctetMask(NetBits(ones, 1)), OctetMask(NetBits(ones, 2)),
        OctetMask(NetBits(ones, 3)))
  }

  /** An interface address: the address and the prefix length, not masked. */
  datatype IfAddr = IfAddr(addr: Addr, ones: nat)

  function Masked(i: IfAddr): Prefix {
    Prefix(AndMask(i.addr, NetMask(i.ones)), i.ones)
  }

  /** `net.IPNet`: address and mask bytes as the system reports them. */
  datatype IPNet = IPNet(ip: seq<Octet>, mask: seq<Octet>)

  predicate AllBytes(s: seq<Octet>, v: Octet) {
    forall b | b in s :: b == v
  }

  function To4(ip: seq<Octet>): Option<Addr> {
    if |ip| == 4 then Some(Addr(ip[0], ip[1], ip[2], ip[3]))
    else if |ip| == 16 && AllBytes(ip[..10], 0) && AllBytes(ip[10..12], 0xFF)
    then Some(Addr(ip[12], ip[13], ip[14], ip[15]))
    else None
  }

  function LeadingOnes(v: Octet): Option<nat> {
    if v == 0 then Some(0) else if v == 0x80 then Some(1) else if v == 0xC0 then Some(2)
    else if v == 0xE0 then Some(3) else if v == 0xF0 then Some(4) else if v == 0xF8 then Some(5)
    else if v == 0xFC then Some(6) else if v == 0xFE then Some(7) else if v == 0xFF then Some(8)
    else None
  }

  /** The prefix length of a contiguous mask, None for any other mask. */
  function MaskOnes(m: seq<Octet>): (r: Option<nat>)
    ensures r.Some? ==> r.value <= 8 * |m|
  {
    if m == [] then Some(0)
    else if m[0] == 0xFF then
      (match MaskOnes(m[1..]) case None => None case Some(n) => Some(8 + n))
    else if AllBytes(m[1..], 0) then LeadingOnes(m[0])
    else None
  }

  /** `IPMask.Size`: 0, 0 for a mask that is not contiguous. */
  function MaskSize(m: seq<Octet>): (int, int) {
    match MaskOnes(m)
    case None => (0, 0)
    case Some(n) => (n, 8 * |m|)
  }

  function Ipv4Prefix(n: IPNet): (r: Option<IfAddr>)
    ensures r.Some? ==> r.value.ones <= 32
  {
    if To4(n.ip).None? then None
    else
      var (size, bits) := MaskSize(n.mask);
      var ones := if bits == 128 then size - 96 else size;
      if ones < 0 || ones > 32 then None else Some(IfAddr(To4(n.ip).value, ones))
  }

  lemma OctetMembership(x: Octet, y: Octet, k: nat)
    requires k <= 8
    ensures SameNetwork(AndOctet(x, OctetMask(k)), y, k) <==> AndOctet(y, OctetMask(k)) == AndOctet(x, OctetMask(k))
  {
    assert Pow2(8) == 256;
    AndIsShr(AndOctet(x, OctetMask(k)), y, k, 8);
    AndTwice(x, OctetMask(k), 8);
  }

  lemma ContainsIsMaskAnd(i: IfAddr, y: Addr)
    requires i.ones <= 32
    ensures Contains(Masked(i), y) <==> AndMask(y, NetMask(i.ones)) == AndMask(i.addr, NetMask(i.ones))
  {
    OctetMembership(i.addr.a, y.a, NetBits(i.ones, 0));
    OctetMembership(i.addr.b, y.b, NetBits(i.ones, 1));
    OctetMembership(i.addr.c, y.c, NetBits(i.ones, 2));
    OctetMembership(i.addr.d, y.d, NetBits(i.ones, 3));
  }

  /** Two interface addresses give the same subnet exactly if one lies in the other's, with
      the same length: host bits do not show. */
  lemma MaskedIff(i: IfAddr, j: IfAddr)
    requires i.ones <= 32 && j.ones <= 32
    ensures Masked(i) == Masked(j) <==> i.ones == j.ones && Contains(Masked(i), j.addr)
  {
    ContainsIsMaskAnd(i, j.addr);
  }

  /** The octets of an address in the order they are written. */
  lemma AddrFields(x: Addr)
    ensures Split(PrintAddr(x), '.') == [PrintDecimal(x.a), PrintDecimal(x.b), PrintDecimal(x.c), PrintDecimal(x.d)]
  {
    DecimalRoundTrip(x.a);
    DecimalRoundTrip(x.b);
    DecimalRoundTrip(x.c);
    DecimalRoundTrip(x.d);
    SplitOfJoin([PrintDecimal(x.a), PrintDecimal(x.b), PrintDecimal(x.c), PrintDecimal(x.d)], '.');
  }

  /** The address of a prefix is the interface's own: its 4 bytes, or the last 4 of an
      IPv4-mapped one. */
  lemma PrefixAddress(n: IPNet)
    requires Ipv4Prefix(n).Some?
    ensures var x, k := Ipv4Prefix(n).value.addr, |n.ip| - 4;
            k >= 0 && n.ip[k..] == [x.a, x.b, x.c, x.d]
            && (|n.ip| == 4
                || (|n.ip| == 16 && (forall i | 0 <= i < 10 :: n.ip[i] == 0) && n.ip[10] == 0xFF && n.ip[11] == 0xFF))
  {
    if |n.ip| == 16 {
      forall i | 0 <= i < 10 ensures n.ip[i] == 0 {
        assert n.ip[..10][i] in n.ip[..10];
      }
      assert n.ip[10..12][0] in n.ip[10..12] && n.ip[10..12][1] in n.ip[10..12];
    }
  }

  /** Our own address lies in the subnet derived from it. */
  lemma OwnAddressInSubnet(i: IfAddr)
    requires i.ones <= 32
    ensures Contains(Masked(i), i.addr)
  {
    ContainsIsMaskAnd(i, i.addr);
  }

  /** The four mask bytes that apply to an IPv4 address. */
  function MaskAddr(m: seq<Octet>): Addr
    requires |m| == 4 || |m| == 16
  {
    var t := m[|m| - 4..];
    Addr(t[0], t[1], t[2], t[3])
  }

  lemma {:induction false} MaskOnesFullHead(m: seq<Octet>, k: nat)
    requires k <= |m| && AllBytes(m[..k], 0xFF)
    ensures MaskOnes(m) == match MaskOnes(m[k..]) case None => None case Some(n) => Some(8 * k + n)
  {
    if k == 0 {
      assert m[0..] == m;
    } else {
      assert m[0] in m[..k];
      assert m[1..][..k - 1] == m[..k][1..] && m[1..][k - 1..] == m[k..];
      assert forall b | b in m[..k][1..] :: b in m[..k];
      MaskOnesFullHead(m[1..], k - 1);
    }
  }

  lemma {:induction false} MaskOnesHead(m: seq<Octet>, k: nat)
    requires k <= |m| && MaskOnes(m).Some? && MaskOnes(m).value >= 8 * k
    ensures AllBytes(m[..k], 0xFF)
  {
    if k > 0 {
      assert LeadingOnes(m[0]).Some? && LeadingOnes(m[0]).value >= 8 ==> m[0] == 0xFF;
      MaskOnesHead(m[1..], k - 1);
      assert m[..k] == [m[0]] + m[1..][..k - 1];
    }
  }

  lemma ShortMask(m: seq<Octet>, ones: nat)
    requires |m| == 4 && MaskOnes(m) == Some(ones)
    ensures ones <= 32 && MaskAddr(m) == NetMask(ones)
  {
    var k := if m[0] != 0xFF then 0 else if m[1] != 0xFF then 1 else if m[2] != 0xFF then 2 else 3;
    MaskOnesFullHead(m, k);
    var t := m[k..];
    assert MaskOnes(t[1..]) == if k == 3 then Some(0) else MaskOnes(t[1..]);
    assert MaskOnes(t) == LeadingOnes(m[k]);
    assert forall j | k < j < 4 :: m[j] in t[1..];
    LeadingOnesMask(m[k]);
    LeadingOnesMask(0);
    LeadingOnesMask(0xFF);
  }

  lemma LeadingOnesMask(v: Octet)
    requires LeadingOnes(v).Some?
    ensures LeadingOnes(v).value <= 8 && v == OctetMask(LeadingOnes(v).value)
  {
    assert HighOnes(0, 8) == 0 && HighOnes(1, 8) == 0x80 && HighOnes(2, 8) == 0xC0 && HighOnes(3, 8) == 0xE0;
    assert HighOnes(4, 8) == 0xF0 && HighOnes(5, 8) == 0xF8 && HighOnes(6, 8) == 0xFC && HighOnes(7, 8) == 0xFE;
    assert HighOnes(8, 8) == 0xFF;
  }

  /** For a contiguous mask of either length, membership in the masked prefix is
      equality under the mask; a 16-byte mask shorter than 96 bits is refused. */
  lemma PrefixMembershipIsMaskAnd(n: IPNet, y: Addr)
    requires |n.mask| == 4 || |n.mask| == 16
    requires MaskOnes(n.mask).Some?
    ensures Ipv4Prefix(n).Some? <==> To4(n.ip).Some? && (|n.mask| == 4 || AllBytes(n.mask[..12], 0xFF))
    ensures Ipv4Prefix(n).Some? ==>
              (Contains(Masked(Ipv4Prefix(n).value), y) <==>
               AndMask(y, MaskAddr(n.mask)) == AndMask(To4(n.ip).value, MaskAddr(n.mask)))
  {
    var ones := MaskOnes(n.mask).value;
    if |n.mask| == 4 {
      ShortMask(n.mask, ones);
    } else if AllBytes(n.mask[..12], 0xFF) {
      MaskOnesFullHead(n.mask, 12);
      ShortMask(n.mask[12..], ones - 96);
      assert MaskAddr(n.mask) == MaskAddr(n.mask[12..]);
    } else if ones >= 96 {
      MaskOnesHead(n.mask, 12);
      assert false;
    }
    if Ipv4Prefix(n).Some? {
      ContainsIsMaskAnd(Ipv4Prefix(n).value, y);
    }
  }

  /** A mask that is not contiguous is read as /0: the subnet is every address. */
  lemma NonContiguousMaskCoversAll(n: IPNet, y: Addr)
    requires To4(n.ip).Some? && MaskOnes(n.mask).None?
    ensures Ipv4Prefix(n) == Some(IfAddr(To4(n.ip).value, 0))
    ensures Contains(Masked(Ipv4Prefix(n).value), y)
  {
    var x := To4(n.ip).value;
    ShrByte(AndMask(x, NetMask(0)).a, y.a);
    ShrByte(AndMask(x, NetMask(0)).b, y.b);
    ShrByte(AndMask(x, NetMask(0)).c, y.c);
    ShrByte(AndMask(x, NetMask(0)).d, y.d);
  }

  lemma {:induction false} OnesAnd(m: nat, n: nat)
    requires m < Pow2(n)
    ensures And(HighOnes(n, n), m, n) == m
  {
    if n > 0 {
      OnesAnd(m / 2, n - 1);
      assert HighOnes(n, n) / 2 == HighOnes(n - 1, n - 1) && HighOnes(n, n) % 2 == 1;
    }
  }

  lemma {:induction false} ZeroAnd(m: nat, n: nat)
    ensures And(0, m, n) == 0
  {
    if n > 0 {
      ZeroAnd(m / 2, n - 1);
    }
  }

  /** A mask octet that is not zero tells some octet from `x`. */
  lemma MaskOctetSeparates(x: Octet, m: Octet) returns (y: Octet)
    requires m != 0
    ensures AndOctet(y, m) != AndOctet(x, m)
  {
    assert Pow2(8) == 256 && HighOnes(8, 8) == 0xFF;
    OnesAnd(m, 8);
    ZeroAnd(m, 8);
    y := if AndOctet(x, m) == 0 then 0xFF else 0;
  }

  /** A mask that is not zero tells some address from `x`. */
  lemma MaskSeparates(x: Addr, m: Addr) returns (y: Addr)
    requires m != Addr(0, 0, 0, 0)
    ensures AndMask(y, m) != AndMask(x, m)
  {
    if m.a != 0 {
      var o := MaskOctetSeparates(x.a, m.a);
      y := x.(a := o);
    } else if m.b != 0 {
      var o := MaskOctetSeparates(x.b, m.b);
      y := x.(b := o);
    } else if m.c != 0 {
      var o := MaskOctetSeparates(x.c, m.c);
      y := x.(c := o);
    } else {
      var o := MaskOctetSeparates(x.d, m.d);
      y := x.(d := o);
    }
  }

  lemma ZeroMaskAll(x: Addr, y: Addr)
    ensures AndMask(x, Addr(0, 0, 0, 0)) == AndMask(y, Addr(0, 0, 0, 0))
  {
    AndNothing(x.a, 8);
    AndNothing(x.b, 8);
    AndNothing(x.c, 8);
    AndNothing(x.d, 8);
    AndNothing(y.a, 8);
    AndNothing(y.b, 8);
    AndNothing(y.c, 8);
    AndNothing(y.d, 8);
  }

  /** Membership is equality under the mask for every address exactly if the mask is
      contiguous or its four bytes that apply to an IPv4 address are zero. */
  lemma MembershipIsMaskAndIff(n: IPNet)
    requires (|n.mask| == 4 || |n.mask| == 16) && Ipv4Prefix(n).Some?
    ensures var x, m := To4(n.ip).value, MaskAddr(n.mask);
            (forall y :: Contains(Masked(Ipv4Prefix(n).value), y) <==> AndMask(y, m) == AndMask(x, m))
            <==> MaskOnes(n.mask).Some? || m == Addr(0, 0, 0, 0)
  {
    var x, m := To4(n.ip).value, MaskAddr(n.mask);
    if MaskOnes(n.mask).Some? {
      forall y ensures Contains(Masked(Ipv4Prefix(n).value), y) <==> AndMask(y, m) == AndMask(x, m) {
        PrefixMembershipIsMaskAnd(n, y);
      }
    } else if m == Addr(0, 0, 0, 0) {
      forall y ensures Contains(Masked(Ipv4Prefix(n).value), y) && AndMask(y, m) == AndMask(x, m) {
        NonContiguousMaskCoversAll(n, y);
        ZeroMaskAll(x, y);
      }
    } else {
      var y := MaskSeparates(x, m);
      NonContiguousMaskCoversAll(n, y);
    }
  }

  lemma ShrByte(x: Octet, y: Octet)
    ensures Shr(x, 8) == Shr(y, 8)
  {
    assert Pow2(8) == 256 && HighOnes(0, 8) == 0;
    AndNothing(x, 8);
    AndNothing(y, 8);
    AndIsShr(x, y, 0, 8);
  }

  lemma {:induction false} AndNothing(x: nat, n: nat)
    ensures And(x, 0, n) == 0
  {
    if n > 0 {
      AndNothing(x / 2, n - 1);
    }
  }
}
