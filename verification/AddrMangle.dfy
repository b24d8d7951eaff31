/** Mangled socket addresses: an IPv4 address, its port and a timestamp packed into
    one number whose leading zero bytes are not sent. */
module AddrMangle {
  import opened Wrappers
  import opened Bits
  import opened Bytes

  type Ip4 = s: seq<byte> | |s| == 4 witness [0, 0, 0, 0]
  type Ip6 = s: seq<byte> | |s| == 16 witness [0, 0, 0, 0, 0, 0, 0, 0, 0, 0, 0, 0, 0, 0, 0, 0]
  type u16 = n: nat | n < 0x1_0000
  type u32 = n: nat | n < 0x1_0000_0000

  const U128_SIZE := 0x1_0000_0000_0000_0000_0000_0000_0000_0000

  datatype SocketAddr =
    | V4(ip4: Ip4, port: u16)
    | V6(ip6: Ip6, port: u16, flowinfo: u32, scopeId: u32)

  const LOOPBACK6: Ip6 := [0, 0, 0, 0, 0, 0, 0, 0, 0, 0, 0, 0, 0, 0, 0, 1]
  const UNSPECIFIED6: Ip6 := [0, 0, 0, 0, 0, 0, 0, 0, 0, 0, 0, 0, 0, 0, 0, 0]

  /** The IPv4-compatible and IPv4-mapped forms of section 2.5.5 of RFC 4291. */
  function ToIpv4(ip: Ip6): Option<Ip4> {
    if ip[..12] == UNSPECIFIED6[..12] || ip[..12] == UNSPECIFIED6[..10] + [0xFF, 0xFF]
    then Some(ip[12..])
    else None
  }

  function TryIntoV4(addr: SocketAddr): SocketAddr {
    match addr
    case V6(ip, port, _, _) =>
      if ip == LOOPBACK6 then addr
      else
        (match ToIpv4(ip)
         case Some(v4) => V4(v4, port)
         case None => addr)
    case V4(_, _) => addr
  }

  const MAPPED: seq<byte> := [0, 0, 0, 0, 0, 0, 0, 0, 0, 0, 0xFF, 0xFF]
  const COMPATIBLE: seq<byte> := [0, 0, 0, 0, 0, 0, 0, 0, 0, 0, 0, 0]

  /** Which addresses have an IPv4 form, and which one: all mapped ones, all compatible
      ones but the loopback address, and no others. */
  lemma Ipv4Forms(ip4: Ip4, ip6: Ip6, port: u16, flowinfo: u32, scopeId: u32)
    ensures TryIntoV4(V4(ip4, port)) == V4(ip4, port)
    ensures TryIntoV4(V6(MAPPED + ip4, port, flowinfo, scopeId)) == V4(ip4, port)
    ensures var addr := V6(COMPATIBLE + ip4, port, flowinfo, scopeId);
            TryIntoV4(addr) == if ip4 == [0, 0, 0, 1] then addr else V4(ip4, port)
    ensures var addr := V6(ip6, port, flowinfo, scopeId);
            ip6[..12] != MAPPED && ip6[..12] != COMPATIBLE ==> TryIntoV4(addr) == addr
  {
    var mapped: Ip6, compatible: Ip6 := MAPPED + ip4, COMPATIBLE + ip4;
    assert UNSPECIFIED6[..10] + [0xFF, 0xFF] == MAPPED && UNSPECIFIED6[..12] == COMPATIBLE;
    assert mapped[..12] == MAPPED && mapped[12..] == ip4 && mapped[10] == 0xFF;
    assert compatible[..12] == COMPATIBLE && compatible[12..] == ip4;
    assert LOOPBACK6 == COMPATIBLE + [0, 0, 0, 1];
    assert LOOPBACK6[..12] == COMPATIBLE;
  }

  /** Subtraction on 128-bit registers, as release builds do it. */
  function WrappingSub(a: nat, b: nat): nat {
    (a - b) % U128_SIZE
  }

  function Decode(bytes: seq<byte>): SocketAddr {
    if |bytes| > 16 then
      if |bytes| != 18 then V6(UNSPECIFIED6, 0, 0, 0)
      else
        FromLeBound2(bytes[16..]);
        V6(bytes[..16], FromLe(bytes[16..]), 0, 0)
    else
      var number := FromLe(bytes + seq(16 - |bytes|, _ => 0));
      var tm := And(Shr(number, 17), 0xFFFF_FFFF);
      var ip := ToLe(WrappingSub(Shr(number, 49), tm) % 0x1_0000_0000, 4);
      var port := WrappingSub(And(number, 0xFF_FFFF), And(tm, 0xFFFF));
      V4(ip, port % 0x1_0000)
  }

  lemma FromLeBound2(s: seq<byte>)
    requires |s| == 2
    ensures FromLe(s) < 0x1_0000
  {
    FromLeBound(s);
    assert Pow256(2) == 0x1_0000;
  }

  // ----------------------------------------------------------------------
  // The packed number
  // ----------------------------------------------------------------------

  /** Three fields side by side: 33 bits, 32 bits and 17 bits. */
  function Packed(ip: u32, port: u16, tm: u32): nat {
    0x2_0000_0000_0000 * (ip + tm) + 0x2_0000 * tm + (port + tm % 0x1_0000)
  }

  lemma PackedBound(ip: u32, port: u16, tm: u32)
    ensures Packed(ip, port, tm) < 0x4_0000_0000_0000_0000_0000
  {}

  lemma MorePow2Values()
    ensures Pow2(16) == 0x1_0000 && Pow2(17) == 0x2_0000 && Pow2(24) == 0x100_0000
    ensures Pow2(32) == 0x1_0000_0000 && Pow2(49) == 0x2_0000_0000_0000
  {
    Pow2Values();
    Pow2Add(32, 17);
  }

  /** The shifts and the two `|` of the encoder put the fields side by side: none
      overlaps another, whatever the timestamp. */
  lemma PackingDisjoint(ip: u32, port: u16, tm: u32)
    ensures Or(Or(Shl(ip + tm, 49), Shl(tm, 17)), port + And(tm, 0xFFFF)) == Packed(ip, port, tm)
  {
    hide Pow2, And, Or, Shl;
    var upper := 0x1_0000_0000 * (ip + tm) + tm;
    MorePow2Values();
    AndMask(tm, 16);
    ShlMul(ip + tm, 49);
    ShlMul(tm, 17);
    ShlMul(upper, 17);
    OrDisjoint(Shl(tm, 17), ip + tm, 49);
    assert Or(Shl(ip + tm, 49), Shl(tm, 17)) == Shl(upper, 17);
    OrDisjoint(port + tm % 0x1_0000, upper, 17);
  }

  /** What the decoder's shifts and masks find in a packed number. The port's mask is
      seven bits too wide; the cut to 16 bits makes up for it. Nothing underflows. */
  lemma Unpacking(ip: u32, port: u16, tm: u32)
    ensures var n := Packed(ip, port, tm);
            && And(Shr(n, 17), 0xFFFF_FFFF) == tm
            && Shr(n, 49) == ip + tm
            && And(tm, 0xFFFF) <= And(n, 0xFF_FFFF) < 0x100_0000
            && (And(n, 0xFF_FFFF) - And(tm, 0xFFFF)) % 0x1_0000 == port
  {
    hide Pow2, And, Or, Shl, Shr;
    var n := Packed(ip, port, tm);
    var low, upper := port + tm % 0x1_0000, 0x1_0000_0000 * (ip + tm) + tm;
    MorePow2Values();
    ShlMul(upper, 17);
    ShrShl(low, upper, 17);
    AndMask(upper, 32);
    DivModUnique(upper, 0x1_0000_0000, ip + tm, tm);
    ShlMul(ip + tm, 49);
    ShrShl(0x2_0000 * tm + low, ip + tm, 49);
    AndMask(tm, 16);
    AndMask(n, 24);
    LowBits(ip + tm, tm / 128, tm % 128, low);
    PortBits(tm % 128, port);
  }

  lemma LowBits(top: nat, a: nat, b: nat, low: nat)
    requires b < 128 && low < 0x2_0000
    ensures (0x2_0000_0000_0000 * top + 0x2_0000 * (128 * a + b) + low) % 0x100_0000 == 0x2_0000 * b + low
  {
    DivModUnique(0x2_0000_0000_0000 * top + 0x2_0000 * (128 * a + b) + low,
                 0x100_0000, 0x200_0000 * top + a, 0x2_0000 * b + low);
  }

  lemma PortBits(a: nat, port: u16)
    ensures (0x2_0000 * a + port) % 0x1_0000 == port
  {
    DivModUnique(0x2_0000 * a + port, 0x1_0000, 2 * a, port);
  }

  // ----------------------------------------------------------------------
  // Any bytes
  // ----------------------------------------------------------------------

  /** A difference that wraps around and is then cut, to 32 bits and to 16. */
  lemma WrapCut(a: nat, b: nat)
    ensures WrappingSub(a, b) % 0x1_0000_0000 == (a - b) % 0x1_0000_0000
    ensures WrappingSub(a, b) % 0x1_0000 == (a - b) % 0x1_0000
  {
    var q := (a - b) / U128_SIZE;
    ModShift(WrappingSub(a, b), 0x1_0000_0000, q * (U128_SIZE / 0x1_0000_0000));
    ModShift(WrappingSub(a, b), 0x1_0000, q * (U128_SIZE / 0x1_0000));
    assert a - b == WrappingSub(a, b) + q * U128_SIZE;
  }

  /** `x as u32` and `x as u16`. */
  function Cut32(x: int): u32 {
    x % 0x1_0000_0000
  }

  function Cut16(x: int): u16 {
    x % 0x1_0000
  }

  lemma PortCut(n: nat, m: nat)
    ensures (n % 0x100_0000 - m % 0x1_0000_0000 % 0x1_0000) % 0x1_0000 == (n - m) % 0x1_0000
  {
    var cut := m % 0x1_0000_0000;
    var e := 256 * (n / 0x100_0000) - (m / 0x1_0000_0000 * 0x1_0000 + cut / 0x1_0000);
    ModShift(n % 0x100_0000 - cut % 0x1_0000, 0x1_0000, e);
    assert n - m == n % 0x100_0000 - cut % 0x1_0000 + e * 0x1_0000;
  }

  lemma IpCut(a: nat, m: nat)
    ensures (a - m % 0x1_0000_0000) % 0x1_0000_0000 == (a - m) % 0x1_0000_0000
  {
    ModShift(a - m, 0x1_0000_0000, m / 0x1_0000_0000);
  }

  /** The three steps of the decoder on any number. */
  lemma FieldsAny(n: nat)
    ensures var tm := And(Shr(n, 17), 0xFFFF_FFFF);
            && WrappingSub(Shr(n, 49), tm) % 0x1_0000_0000 == Cut32(n / 0x2_0000_0000_0000 - n / 0x2_0000)
            && WrappingSub(And(n, 0xFF_FFFF), And(tm, 0xFFFF)) % 0x1_0000 == Cut16(n - n / 0x2_0000)
  {
    hide And, Shr, WrappingSub, Pow2;
    MorePow2Values();
    ShrDiv(n, 17);
    ShrDiv(n, 49);
    var m := n / 0x2_0000;
    AndMask(m, 32);
    var tm := m % 0x1_0000_0000;
    AndMask(tm, 16);
    AndMask(n, 24);
    WrapCut(n / 0x2_0000_0000_0000, tm);
    WrapCut(n % 0x100_0000, tm % 0x1_0000);
    PortCut(n, m);
    IpCut(n / 0x2_0000_0000_0000, m);
  }

  lemma DecodeNumber(bytes: seq<byte>, ip: u32, port: u16)
    requires |bytes| <= 16
    requires var n, tm := FromLe(bytes), And(Shr(FromLe(bytes), 17), 0xFFFF_FFFF);
             && WrappingSub(Shr(n, 49), tm) % 0x1_0000_0000 == ip
             && WrappingSub(And(n, 0xFF_FFFF), And(tm, 0xFFFF)) % 0x1_0000 == port
    ensures Decode(bytes) == V4(ToLe(ip, 4), port)
  {
    hide And, Shr, WrappingSub, ToLe, FromLe;
    Padded(bytes);
  }

  /** What decoding makes of any bytes, also of those that no encoder sends: up to 16 are a
      number whose fields are cut out, 18 are an address and a port, others are refused. */
  lemma DecodeAny(bytes: seq<byte>)
    requires |bytes| <= 16
    ensures var n := FromLe(bytes);
            Decode(bytes) == V4(ToLe(Cut32(n / 0x2_0000_0000_0000 - n / 0x2_0000), 4), Cut16(n - n / 0x2_0000))
  {
    hide And, Shr, WrappingSub, ToLe, FromLe, Decode, Cut32, Cut16;
    var n: int := FromLe(bytes);
    FieldsAny(n);
    DecodeNumber(bytes, Cut32(n / 0x2_0000_0000_0000 - n / 0x2_0000), Cut16(n - n / 0x2_0000));
  }

  lemma DecodeLong(bytes: seq<byte>)
    requires |bytes| > 16
    ensures |bytes| == 18 ==> Decode(bytes) == V6(bytes[..16], (bytes[16] as int) + 0x100 * (bytes[17] as int), 0, 0)
    ensures |bytes| != 18 ==> Decode(bytes) == V6(COMPATIBLE + [0, 0, 0, 0], 0, 0, 0)
  {
    hide And, Shr, WrappingSub, ToLe;
    if |bytes| == 18 {
      var low := bytes[16..];
      assert low[0] == bytes[16] && low[1..][0] == bytes[17] && low[1..][1..] == [];
      assert FromLe(low[1..]) == low[1..][0] + 256 * FromLe(low[1..][1..]);
    } else {
      assert UNSPECIFIED6 == COMPATIBLE + [0, 0, 0, 0];
    }
  }

  // ----------------------------------------------------------------------
  // Encoding
  // ----------------------------------------------------------------------

  /** The wire form: the shortest little-endian writing of the packed number, or the
      address and port of an IPv6 address as they are. */
  ghost predicate Encoded(addr: SocketAddr, tm: u32, bytes: seq<byte>) {
    match TryIntoV4(addr)
    case V4(ip, port) =>
      FromLeBound4(ip);
      && FromLe(bytes) == Packed(FromLe(ip), port, tm)
      && (bytes != [] ==> bytes[|bytes| - 1] != 0)
      && |bytes| <= 11
    case V6(ip, port, _, _) => bytes == ip + ToLe(port, 2)
  }

  lemma FromLeBound4(ip: Ip4)
    ensures FromLe(ip) < 0x1_0000_0000
  {
    FromLeBound(ip);
    assert Pow256(4) == 0x1_0000_0000;
  }

  method Encode(addr: SocketAddr, tm: u32) returns (bytes: seq<byte>)
    ensures Encoded(addr, tm, bytes)
    ensures TryIntoV4(addr).V4? ==> |bytes| <= 11
    ensures TryIntoV4(addr).V6? ==> |bytes| == 18
  {
    hide FromLe, ToLe, Or, Shl, And, Packed, TryIntoV4;
    match TryIntoV4(addr) {
      case V4(ip4, port) =>
        FromLeBound4(ip4);
        var ip := FromLe(ip4);
        PackingDisjoint(ip, port, tm);
        var v := Or(Or(Shl(ip + tm, 49), Shl(tm, 17)), port + And(tm, 0xFFFF));
        var le := ToLe(v, 16);
        PackedBound(ip, port, tm);
        var nPadding := 0;
        while nPadding < 16 && le[15 - nPadding] == 0
          invariant nPadding <= 16
          invariant forall i :: 16 - nPadding <= i < 16 ==> le[i] == 0
        {
          nPadding := nPadding + 1;
        }
        bytes := le[..16 - nPadding];
        Stripped(v, le, bytes);
      case V6(ip6, port, _, _) =>
        bytes := ip6 + ToLe(port, 2);
    }
  }

  /** Dropping the zero bytes at the end keeps the number and leaves at most the
      eleven bytes that its 82 bits need. */
  lemma Stripped(v: nat, le: seq<byte>, bytes: seq<byte>)
    requires v < POW256_11 && le == ToLe(v, 16)
    requires |bytes| <= 16 && bytes == le[..|bytes|]
    requires forall i :: |bytes| <= i < 16 ==> le[i] == 0
    requires bytes != [] ==> bytes[|bytes| - 1] != 0
    ensures FromLe(bytes) == v && |bytes| <= 11
  {
    hide ToLe, FromLe, Pow256;
    Pow256Of11();
    Pow256Grows(11, 16);
    FromToLe(v, 16);
    assert le == bytes + le[|bytes|..];
    FromLeConcat(bytes, le[|bytes|..]);
    FromLeZeros(le[|bytes|..]);
    if |bytes| > 11 {
      TopByte(bytes);
      Pow256Grows(11, |bytes| - 1);
    }
  }

  const POW256_11: nat := 0x100_0000_0000_0000_0000_0000

  lemma Pow256Of11()
    ensures Pow256(11) == POW256_11
  {
    assert Pow256(4) == 0x1_0000_0000;
    assert Pow256(8) == 256 * (256 * (256 * (256 * Pow256(4))));
    assert Pow256(11) == 256 * (256 * (256 * Pow256(8)));
  }

  lemma {:induction false} Pow256Grows(a: nat, b: nat)
    requires a <= b
    ensures Pow256(a) <= Pow256(b)
  {
    if a < b {
      Pow256Grows(a, b - 1);
    }
  }

  lemma {:induction false} TopByte(s: seq<byte>)
    requires s != [] && s[|s| - 1] != 0
    ensures FromLe(s) >= Pow256(|s| - 1)
  {
    if |s| > 1 {
      TopByte(s[1..]);
    }
  }

  // ----------------------------------------------------------------------
  // Round trip
  // ----------------------------------------------------------------------

  /** An address without the two fields that the wire form has no room for. */
  function Plain(addr: SocketAddr): SocketAddr {
    if addr.V6? then addr.(flowinfo := 0, scopeId := 0) else addr
  }

  lemma DecodeEncoded(addr: SocketAddr, tm: u32, bytes: seq<byte>)
    requires Encoded(addr, tm, bytes)
    ensures Decode(bytes) == Plain(TryIntoV4(addr))
  {
    match TryIntoV4(addr)
    case V4(ip4, port) =>
      FromLeBound4(ip4);
      DecodePacked(ip4, port, tm, bytes);
    case V6(ip6, port, _, _) =>
      assert bytes[..16] == ip6 && bytes[16..] == ToLe(port, 2);
      assert Pow256(2) == 0x1_0000;
      FromToLe(port, 2);
  }

  lemma NoWrap(a: nat, b: nat)
    requires b <= a < U128_SIZE
    ensures WrappingSub(a, b) == a - b
  {}

  /** The three steps of the decoder on a packed number. */
  lemma Fields(ip: u32, port: u16, tm: u32)
    ensures var n := Packed(ip, port, tm);
            && And(Shr(n, 17), 0xFFFF_FFFF) == tm
            && WrappingSub(Shr(n, 49), tm) % 0x1_0000_0000 == ip
            && WrappingSub(And(n, 0xFF_FFFF), And(tm, 0xFFFF)) % 0x1_0000 == port
  {
    hide And, Shr, Packed, WrappingSub;
    var n := Packed(ip, port, tm);
    Unpacking(ip, port, tm);
    NoWrap(Shr(n, 49), tm);
    NoWrap(And(n, 0xFF_FFFF), And(tm, 0xFFFF));
  }

  lemma Padded(bytes: seq<byte>)
    requires |bytes| <= 16
    ensures FromLe(bytes + seq(16 - |bytes|, _ => 0)) == FromLe(bytes)
  {
    hide FromLe, Pow256;
    var zeros: seq<byte> := seq(16 - |bytes|, _ => 0);
    FromLeConcat(bytes, zeros);
    FromLeZeros(zeros);
  }

  lemma DecodePacked(ip4: Ip4, port: u16, tm: u32, bytes: seq<byte>)
    requires FromLe(ip4) < 0x1_0000_0000
    requires FromLe(bytes) == Packed(FromLe(ip4), port, tm) && |bytes| <= 16
    ensures Decode(bytes) == V4(ip4, port)
  {
    hide And, Shr, FromLe, ToLe, Packed, WrappingSub;
    Padded(bytes);
    Fields(FromLe(ip4), port, tm);
    ToFromLe(ip4);
  }

  /** Decoding gives back the address in its IPv4 form, exactly if it has one or
      carries neither a flow label nor a scope. */
  lemma RoundTrip(addr: SocketAddr, tm: u32, bytes: seq<byte>)
    requires Encoded(addr, tm, bytes)
    ensures Decode(bytes) == TryIntoV4(addr)
            <==> (TryIntoV4(addr).V6? ==> addr.flowinfo == 0 && addr.scopeId == 0)
  {
    DecodeEncoded(addr, tm, bytes);
  }

  /** Neither form can be taken for the other, and neither for what is refused. */
  lemma FormsApart(addr: SocketAddr, tm: u32, bytes: seq<byte>)
    requires Encoded(addr, tm, bytes)
    ensures |bytes| <= 11 <==> Decode(bytes).V4?
    ensures |bytes| == 18 <==> Decode(bytes).V6?
  {
    DecodeEncoded(addr, tm, bytes);
  }
}
