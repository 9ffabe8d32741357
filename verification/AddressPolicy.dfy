/** Which addresses the plugin host may dial (packages/plugin-host/src/ssrf.ts): the range checks,
    host validation with pinning, and the capped body reader. */
module AddressPolicy {
  import opened Common
  import opened Text
  import Ipv6Text

  // ---------------------------------------------------------------- the range checks

  predicate IsDisallowedIPv4(o: seq<nat>)
    requires |o| == 4
  {
    var a, b, c, d := o[0], o[1], o[2], o[3];
    if a > 255 || b > 255 || c > 255 || d > 255 then true
    else if a == 127 then true
    else if a == 10 then true
    else if a == 172 && 16 <= b <= 31 then true
    else if a == 192 && b == 168 then true
    else if a == 169 && b == 254 then true
    else if a == 0 then true
    else if 224 <= a <= 239 then true
    else if a == 255 && b == 255 && c == 255 && d == 255 then true
    else if a == 100 && 64 <= b <= 127 then true
    else if a == 192 && b == 0 && c == 0 then true
    else if a == 192 && b == 0 && c == 2 then true
    else if a == 198 && (b == 18 || b == 19) then true
    else if a == 198 && b == 51 && c == 100 then true
    else if a == 203 && b == 0 && c == 113 then true
    else if a >= 240 then true
    else false
  }

  predicate StartsWith(bytes: seq<nat>, prefix: seq<nat>) {
    |prefix| <= |bytes| && bytes[..|prefix|] == prefix
  }

  const MAPPED_PREFIX: seq<nat> := [0, 0, 0, 0, 0, 0, 0, 0, 0, 0, 0xff, 0xff]
  const COMPATIBLE_PREFIX: seq<nat> := [0, 0, 0, 0, 0, 0, 0, 0, 0, 0, 0, 0]
  const NAT64_PREFIX: seq<nat> := [0x00, 0x64, 0xff, 0x9b, 0, 0, 0, 0, 0, 0, 0, 0]
  const SIX_TO_FOUR_PREFIX: seq<nat> := [0x20, 0x02]

  predicate IsDisallowedIPv6Bytes(bytes: seq<nat>)
    requires |bytes| == 16
  {
    if bytes[..15] == COMPATIBLE_PREFIX + [0, 0, 0] && bytes[15] == 1 then true
    else if bytes == COMPATIBLE_PREFIX + [0, 0, 0, 0] then true
    else if bytes[0] == 0xfe && bytes[1] / 64 == 2 then true
    else if bytes[0] / 2 == 0x7e then true
    else if bytes[0] == 0xff then true
    else if StartsWith(bytes, MAPPED_PREFIX) && IsDisallowedIPv4(bytes[12..]) then true
    else if StartsWith(bytes, COMPATIBLE_PREFIX) && bytes[12..] != [0, 0, 0, 0] && IsDisallowedIPv4(bytes[12..]) then true
    else if StartsWith(bytes, NAT64_PREFIX) && IsDisallowedIPv4(bytes[12..]) then true
    else if bytes[0] == 0x20 && bytes[1] == 0x02 && IsDisallowedIPv4(bytes[2..6]) then true
    else false
  }

  // ---------------------------------------------------------------- the same as a table of CIDR blocks

  /** The first `bits` bits of an address. */
  datatype Cidr = Cidr(net: seq<nat>, bits: nat)

  predicate PrefixMatch(bytes: seq<nat>, net: seq<nat>, bits: nat) {
    if bits == 0 then true
    else if bytes == [] || net == [] then false
    else if bits >= 8 then bytes[0] == net[0] && PrefixMatch(bytes[1..], net[1..], bits - 8)
    else bytes[0] / Power(2, 8 - bits) == net[0] / Power(2, 8 - bits)
  }

  predicate InBlock(bytes: seq<nat>, c: Cidr) {
    PrefixMatch(bytes, c.net, c.bits)
  }

  predicate InTable(bytes: seq<nat>, table: seq<Cidr>) {
    exists i :: 0 <= i < |table| && InBlock(bytes, table[i])
  }

  /** LD5's deny list. */
  const DENIED_V4: seq<Cidr> := [
    Cidr([127, 0, 0, 0], 8), Cidr([10, 0, 0, 0], 8), Cidr([172, 16, 0, 0], 12), Cidr([192, 168, 0, 0], 16),
    Cidr([169, 254, 0, 0], 16), Cidr([0, 0, 0, 0], 8), Cidr([224, 0, 0, 0], 4), Cidr([255, 255, 255, 255], 32),
    Cidr([100, 64, 0, 0], 10), Cidr([192, 0, 0, 0], 24), Cidr([192, 0, 2, 0], 24), Cidr([198, 18, 0, 0], 15),
    Cidr([198, 51, 100, 0], 24), Cidr([203, 0, 113, 0], 24), Cidr([240, 0, 0, 0], 4)]

  const LOOPBACK6: seq<nat> := [0, 0, 0, 0, 0, 0, 0, 0, 0, 0, 0, 0, 0, 0, 0, 1]
  const UNSPECIFIED6: seq<nat> := [0, 0, 0, 0, 0, 0, 0, 0, 0, 0, 0, 0, 0, 0, 0, 0]

  const DENIED_V6_OWN: seq<Cidr> := [
    Cidr(LOOPBACK6, 128), Cidr(UNSPECIFIED6, 128), Cidr([0xfe, 0x80], 10), Cidr([0xfc], 7), Cidr([0xff], 8)]

  /** Every block of `table` behind a prefix: where a transition scheme carries an IPv4 address. */
  function Behind(prefix: seq<nat>, table: seq<Cidr>): (out: seq<Cidr>)
    ensures |out| == |table|
    ensures forall i :: 0 <= i < |table| ==> out[i] == Cidr(prefix + table[i].net, 8 * |prefix| + table[i].bits)
  {
    seq(|table|, i requires 0 <= i < |table| => Cidr(prefix + table[i].net, 8 * |prefix| + table[i].bits))
  }

  function DeniedV6(): seq<Cidr> {
    DENIED_V6_OWN + Behind(MAPPED_PREFIX, DENIED_V4) + Behind(COMPATIBLE_PREFIX, DENIED_V4)
    + Behind(NAT64_PREFIX, DENIED_V4) + Behind(SIX_TO_FOUR_PREFIX, DENIED_V4)
  }

  /** Whole leading bytes are compared as they are. */
  lemma {:induction false} MatchConcat(p: seq<nat>, q: seq<nat>, x: seq<nat>, y: seq<nat>, bits: nat)
    requires |p| == |q|
    ensures PrefixMatch(p + x, q + y, 8 * |p| + bits) <==> p == q && PrefixMatch(x, y, bits)
  {
    if p == [] {
      assert p + x == x && q + y == y;
    } else {
      assert (p + x)[1..] == p[1..] + x && (q + y)[1..] == q[1..] + y;
      assert p == [p[0]] + p[1..] && q == [q[0]] + q[1..];
      MatchConcat(p[1..], q[1..], x, y, bits);
    }
  }

  lemma MatchAfter(o: seq<nat>, net: seq<nat>, n: nat, bits: nat)
    requires n <= |o| && n <= |net|
    ensures PrefixMatch(o, net, 8 * n + bits) <==> o[..n] == net[..n] && PrefixMatch(o[n..], net[n..], bits)
  {
    assert o == o[..n] + o[n..] && net == net[..n] + net[n..];
    MatchConcat(o[..n], net[..n], o[n..], net[n..], bits);
  }

  lemma MatchFour(o: seq<nat>, net: seq<nat>, bits: nat)
    requires |o| == 4 && |net| == 4 && Ipv6Text.AllBytes(o) && Ipv6Text.AllBytes(net)
    ensures bits == 4 ==> (PrefixMatch(o, net, bits) <==> o[0] / 16 == net[0] / 16)
    ensures bits == 8 ==> (PrefixMatch(o, net, bits) <==> o[0] == net[0])
    ensures bits == 10 ==> (PrefixMatch(o, net, bits) <==> o[0] == net[0] && o[1] / 64 == net[1] / 64)
    ensures bits == 12 ==> (PrefixMatch(o, net, bits) <==> o[0] == net[0] && o[1] / 16 == net[1] / 16)
    ensures bits == 15 ==> (PrefixMatch(o, net, bits) <==> o[0] == net[0] && o[1] / 2 == net[1] / 2)
    ensures bits == 16 ==> (PrefixMatch(o, net, bits) <==> o[..2] == net[..2])
    ensures bits == 24 ==> (PrefixMatch(o, net, bits) <==> o[..3] == net[..3])
    ensures bits == 32 ==> (PrefixMatch(o, net, bits) <==> o == net)
  {
    PowersOfTwo();
    if bits == 16 || bits == 24 || bits == 32 {
      MatchAfter(o, net, bits / 8, 0);
      assert o[..4] == o && net[..4] == net;
    }
  }

  lemma PowersOfTwo()
    ensures Power(2, 1) == 2 && Power(2, 4) == 16 && Power(2, 6) == 64
  {
    assert Power(2, 3) == 8;
    assert Power(2, 5) == 32;
  }

  /** What one block says about the four octets. */
  predicate BlockSays(o: seq<nat>, net: seq<nat>, bits: nat)
    requires |o| == 4 && |net| == 4
  {
    if bits == 4 then o[0] / 16 == net[0] / 16
    else if bits == 8 then o[0] == net[0]
    else if bits == 10 then o[0] == net[0] && o[1] / 64 == net[1] / 64
    else if bits == 12 then o[0] == net[0] && o[1] / 16 == net[1] / 16
    else if bits == 15 then o[0] == net[0] && o[1] / 2 == net[1] / 2
    else if bits == 16 then o[0] == net[0] && o[1] == net[1]
    else if bits == 24 then o[0] == net[0] && o[1] == net[1] && o[2] == net[2]
    else o == net
  }

  predicate BlockLength(bits: nat) {
    bits in {4, 8, 10, 12, 15, 16, 24, 32}
  }

  lemma BlockMatches(o: seq<nat>, net: seq<nat>, bits: nat)
    requires |o| == 4 && |net| == 4 && Ipv6Text.AllBytes(o) && Ipv6Text.AllBytes(net) && BlockLength(bits)
    ensures PrefixMatch(o, net, bits) <==> BlockSays(o, net, bits)
  {
    MatchFour(o, net, bits);
    assert o[..2] == [o[0], o[1]] && net[..2] == [net[0], net[1]];
    assert o[..3] == [o[0], o[1], o[2]] && net[..3] == [net[0], net[1], net[2]];
  }

  /** The IPv4 check is membership in the deny list's blocks. */
  lemma DisallowedIPv4IffDenied(o: seq<nat>)
    requires |o| == 4 && Ipv6Text.AllBytes(o)
    ensures IsDisallowedIPv4(o) <==> InTable(o, DENIED_V4)
  {
    forall i | 0 <= i < |DENIED_V4|
      ensures InBlock(o, DENIED_V4[i]) <==> BlockSays(o, DENIED_V4[i].net, DENIED_V4[i].bits)
    {
      BlockMatches(o, DENIED_V4[i].net, DENIED_V4[i].bits);
    }
    ChainIsTable(o);
  }

  lemma ChainIsTable(o: seq<nat>)
    requires |o| == 4 && Ipv6Text.AllBytes(o)
    ensures IsDisallowedIPv4(o)
       <==> exists i :: 0 <= i < |DENIED_V4| && BlockSays(o, DENIED_V4[i].net, DENIED_V4[i].bits)
  {
    if IsDisallowedIPv4(o) {
      var a, b := o[0], o[1];
      var i := if a == 127 then 0 else if a == 10 then 1 else if a == 172 then 2 else if a == 192 && b == 168 then 3
               else if a == 169 then 4 else if a == 0 then 5 else if 224 <= a <= 239 then 6 else if a == 100 then 8
               else if a == 192 && o[2] == 0 then 9 else if a == 192 then 10
               else if a == 198 && b < 20 then 11 else if a == 198 then 12 else if a == 203 then 13 else 14;
      assert BlockSays(o, DENIED_V4[i].net, DENIED_V4[i].bits);
    }
  }

  /** Behind a prefix, a table matches exactly the addresses that carry one of its blocks there. */
  lemma InTableBehind(bytes: seq<nat>, prefix: seq<nat>, table: seq<Cidr>)
    requires |prefix| <= |bytes|
    ensures InTable(bytes, Behind(prefix, table)) <==> StartsWith(bytes, prefix) && InTable(bytes[|prefix|..], table)
  {
    var n := |prefix|;
    assert bytes == bytes[..n] + bytes[n..];
    forall i | 0 <= i < |table|
      ensures InBlock(bytes, Behind(prefix, table)[i]) <==> StartsWith(bytes, prefix) && InBlock(bytes[n..], table[i])
    {
      MatchConcat(bytes[..n], prefix, bytes[n..], table[i].net, table[i].bits);
    }
    if InTable(bytes[n..], table) && StartsWith(bytes, prefix) {
      var i :| 0 <= i < |table| && InBlock(bytes[n..], table[i]);
      assert InBlock(bytes, Behind(prefix, table)[i]);
    }
  }

  lemma InTableConcat(bytes: seq<nat>, a: seq<Cidr>, b: seq<Cidr>)
    ensures InTable(bytes, a + b) <==> InTable(bytes, a) || InTable(bytes, b)
  {
    if InTable(bytes, a) {
      var i :| 0 <= i < |a| && InBlock(bytes, a[i]);
      assert (a + b)[i] == a[i];
    } else if InTable(bytes, b) {
      var i :| 0 <= i < |b| && InBlock(bytes, b[i]);
      assert (a + b)[|a| + i] == b[i];
    }
  }

  /** The deny list looks at the first four bytes only. */
  lemma DenyListReadsFour(x: seq<nat>)
    requires |x| >= 4
    ensures InTable(x, DENIED_V4) <==> InTable(x[..4], DENIED_V4)
  {
    forall i | 0 <= i < |DENIED_V4|
      ensures InBlock(x, DENIED_V4[i]) <==> InBlock(x[..4], DENIED_V4[i])
    {
      MatchReadsFour(x, DENIED_V4[i].net, DENIED_V4[i].bits);
    }
  }

  lemma MatchReadsFour(x: seq<nat>, net: seq<nat>, bits: nat)
    requires |x| >= 4 && |net| == 4 && bits <= 32
    ensures PrefixMatch(x, net, bits) <==> PrefixMatch(x[..4], net, bits)
  {
    var n := bits / 8;
    MatchAfter(x, net, n, bits % 8);
    MatchAfter(x[..4], net, n, bits % 8);
    assert x[..4][..n] == x[..n];
    if n < 4 {
      assert x[n..][0] == x[..4][n..][0];
    }
  }

  predicate InOwnBlocks(bytes: seq<nat>)
    requires |bytes| == 16
  {
    || (bytes[..15] == COMPATIBLE_PREFIX + [0, 0, 0] && bytes[15] == 1)
    || bytes == COMPATIBLE_PREFIX + [0, 0, 0, 0]
    || (bytes[0] == 0xfe && bytes[1] / 64 == 2)
    || bytes[0] / 2 == 0x7e
    || bytes[0] == 0xff
  }

  lemma WholeMatch(bytes: seq<nat>, net: seq<nat>)
    requires |bytes| == |net|
    ensures PrefixMatch(bytes, net, 8 * |net|) <==> bytes == net
  {
    MatchAfter(bytes, net, |net|, 0);
    assert bytes[..|net|] == bytes && net[..|net|] == net;
  }

  lemma ShortMatch(bytes: seq<nat>)
    requires |bytes| == 16
    ensures PrefixMatch(bytes, [0xfe, 0x80], 10) <==> bytes[0] == 0xfe && bytes[1] / 64 == 2
    ensures PrefixMatch(bytes, [0xfc], 7) <==> bytes[0] / 2 == 0x7e
    ensures PrefixMatch(bytes, [0xff], 8) <==> bytes[0] == 0xff
  {
    PowersOfTwo();
  }

  /** The five IPv6 blocks of its own. */
  lemma OwnBlocks(bytes: seq<nat>)
    requires |bytes| == 16
    ensures InOwnBlocks(bytes) <==> InTable(bytes, DENIED_V6_OWN)
  {
    WholeMatch(bytes, LOOPBACK6);
    WholeMatch(bytes, UNSPECIFIED6);
    ShortMatch(bytes);
    LoopbackIs(bytes);
    FiveBlocks(bytes, DENIED_V6_OWN);
  }

  lemma LoopbackIs(bytes: seq<nat>)
    requires |bytes| == 16
    ensures bytes[..15] == COMPATIBLE_PREFIX + [0, 0, 0] && bytes[15] == 1 <==> bytes == LOOPBACK6
    ensures bytes == COMPATIBLE_PREFIX + [0, 0, 0, 0] <==> bytes == UNSPECIFIED6
  {
    assert bytes == bytes[..15] + [bytes[15]];
    assert LOOPBACK6 == COMPATIBLE_PREFIX + [0, 0, 0] + [1];
    assert UNSPECIFIED6 == COMPATIBLE_PREFIX + [0, 0, 0, 0];
  }

  lemma FiveBlocks(bytes: seq<nat>, t: seq<Cidr>)
    requires |t| == 5
    ensures InTable(bytes, t)
       <==> || InBlock(bytes, t[0]) || InBlock(bytes, t[1]) || InBlock(bytes, t[2]) || InBlock(bytes, t[3])
            || InBlock(bytes, t[4])
  {
  }

  // ---------------------------------------------------------------- the IPv6 check is a table

  /** The IPv6 check is membership in a table of CIDR blocks: IPv6's own five, and every IPv4 block
      wherever an IPv4-mapped, IPv4-compatible, NAT64 or 6to4 address carries an IPv4 address. */
  lemma DisallowedIPv6IffDenied(bytes: seq<nat>)
    requires |bytes| == 16 && Ipv6Text.AllBytes(bytes)
    ensures IsDisallowedIPv6Bytes(bytes) <==> InTable(bytes, DeniedV6())
  {
    OwnBlocks(bytes);
    CarriedBlocks(bytes, MAPPED_PREFIX);
    CarriedBlocks(bytes, COMPATIBLE_PREFIX);
    CarriedBlocks(bytes, NAT64_PREFIX);
    CarriedBlocks(bytes, SIX_TO_FOUR_PREFIX);
    FiveTables(bytes, DENIED_V6_OWN, Behind(MAPPED_PREFIX, DENIED_V4), Behind(COMPATIBLE_PREFIX, DENIED_V4),
               Behind(NAT64_PREFIX, DENIED_V4), Behind(SIX_TO_FOUR_PREFIX, DENIED_V4));
    assert bytes[12..][..4] == bytes[12..] && bytes[2..][..4] == bytes[2..6];
    assert bytes == bytes[..12] + bytes[12..];
    assert StartsWith(bytes, SIX_TO_FOUR_PREFIX) <==> bytes[0] == 0x20 && bytes[1] == 0x02 by {
      assert bytes[..2] == [bytes[0], bytes[1]];
    }
  }

  lemma CarriedBlocks(bytes: seq<nat>, prefix: seq<nat>)
    requires |bytes| == 16 && Ipv6Text.AllBytes(bytes) && |prefix| <= 12
    ensures InTable(bytes, Behind(prefix, DENIED_V4))
       <==> StartsWith(bytes, prefix) && IsDisallowedIPv4(bytes[|prefix|..][..4])
  {
    InTableBehind(bytes, prefix, DENIED_V4);
    DenyListReadsFour(bytes[|prefix|..]);
    DisallowedIPv4IffDenied(bytes[|prefix|..][..4]);
  }

  lemma FiveTables(bytes: seq<nat>, a: seq<Cidr>, b: seq<Cidr>, c: seq<Cidr>, d: seq<Cidr>, e: seq<Cidr>)
    ensures InTable(bytes, a + b + c + d + e)
       <==> InTable(bytes, a) || InTable(bytes, b) || InTable(bytes, c) || InTable(bytes, d) || InTable(bytes, e)
  {
    InTableConcat(bytes, a, b);
    InTableConcat(bytes, a + b, c);
    InTableConcat(bytes, a + b + c, d);
    InTableConcat(bytes, a + b + c + d, e);
  }

  /** Where an IPv6 address carries an IPv4 address, the two are allowed or refused together. */
  lemma CarriedAddressDecides(o: seq<nat>, rest: seq<nat>)
    requires |o| == 4 && Ipv6Text.AllBytes(o)
    ensures IsDisallowedIPv6Bytes(MAPPED_PREFIX + o) <==> IsDisallowedIPv4(o)
    ensures IsDisallowedIPv6Bytes(COMPATIBLE_PREFIX + o) <==> IsDisallowedIPv4(o)
    ensures IsDisallowedIPv6Bytes(NAT64_PREFIX + o) <==> IsDisallowedIPv4(o)
    ensures |rest| == 10 ==> (IsDisallowedIPv6Bytes(SIX_TO_FOUR_PREFIX + o + rest) <==> IsDisallowedIPv4(o))
  {
    CarriedLast(MAPPED_PREFIX, o);
    CarriedLast(COMPATIBLE_PREFIX, o);
    CarriedLast(NAT64_PREFIX, o);
    if |rest| == 10 {
      var bytes := SIX_TO_FOUR_PREFIX + o + rest;
      assert bytes[2..6] == o && bytes[0] == 0x20 && bytes[1] == 0x02;
      assert !StartsWith(bytes, MAPPED_PREFIX) && !StartsWith(bytes, COMPATIBLE_PREFIX) && !StartsWith(bytes, NAT64_PREFIX) by {
        assert MAPPED_PREFIX[0] == 0 && COMPATIBLE_PREFIX[0] == 0 && NAT64_PREFIX[0] == 0;
        assert forall p: seq<nat> :: StartsWith(bytes, p) && p != [] ==> bytes[..|p|][0] == p[0];
      }
      assert bytes[..15][0] == 0x20;
    }
  }

  lemma CarriedLast(prefix: seq<nat>, o: seq<nat>)
    requires |o| == 4 && Ipv6Text.AllBytes(o)
    requires prefix in {MAPPED_PREFIX, COMPATIBLE_PREFIX, NAT64_PREFIX}
    ensures IsDisallowedIPv6Bytes(prefix + o) <==> IsDisallowedIPv4(o)
  {
    var bytes := prefix + o;
    assert |prefix| == 12 && bytes[..12] == prefix && bytes[12..] == o;
    assert bytes[0] == prefix[0] == 0;
    assert bytes[..15] == prefix + o[..3];
    assert (prefix + o[..3])[..12] == prefix && (COMPATIBLE_PREFIX + [0, 0, 0])[..12] == COMPATIBLE_PREFIX;
    assert (COMPATIBLE_PREFIX + [0, 0, 0, 0])[..12] == COMPATIBLE_PREFIX;
    assert bytes[..15] == COMPATIBLE_PREFIX + [0, 0, 0] ==> bytes[12] == 0 by {
      assert bytes[..15][12] == bytes[12];
    }
  }

  // ---------------------------------------------------------------- addresses as text

  /** What the runtime's own address test says of a text. */
  datatype Kind = V4 | V6 | NotAnAddress

  /** A text that cannot be read as the address it is said to be is refused. */
  predicate IsDisallowedAddress(text: string, kind: Kind) {
    match kind
    case V4 => !Ipv6Text.IsQuad(text) || IsDisallowedIPv4(Ipv6Text.Octets(text))
    case V6 =>
      var bytes := Ipv6Text.Parse(text);
      bytes.None? || IsDisallowedIPv6Bytes(bytes.value)
    case NotAnAddress => true
  }

  /** An IPv6 address is judged by its bytes, whichever of its text forms it arrives in, and a text
      that is no form of any address is refused. */
  lemma JudgedByBytes(text: string, bytes: seq<nat>)
    ensures Ipv6Text.TextFormOf(Lower(Ipv6Text.StripZone(text)), bytes)
            ==> |bytes| == 16 && Ipv6Text.AllBytes(bytes)
                && (IsDisallowedAddress(text, V6) <==> InTable(bytes, DeniedV6()))
    ensures (forall b :: !Ipv6Text.TextFormOf(Lower(Ipv6Text.StripZone(text)), b)) ==> IsDisallowedAddress(text, V6)
  {
    Ipv6Text.ParseIffTextForm(text, bytes);
    if Ipv6Text.TextFormOf(Lower(Ipv6Text.StripZone(text)), bytes) {
      DisallowedIPv6IffDenied(bytes);
    }
    if Ipv6Text.Parse(text).Some? {
      Ipv6Text.OnlyTextFormsParse(text);
    }
  }

  /** An octet in at most three digits. */
  lemma OctetDigits(a: nat)
    requires a < 256
    ensures 1 <= |Decimal(a)| <= 3 && AllDigits(Decimal(a)) && DecimalValue(Decimal(a)) == a
  {
    DecimalRoundTrip(a);
    assert Decimal(a / 100) == [DigitChar(a / 100)];
    assert a >= 10 ==> a / 10 / 10 == a / 100;
  }

  lemma QuadSplits(a: string, b: string, c: string, d: string)
    requires AllDigits(a) && AllDigits(b) && AllDigits(c) && AllDigits(d)
    ensures Split(a + "." + b + "." + c + "." + d, '.') == [a, b, c, d]
  {
    var front := a + "." + b;
    assert a + "." + b + "." + c == front + ['.'] + c;
    SplitFree(a, '.');
    SplitFree(b, '.');
    SplitFree(c, '.');
    SplitFree(d, '.');
    SplitConcat(a, b, '.');
    SplitConcat(front, c, '.');
    SplitConcat(front + "." + c, d, '.');
  }

  predicate IsOctet(piece: string) {
    1 <= |piece| <= 3 && AllDigits(piece)
  }

  lemma QuadPieces(text: string, a: string, b: string, c: string, d: string)
    requires Split(text, '.') == [a, b, c, d]
    ensures Ipv6Text.IsQuad(text) <==> IsOctet(a) && IsOctet(b) && IsOctet(c) && IsOctet(d)
    ensures Ipv6Text.IsQuad(text)
        ==> Ipv6Text.Octets(text) == [DecimalValue(a), DecimalValue(b), DecimalValue(c), DecimalValue(d)]
  {
    var parts := Split(text, '.');
    assert parts[0] == a && parts[1] == b && parts[2] == c && parts[3] == d;
  }

  lemma QuadOutsideIff(o: seq<nat>)
    requires |o| == 4
    ensures !IsDisallowedIPv4(o) <==> Ipv6Text.AllBytes(o) && !InTable(o, DENIED_V4)
  {
    if Ipv6Text.AllBytes(o) {
      DisallowedIPv4IffDenied(o);
    }
  }

  lemma JudgedByOctets(text: string, o: seq<nat>)
    requires Ipv6Text.IsQuad(text) && Ipv6Text.Octets(text) == o
    ensures IsDisallowedAddress(text, V4) <==> !Ipv6Text.AllBytes(o) || InTable(o, DENIED_V4)
  {
    QuadOutsideIff(o);
  }

  lemma OctetPieces(a: nat, b: nat, c: nat, d: nat, text: string)
    requires a < 256 && b < 256 && c < 256 && d < 256
    requires text == Decimal(a) + "." + Decimal(b) + "." + Decimal(c) + "." + Decimal(d)
    ensures Ipv6Text.IsQuad(text) && Ipv6Text.Octets(text) == [a, b, c, d]
  {
    OctetDigits(a);
    OctetDigits(b);
    OctetDigits(c);
    OctetDigits(d);
    QuadSplits(Decimal(a), Decimal(b), Decimal(c), Decimal(d));
    QuadPieces(text, Decimal(a), Decimal(b), Decimal(c), Decimal(d));
  }

  /** An IPv4 address as it is written is refused exactly when it lies in a block of the deny list. */
  lemma QuadJudgedByOctets(text: string, a: nat, b: nat, c: nat, d: nat)
    requires a < 256 && b < 256 && c < 256 && d < 256
    requires text == Decimal(a) + "." + Decimal(b) + "." + Decimal(c) + "." + Decimal(d)
    ensures IsDisallowedAddress(text, V4) <==> InTable([a, b, c, d], DENIED_V4)
  {
    OctetPieces(a, b, c, d, text);
    JudgedByOctets(text, [a, b, c, d]);
  }

  /** Anything else that is taken for one is refused: a number of pieces other than four, a piece that
      is not one to three digits, or a value above 255. */
  lemma NoQuadIsRefused(text: string, i: nat)
    requires |Split(text, '.')| != 4
          || (i < 4 && (!IsOctet(Split(text, '.')[i]) || DecimalValue(Split(text, '.')[i]) > 255))
    ensures IsDisallowedAddress(text, V4)
  {
    if Ipv6Text.IsQuad(text) {
      var parts := Split(text, '.');
      assert parts == [parts[0], parts[1], parts[2], parts[3]];
      QuadPieces(text, parts[0], parts[1], parts[2], parts[3]);
      assert Ipv6Text.Octets(text)[i] == DecimalValue(parts[i]);
      JudgedByOctets(text, Ipv6Text.Octets(text));
    }
  }

  // ---------------------------------------------------------------- host validation

  datatype Rejection = Disallowed(address: string) | DnsFailed

  function StripBrackets(hostname: string): string {
    if |hostname| >= 2 && hostname[0] == '[' && hostname[|hostname| - 1] == ']' then hostname[1..|hostname| - 1]
    else hostname
  }

  predicate Allowlisted(allow: seq<string>, name: string) {
    exists i :: 0 <= i < |allow| && Lower(allow[i]) == Lower(name)
  }

  predicate Allowed(kindOf: string -> Kind, address: string) {
    !IsDisallowedAddress(address, kindOf(address))
  }

  /** What a caller may rely on: an address that is dialled, and that no allowlist entry names, is
      outside every denied block. */
  ghost predicate OutsideDenied(address: string, kind: Kind) {
    match kind
    case V4 => Ipv6Text.IsQuad(address) && Ipv6Text.AllBytes(Ipv6Text.Octets(address))
               && !InTable(Ipv6Text.Octets(address), DENIED_V4)
    case V6 => Ipv6Text.Parse(address).Some? && !InTable(Ipv6Text.Parse(address).value, DeniedV6())
    case NotAnAddress => false
  }

  lemma AllowedIsOutside(kindOf: string -> Kind, address: string)
    ensures Allowed(kindOf, address) <==> OutsideDenied(address, kindOf(address))
  {
    match kindOf(address)
    case V4 =>
      if Ipv6Text.IsQuad(address) {
        QuadOutsideIff(Ipv6Text.Octets(address));
      }
    case V6 =>
      var bytes := Ipv6Text.Parse(address);
      if bytes.Some? {
        DisallowedIPv6IffDenied(bytes.value);
      }
    case NotAnAddress =>
  }

  /** Only a pair of brackets around the whole name is taken off. */
  lemma BracketsAreStripped(inner: string, name: string)
    ensures StripBrackets("[" + inner + "]") == inner
    ensures name == "" || name[0] != '[' || name[|name| - 1] != ']' ==> StripBrackets(name) == name
    ensures StripBrackets("[") == "["
  {
    assert ("[" + inner + "]")[1..|inner| + 1] == inner;
  }

  function FirstRefused(kindOf: string -> Kind, addresses: seq<string>): (a: Option<string>)
    ensures a.None? <==> forall k :: 0 <= k < |addresses| ==> Allowed(kindOf, addresses[k])
  {
    if addresses == [] then None
    else if !Allowed(kindOf, addresses[0]) then Some(addresses[0])
    else
      assert addresses == [addresses[0]] + addresses[1..];
      FirstRefused(kindOf, addresses[1..])
  }

  function Resolved(hostname: string, allow: seq<string>, kindOf: string -> Kind, lookup: Option<seq<string>>): Result<string, Rejection> {
    var literal := StripBrackets(hostname);
    if !kindOf(literal).NotAnAddress? then
      if Allowlisted(allow, hostname) || Allowlisted(allow, literal) || Allowed(kindOf, literal) then Ok(literal)
      else Err(Disallowed(hostname))
    else if lookup.None? || lookup.value == [] then Err(DnsFailed)
    else if Allowlisted(allow, hostname) || FirstRefused(kindOf, lookup.value).None? then Ok(lookup.value[0])
    else Err(Disallowed(FirstRefused(kindOf, lookup.value).value))
  }

  /** `kindOf` is the runtime's address test, and `lookup` what the resolver answers, if it does. The
      address returned is the one that is dialled: the literal itself, or the first one resolved. */
  method ResolveAndValidateHost(hostname: string, allow: seq<string>, kindOf: string -> Kind, lookup: Option<seq<string>>)
    returns (r: Result<string, Rejection>)
    ensures r == Resolved(hostname, allow, kindOf, lookup)
  {
    var literal := StripBrackets(hostname);
    if !kindOf(literal).NotAnAddress? {
      if !Allowlisted(allow, hostname) && !Allowlisted(allow, literal) && !Allowed(kindOf, literal) {
        return Err(Disallowed(hostname));
      }
      return Ok(literal);
    }
    if lookup.None? || lookup.value == [] {
      return Err(DnsFailed);
    }
    var addresses := lookup.value;
    if !Allowlisted(allow, hostname) {
      for i := 0 to |addresses|
        invariant FirstRefused(kindOf, addresses) == FirstRefused(kindOf, addresses[i..])
      {
        if !Allowed(kindOf, addresses[i]) {
          return Err(Disallowed(addresses[i]));
        }
      }
    }
    r := Ok(addresses[0]);
  }

  /** Which literal is dialled. With the brackets of an IPv6 literal off, an address is dialled exactly
      when an allowlist entry names it in either form, in any case, or it lies outside every denied block. */
  lemma LiteralDialledIff(hostname: string, literal: string, allow: seq<string>, kindOf: string -> Kind, lookup: Option<seq<string>>)
    requires hostname == "[" + literal + "]" || (hostname == literal && (hostname == "" || hostname[0] != '['))
    requires !kindOf(literal).NotAnAddress?
    ensures Resolved(hostname, allow, kindOf, lookup)
         == if || (exists i :: 0 <= i < |allow| && Lower(allow[i]) in {Lower(hostname), Lower(literal)})
               || OutsideDenied(literal, kindOf(literal))
            then Ok(literal) else Err(Disallowed(hostname))
  {
    BracketsAreStripped(literal, hostname);
    AllowedIsOutside(kindOf, literal);
  }

  ghost predicate AllOutside(kindOf: string -> Kind, addresses: seq<string>) {
    forall k :: 0 <= k < |addresses| ==> OutsideDenied(addresses[k], kindOf(addresses[k]))
  }

  lemma NoneRefusedIff(kindOf: string -> Kind, addresses: seq<string>)
    ensures FirstRefused(kindOf, addresses).None? <==> AllOutside(kindOf, addresses)
  {
    forall k | 0 <= k < |addresses|
      ensures Allowed(kindOf, addresses[k]) <==> OutsideDenied(addresses[k], kindOf(addresses[k]))
    {
      AllowedIsOutside(kindOf, addresses[k]);
    }
  }

  lemma {:induction false} RefusedIsDenied(kindOf: string -> Kind, addresses: seq<string>)
    requires FirstRefused(kindOf, addresses).Some?
    ensures var a := FirstRefused(kindOf, addresses).value;
            a in addresses && !OutsideDenied(a, kindOf(a))
  {
    if Allowed(kindOf, addresses[0]) {
      RefusedIsDenied(kindOf, addresses[1..]);
    } else {
      AllowedIsOutside(kindOf, addresses[0]);
    }
  }

  /** Which name is dialled: one that resolves, and either is named by an allowlist entry or has every
      address it resolves to outside every denied block. The first address is the one dialled, and a
      refusal speaks of an address of its own that is denied. */
  lemma NameDialledIff(hostname: string, allow: seq<string>, kindOf: string -> Kind, addresses: seq<string>)
    requires kindOf(StripBrackets(hostname)).NotAnAddress?
    ensures Resolved(hostname, allow, kindOf, None) == Err(DnsFailed) && Resolved(hostname, allow, kindOf, Some([])) == Err(DnsFailed)
    ensures addresses != [] ==>
              var r := Resolved(hostname, allow, kindOf, Some(addresses));
              if (exists i :: 0 <= i < |allow| && Lower(allow[i]) == Lower(hostname)) || AllOutside(kindOf, addresses)
              then r == Ok(addresses[0])
              else r.Err? && r.error.Disallowed? && r.error.address in addresses
                   && !OutsideDenied(r.error.address, kindOf(r.error.address))
  {
    NoneRefusedIff(kindOf, addresses);
    if FirstRefused(kindOf, addresses).Some? {
      RefusedIsDenied(kindOf, addresses);
    }
  }

  // ---------------------------------------------------------------- the capped body

  datatype BodyError = TooLarge | Broken

  function Concat(chunks: seq<seq<nat>>): seq<nat> {
    if chunks == [] then [] else Concat(chunks[..|chunks| - 1]) + chunks[|chunks| - 1]
  }

  /** Reads chunks until the body ends, breaks, or exceeds the cap; `taken` chunks were read. */
  method ReadCapped(chunks: seq<seq<nat>>, broken: bool, maxBytes: nat) returns (r: Result<seq<nat>, BodyError>, taken: nat)
    ensures |Concat(chunks)| <= maxBytes
            ==> taken == |chunks| && r == (if broken then Err(Broken) else Ok(Concat(chunks)))
    ensures |Concat(chunks)| > maxBytes
            ==> && r == Err(TooLarge) && 0 < taken <= |chunks|
                && |Concat(chunks[..taken - 1])| <= maxBytes < |Concat(chunks[..taken])|
  {
    var kept: seq<seq<nat>> := [];
    var total := 0;
    for i := 0 to |chunks|
      invariant Concat(kept) == Concat(chunks[..i]) && total == |Concat(kept)| <= maxBytes
    {
      var value := chunks[i];
      assert chunks[..i + 1][..i] == chunks[..i];
      if |value| > 0 {
        total := total + |value|;
        if total > maxBytes {
          ConcatGrows(chunks, i + 1);
          return Err(TooLarge), i + 1;
        }
        assert (kept + [value])[..|kept|] == kept;
        kept := kept + [value];
      }
    }
    assert chunks[..|chunks|] == chunks;
    taken := |chunks|;
    r := if broken then Err(Broken) else Ok(Concat(kept));
  }

  lemma {:induction false} ConcatGrows(chunks: seq<seq<nat>>, n: nat)
    requires n <= |chunks|
    ensures |Concat(chunks[..n])| <= |Concat(chunks)|
    decreases |chunks| - n
  {
    if n < |chunks| {
      ConcatGrows(chunks, n + 1);
      assert chunks[..n + 1][..n] == chunks[..n];
    } else {
      assert chunks[..n] == chunks;
    }
  }
}
