/** UUIDv7 text (packages/shared/src/ids.ts and the copy in packages/jobs/src/ids.ts; section 5.7 of
    RFC 9562). The random bytes are an argument. */
module Uuid {
  import opened Common
  import opened Text

  type Bytes = seq<nat>

  predicate AllBytes(b: Bytes) {
    forall i :: 0 <= i < |b| ==> b[i] < 256
  }

  // ---------------------------------------------------------------- the bytes

  /** `n` bytes of a number, the highest first. */
  function BigEndian(v: nat, n: nat): (b: Bytes)
    ensures |b| == n && AllBytes(b)
  {
    if n == 0 then [] else BigEndian(v / 256, n - 1) + [v % 256]
  }

  /** Version 7 in the high half of byte 6, the variant in the top two bits of byte 8; the bit
      operations of the original are remainders and sums here. */
  function UuidBytes(ts: nat, random: Bytes): (b: Bytes)
    requires |random| == 10 && AllBytes(random)
    ensures |b| == 16 && AllBytes(b) && b[..6] == BigEndian(ts, 6)
  {
    var raw := BigEndian(ts, 6) + random;
    raw[6 := 0x70 + raw[6] % 16][8 := 0x80 + raw[8] % 64]
  }

  function Hex(b: Bytes): (s: string)
    requires AllBytes(b)
    ensures |s| == 2 * |b| && AllHex(s)
    ensures forall i :: 0 <= i < |b| ==> s[2 * i] == HexChar(b[i] / 16) && s[2 * i + 1] == HexChar(b[i] % 16)
  {
    if b == [] then ""
    else
      var n := |b| - 1;
      Hex(b[..n]) + [HexChar(b[n] / 16), HexChar(b[n] % 16)]
  }

  function Format(hex: string): (s: string)
    requires |hex| == 32
    ensures |s| == 36
  {
    hex[..8] + "-" + hex[8..12] + "-" + hex[12..16] + "-" + hex[16..20] + "-" + hex[20..32]
  }

  function UuidText(ts: nat, random: Bytes): string
    requires |random| == 10 && AllBytes(random)
  {
    Format(Hex(UuidBytes(ts, random)))
  }

  // ---------------------------------------------------------------- the shared copy

  method WriteTimestampMs(bytes: array<nat>, ts: nat)
    requires bytes.Length == 16
    modifies bytes
    ensures bytes[..6] == BigEndian(ts, 6) && bytes[6..] == old(bytes[6..])
  {
    var remaining := ts;
    for i := 6 downto 0
      invariant BigEndian(ts, 6) == BigEndian(remaining, i) + bytes[i..6]
      invariant bytes[6..] == old(bytes[6..])
    {
      bytes[i] := remaining % 256;
      remaining := remaining / 256;
      assert bytes[i..6] == [bytes[i]] + bytes[i + 1..6];
    }
  }

  method ToHex(bytes: array<nat>) returns (out: string)
    requires AllBytes(bytes[..])
    ensures out == Hex(bytes[..])
  {
    out := "";
    for i := 0 to bytes.Length
      invariant AllBytes(bytes[..i]) && out == Hex(bytes[..i])
    {
      assert bytes[..i + 1][..i] == bytes[..i] && bytes[..][i] == bytes[i];
      out := out + [HexChar(bytes[i] / 16), HexChar(bytes[i] % 16)];
    }
    assert bytes[..bytes.Length] == bytes[..];
  }

  method FillRandom(bytes: array<nat>, random: Bytes)
    requires bytes.Length == 16 && |random| == 10
    modifies bytes
    ensures bytes[..6] == old(bytes[..6]) && bytes[6..] == random
  {
    for i := 0 to 10
      invariant bytes[..6] == old(bytes[..6]) && bytes[6..6 + i] == random[..i]
    {
      bytes[6 + i] := random[i];
      assert bytes[6..6 + i + 1] == bytes[6..6 + i] + [random[i]];
    }
    assert random[..10] == random;
  }

  method SharedUuidv7(ts: nat, random: Bytes) returns (s: string)
    requires |random| == 10 && AllBytes(random)
    ensures s == UuidText(ts, random)
  {
    var bytes := new nat[16](_ => 0);
    WriteTimestampMs(bytes, ts);
    FillRandom(bytes, random);
    assert bytes[..] == BigEndian(ts, 6) + random;
    bytes[6] := 0x70 + bytes[6] % 16;
    bytes[8] := 0x80 + bytes[8] % 64;
    assert bytes[..] == UuidBytes(ts, random);
    var hex := ToHex(bytes);
    s := Format(hex);
  }

  // ---------------------------------------------------------------- the jobs copy

  method JobsUuidv7(ts: nat, random: Bytes) returns (s: string)
    requires |random| == 10 && AllBytes(random)
    ensures s == UuidText(ts, random)
  {
    var bytes := new nat[16](_ => 0);
    var remaining := ts;
    for i := 6 downto 0
      invariant BigEndian(ts, 6) == BigEndian(remaining, i) + bytes[i..6]
    {
      bytes[i] := remaining % 256;
      remaining := remaining / 256;
      assert bytes[i..6] == [bytes[i]] + bytes[i + 1..6];
    }
    FillRandom(bytes, random);
    assert bytes[..] == BigEndian(ts, 6) + random;
    bytes[6] := 0x70 + bytes[6] % 16;
    bytes[8] := 0x80 + bytes[8] % 64;
    assert bytes[..] == UuidBytes(ts, random);
    var hex := ToHex(bytes);
    s := hex[..8] + "-" + hex[8..12] + "-" + hex[12..16] + "-" + hex[16..20] + "-" + hex[20..32];
  }

  // ---------------------------------------------------------------- reading one back

  function ByteValue(b: Bytes): nat {
    if b == [] then 0 else 256 * ByteValue(b[..|b| - 1]) + b[|b| - 1]
  }

  lemma {:induction false} BigEndianRoundTrip(v: nat, n: nat)
    requires v < Power(256, n)
    ensures ByteValue(BigEndian(v, n)) == v
  {
    if n > 0 {
      assert v / 256 < Power(256, n - 1);
      BigEndianRoundTrip(v / 256, n - 1);
      assert BigEndian(v, n)[..n - 1] == BigEndian(v / 256, n - 1);
    }
  }

  lemma {:induction false} HexOfBytes(b: Bytes)
    requires AllBytes(b)
    ensures HexValue(Hex(b)) == ByteValue(b)
  {
    if b != [] {
      var n := |b| - 1;
      HexOfBytes(b[..n]);
      var s, front := Hex(b), Hex(b[..n]);
      assert s[..|s| - 1] == front + [HexChar(b[n] / 16)];
      assert (front + [HexChar(b[n] / 16)])[..|front|] == front;
    }
  }

  /** The digits of the first 48 bits: the two groups before the version. */
  function TimestampDigits(uuid: string): string
    requires |uuid| == 36
  {
    uuid[..8] + uuid[9..13]
  }

  lemma TimestampIsFirst(hex: string)
    requires |hex| == 32
    ensures TimestampDigits(Format(hex)) == hex[..12]
  {
  }

  lemma {:induction false} HexOfPrefix(b: Bytes, n: nat)
    requires AllBytes(b) && n <= |b|
    ensures Hex(b)[..2 * n] == Hex(b[..n])
  {
    if n < |b| {
      HexOfPrefix(b[..|b| - 1], n);
      assert b[..|b| - 1][..n] == b[..n];
    } else {
      assert b[..n] == b;
    }
  }

  /** The text says when it was made. */
  lemma TimestampDecodes(ts: nat, random: Bytes)
    requires ts < Power(256, 6) && |random| == 10 && AllBytes(random)
    ensures AllHex(TimestampDigits(UuidText(ts, random)))
    ensures HexValue(TimestampDigits(UuidText(ts, random))) == ts
  {
    var b := UuidBytes(ts, random);
    TimestampIsFirst(Hex(b));
    HexOfPrefix(b, 6);
    HexOfBytes(BigEndian(ts, 6));
    BigEndianRoundTrip(ts, 6);
  }

  // ---------------------------------------------------------------- order

  ghost predicate BytesBelow(a: Bytes, b: Bytes) {
    exists k :: 0 <= k < |a| && k < |b| && a[..k] == b[..k] && a[k] < b[k]
  }

  /** The usual order of texts, decided at the first difference. */
  ghost predicate Below(a: string, b: string) {
    exists k :: DiffersAt(a, b, k)
  }

  predicate DiffersAt(a: string, b: string, k: nat) {
    k < |a| && k < |b| && a[..k] == b[..k] && a[k] < b[k]
  }

  lemma QuotientIsBounded(w: nat, n: nat)
    requires w < Power(256, n) && w > 0
    ensures n > 0 && w / 256 < Power(256, n - 1)
  {
  }

  lemma BelowBeforeLast(p: Bytes, q: Bytes, x: nat, y: nat)
    requires BytesBelow(p, q) || (p == q && x < y)
    ensures BytesBelow(p + [x], q + [y])
  {
    if BytesBelow(p, q) {
      var k :| 0 <= k < |p| && k < |q| && p[..k] == q[..k] && p[k] < q[k];
      assert (p + [x])[..k] == p[..k] && (q + [y])[..k] == q[..k];
    } else {
      assert (p + [x])[..|p|] == p && (q + [y])[..|q|] == q;
    }
  }

  lemma {:induction false} EarlierIsBelow(v: nat, w: nat, n: nat)
    requires v < w && w < Power(256, n)
    ensures BytesBelow(BigEndian(v, n), BigEndian(w, n))
  {
    QuotientIsBounded(w, n);
    if v / 256 < w / 256 {
      EarlierIsBelow(v / 256, w / 256, n - 1);
    }
    BelowBeforeLast(BigEndian(v / 256, n - 1), BigEndian(w / 256, n - 1), v % 256, w % 256);
  }

  lemma HexCharOrder(x: nat, y: nat)
    requires x < y < 16
    ensures HexChar(x) < HexChar(y)
  {
  }

  lemma DigitsDiffer(s: string, t: string, k: nat) returns (h: nat)
    requires k + 1 < |s| && k + 1 < |t| && s[..k] == t[..k]
    requires s[k] < t[k] || (s[k] == t[k] && s[k + 1] < t[k + 1])
    ensures h < k + 2 && DiffersAt(s, t, h)
  {
    if s[k] < t[k] {
      h := k;
    } else {
      h := k + 1;
      assert s[..h] == s[..k] + [s[k]] && t[..h] == t[..k] + [t[k]];
    }
  }

  lemma DigitsAt(a: Bytes, i: nat)
    requires AllBytes(a) && i < |a|
    ensures Hex(a)[2 * i] == HexChar(a[i] / 16) && Hex(a)[2 * i + 1] == HexChar(a[i] % 16)
  {
  }

  lemma SmallerByteSortsFirst(x: nat, y: nat)
    requires x < y < 256
    ensures HexChar(x / 16) < HexChar(y / 16) || (HexChar(x / 16) == HexChar(y / 16) && HexChar(x % 16) < HexChar(y % 16))
  {
    if x / 16 < y / 16 {
      HexCharOrder(x / 16, y / 16);
    } else {
      HexCharOrder(x % 16, y % 16);
    }
  }

  lemma HexDiffers(a: Bytes, b: Bytes, k: nat) returns (h: nat)
    requires AllBytes(a) && AllBytes(b) && k < |a| && k < |b| && a[..k] == b[..k] && a[k] < b[k]
    ensures h < 2 * k + 2 && DiffersAt(Hex(a), Hex(b), h)
  {
    HexOfPrefix(a, k);
    HexOfPrefix(b, k);
    DigitsAt(a, k);
    DigitsAt(b, k);
    SmallerByteSortsFirst(a[k], b[k]);
    h := DigitsDiffer(Hex(a), Hex(b), 2 * k);
  }

  /** Where each digit ends up. */
  lemma FormatPlaces(hex: string)
    requires |hex| == 32
    ensures var s := Format(hex);
            && s[8] == '-' && s[13] == '-' && s[18] == '-' && s[23] == '-'
            && (forall i :: 0 <= i < 8 ==> s[i] == hex[i])
            && (forall i :: 9 <= i < 13 ==> s[i] == hex[i - 1])
            && (forall i :: 14 <= i < 18 ==> s[i] == hex[i - 2])
            && (forall i :: 19 <= i < 23 ==> s[i] == hex[i - 3])
            && (forall i :: 24 <= i < 36 ==> s[i] == hex[i - 4])
  {
  }

  lemma FormatDiffers(a: string, b: string, h: nat)
    requires |a| == 32 && |b| == 32 && h < 12 && DiffersAt(a, b, h)
    ensures DiffersAt(Format(a), Format(b), if h < 8 then h else h + 1)
  {
    var k := if h < 8 then h else h + 1;
    FormatPlaces(a);
    FormatPlaces(b);
    assert forall i :: 0 <= i < h ==> a[i] == a[..h][i] == b[..h][i] == b[i];
    assert forall i :: 0 <= i < k ==> Format(a)[i] == Format(b)[i];
  }

  /** A smaller timestamp gives a smaller text, whatever the random bytes. */
  lemma EarlierSortsFirst(ts: nat, later: nat, random: Bytes, other: Bytes)
    requires ts < later < Power(256, 6)
    requires |random| == 10 && AllBytes(random) && |other| == 10 && AllBytes(other)
    ensures Below(UuidText(ts, random), UuidText(later, other))
  {
    EarlierIsBelow(ts, later, 6);
    var p, q := BigEndian(ts, 6), BigEndian(later, 6);
    var k :| 0 <= k < |p| && k < |q| && p[..k] == q[..k] && p[k] < q[k];
    var a, b := UuidBytes(ts, random), UuidBytes(later, other);
    assert a[..k] == a[..6][..k] && b[..k] == b[..6][..k];
    assert a[k] == a[..6][k] && b[k] == b[..6][k];
    var h := HexDiffers(a, b, k);
    FormatDiffers(Hex(a), Hex(b), h);
  }

  // ---------------------------------------------------------------- randomness

  lemma HexTellsBytes(a: Bytes, b: Bytes)
    requires AllBytes(a) && AllBytes(b) && |a| == |b| && Hex(a) == Hex(b)
    ensures a == b
  {
    forall i | 0 <= i < |a|
      ensures a[i] == b[i]
    {
      DigitsAt(a, i);
      DigitsAt(b, i);
      DigitsTellByte(a[i], b[i]);
    }
  }

  lemma DigitsTellByte(x: nat, y: nat)
    requires x < 256 && y < 256 && HexChar(x / 16) == HexChar(y / 16) && HexChar(x % 16) == HexChar(y % 16)
    ensures x == y
  {
    assert HexDigit(HexChar(x / 16)) == x / 16 && HexDigit(HexChar(y / 16)) == y / 16;
    assert HexDigit(HexChar(x % 16)) == x % 16 && HexDigit(HexChar(y % 16)) == y % 16;
  }

  lemma FormatTellsDigits(a: string, b: string)
    requires |a| == 32 && |b| == 32 && Format(a) == Format(b)
    ensures a == b
  {
    FormatPlaces(a);
    FormatPlaces(b);
    forall i | 0 <= i < 32
      ensures a[i] == b[i]
    {
      var k := if i < 8 then i else if i < 12 then i + 1 else if i < 16 then i + 2 else if i < 20 then i + 3 else i + 4;
      assert Format(a)[k] == a[i] && Format(b)[k] == b[i];
    }
  }

  /** The two bytes that carry the version and the variant keep their low bits; the others are whole. */
  predicate AgreeOnFreeBits(r: Bytes, q: Bytes)
    requires |r| == 10 && |q| == 10
  {
    && r[0] % 16 == q[0] % 16 && r[2] % 64 == q[2] % 64
    && r[1] == q[1] && r[3] == q[3] && r[4] == q[4] && r[5] == q[5] && r[6] == q[6] && r[7] == q[7]
    && r[8] == q[8] && r[9] == q[9]
  }

  /** Within one millisecond two texts are the same exactly when their random bytes agree on the 74
      bits that are neither version nor variant. */
  lemma SameTextIffSameRandomness(ts: nat, r: Bytes, q: Bytes)
    requires |r| == 10 && AllBytes(r) && |q| == 10 && AllBytes(q)
    ensures UuidText(ts, r) == UuidText(ts, q) <==> AgreeOnFreeBits(r, q)
  {
    var a, b := UuidBytes(ts, r), UuidBytes(ts, q);
    if UuidText(ts, r) == UuidText(ts, q) {
      FormatTellsDigits(Hex(a), Hex(b));
      HexTellsBytes(a, b);
      SameBytesAgree(ts, r, q);
    } else if AgreeOnFreeBits(r, q) {
      AgreeingBytesAreSame(ts, r, q);
    }
  }

  lemma SameBytesAgree(ts: nat, r: Bytes, q: Bytes)
    requires |r| == 10 && AllBytes(r) && |q| == 10 && AllBytes(q) && UuidBytes(ts, r) == UuidBytes(ts, q)
    ensures AgreeOnFreeBits(r, q)
  {
    var a, b := UuidBytes(ts, r), UuidBytes(ts, q);
    assert forall i :: 6 <= i < 16 ==> a[i] == b[i];
    assert a[6] == 0x70 + r[0] % 16 && a[7] == r[1] && a[8] == 0x80 + r[2] % 64 && a[9] == r[3];
    assert b[6] == 0x70 + q[0] % 16 && b[7] == q[1] && b[8] == 0x80 + q[2] % 64 && b[9] == q[3];
    assert a[10] == r[4] && a[11] == r[5] && a[12] == r[6] && a[13] == r[7] && a[14] == r[8] && a[15] == r[9];
    assert b[10] == q[4] && b[11] == q[5] && b[12] == q[6] && b[13] == q[7] && b[14] == q[8] && b[15] == q[9];
  }

  lemma AgreeingBytesAreSame(ts: nat, r: Bytes, q: Bytes)
    requires |r| == 10 && AllBytes(r) && |q| == 10 && AllBytes(q) && AgreeOnFreeBits(r, q)
    ensures UuidBytes(ts, r) == UuidBytes(ts, q)
  {
    assert r[3..] == q[3..];
  }

  // ---------------------------------------------------------------- shape

  /** Any version from 1 to 8 and the RFC's variant, in either case. */
  predicate IsUuid(s: string) {
    && |s| == 36
    && s[8] == '-' && s[13] == '-' && s[18] == '-' && s[23] == '-'
    && (forall i :: 0 <= i < 36 && i !in {8, 13, 18, 23} ==> IsHex(LowerChar(s[i])))
    && '1' <= s[14] <= '8'
    && LowerChar(s[19]) in {'8', '9', 'a', 'b'}
  }

  /** What is generated has version 7 and the RFC's variant, and passes the repository's own check. */
  lemma GeneratedIsVersion7(ts: nat, random: Bytes)
    requires |random| == 10 && AllBytes(random)
    ensures var s := UuidText(ts, random); IsUuid(s) && s[14] == '7' && s[19] in {'8', '9', 'a', 'b'}
  {
    var b := UuidBytes(ts, random);
    var hex := Hex(b);
    FormatPlaces(hex);
    assert b[6] / 16 == 7;
    assert hex[2 * 6] == HexChar(7);
    assert 8 <= b[8] / 16 <= 11;
    assert hex[2 * 8] == HexChar(b[8] / 16);
    forall c | IsHex(c)
      ensures LowerChar(c) == c
    {
    }
  }

  predicate HexDigits(t: string, n: nat) {
    |t| == n && forall i :: 0 <= i < n ==> '0' <= t[i] <= '9' || 'a' <= t[i] <= 'f' || 'A' <= t[i] <= 'F'
  }

  /** Five groups of hexadecimal digits in either case, the third of version 1 to 8, the fourth of the
      RFC's variant. */
  predicate UuidForm(s: string, a: string, b: string, c: string, d: string, e: string) {
    && s == a + "-" + b + "-" + c + "-" + d + "-" + e
    && HexDigits(a, 8) && HexDigits(b, 4) && HexDigits(c, 4) && HexDigits(d, 4) && HexDigits(e, 12)
    && '1' <= c[0] <= '8'
    && (d[0] == '8' || d[0] == '9' || d[0] == 'a' || d[0] == 'A' || d[0] == 'b' || d[0] == 'B')
  }

  lemma FiveGroups(s: string)
    requires |s| == 36 && s[8] == '-' && s[13] == '-' && s[18] == '-' && s[23] == '-'
    ensures s == s[..8] + "-" + s[9..13] + "-" + s[14..18] + "-" + s[19..23] + "-" + s[24..]
  {
    assert s[8..9] == "-" && s[13..14] == "-" && s[18..19] == "-" && s[23..24] == "-";
    assert s == s[..8] + s[8..9] + s[9..13] + s[13..14] + s[14..18] + s[18..19] + s[19..23] + s[23..24] + s[24..];
  }

  lemma GroupPlaces(s: string, a: string, b: string, c: string, d: string, e: string)
    requires s == a + "-" + b + "-" + c + "-" + d + "-" + e
    requires |a| == 8 && |b| == |c| == |d| == 4 && |e| == 12
    ensures |s| == 36 && s[8] == '-' && s[13] == '-' && s[18] == '-' && s[23] == '-'
    ensures s[..8] == a && s[9..13] == b && s[14..18] == c && s[19..23] == d && s[24..] == e
  {
    var p, q, r := a + "-" + b, a + "-" + b + "-" + c, a + "-" + b + "-" + c + "-" + d;
    assert s[..8] == a && s[..13] == p && s[..18] == q && s[..23] == r;
  }

  lemma HexEitherCase(c: char)
    ensures IsHex(LowerChar(c)) <==> '0' <= c <= '9' || 'a' <= c <= 'f' || 'A' <= c <= 'F'
    ensures LowerChar(c) in {'8', '9', 'a', 'b'} <==> c == '8' || c == '9' || c == 'a' || c == 'A' || c == 'b' || c == 'B'
  {
  }

  lemma SliceDigits(s: string, i: nat, j: nat)
    requires i <= j <= |s|
    ensures HexDigits(s[i..j], j - i) <==> forall k :: i <= k < j ==> IsHex(LowerChar(s[k]))
  {
    forall k | i <= k < j
      ensures IsHex(LowerChar(s[k])) <==> '0' <= s[k] <= '9' || 'a' <= s[k] <= 'f' || 'A' <= s[k] <= 'F'
    {
      HexEitherCase(s[k]);
    }
    assert forall k :: i <= k < j ==> s[k] == s[i..j][k - i];
  }

  lemma GroupsAreHex(s: string)
    requires |s| == 36
    ensures (forall i :: 0 <= i < 36 && i !in {8, 13, 18, 23} ==> IsHex(LowerChar(s[i])))
       <==> HexDigits(s[..8], 8) && HexDigits(s[9..13], 4) && HexDigits(s[14..18], 4) && HexDigits(s[19..23], 4)
            && HexDigits(s[24..], 12)
  {
    SliceDigits(s, 0, 8);
    SliceDigits(s, 9, 13);
    SliceDigits(s, 14, 18);
    SliceDigits(s, 19, 23);
    SliceDigits(s, 24, 36);
    assert s[0..8] == s[..8] && s[24..36] == s[24..];
  }

  /** What the check accepts, exactly. */
  lemma IsUuidIff(s: string)
    ensures IsUuid(s) <==> exists a, b, c, d, e :: UuidForm(s, a, b, c, d, e)
  {
    if IsUuid(s) {
      FiveGroups(s);
      GroupsAreHex(s);
      HexEitherCase(s[19]);
      assert s[14..18][0] == s[14] && s[19..23][0] == s[19];
      assert UuidForm(s, s[..8], s[9..13], s[14..18], s[19..23], s[24..]);
    }
    if a, b, c, d, e :| UuidForm(s, a, b, c, d, e) {
      GroupPlaces(s, a, b, c, d, e);
      GroupsAreHex(s);
      HexEitherCase(s[19]);
      assert s[14] == s[14..18][0] && s[19] == s[19..23][0];
    }
  }
}
