/** Sealed link tokens (packages/secrets/src/link-sealing.ts). The cipher is an arbitrary pair under the
    law that opening undoes sealing; base64url (section 5 of RFC 4648) and UTF-8 are written out. Text is a
    sequence of UTF-16 code units, as JavaScript has it. */
module LinkSealing {
  import opened Common
  import opened Text

  // ---------------------------------------------------------------- base64url

  type Bytes = seq<nat>

  predicate AllBytes(b: Bytes) {
    forall i :: 0 <= i < |b| ==> b[i] < 256
  }

  function Encode64(v: nat): (c: char)
    requires v < 64
    ensures Decode64(c) == Some(v) && c != '.'
  {
    if v < 26 then (v + 'A' as int) as char
    else if v < 52 then (v - 26 + 'a' as int) as char
    else if v < 62 then (v - 52 + '0' as int) as char
    else if v == 62 then '-'
    else '_'
  }

  /** The plain base64 characters for the last two values are read as well. */
  function Decode64(c: char): (v: Option<nat>)
    ensures v.Some? ==> v.value < 64
  {
    if 'A' <= c <= 'Z' then Some(c as int - 'A' as int)
    else if 'a' <= c <= 'z' then Some(c as int - 'a' as int + 26)
    else if '0' <= c <= '9' then Some(c as int - '0' as int + 52)
    else if c == '-' || c == '+' then Some(62)
    else if c == '_' || c == '/' then Some(63)
    else None
  }

  predicate AllSextets(v: seq<nat>) {
    forall i :: 0 <= i < |v| ==> v[i] < 64
  }

  // The four sextets of three bytes, and the three bytes of four sextets.
  function First(x: nat): nat { x / 4 }
  function Second(x: nat, y: nat): nat { x % 4 * 16 + y / 16 }
  function Third(y: nat, z: nat): nat { y % 16 * 4 + z / 64 }
  function Fourth(z: nat): nat { z % 64 }
  function ByteX(p: nat, q: nat): nat { p * 4 + q / 16 }
  function ByteY(q: nat, r: nat): nat { q % 16 * 16 + r / 4 }
  function ByteZ(r: nat, s: nat): nat { r % 4 * 64 + s }

  /** Three bytes make four sextets; one or two bytes at the end make two or three. */
  function Unpacked(b: Bytes): (v: seq<nat>)
    requires AllBytes(b)
    ensures AllSextets(v)
  {
    if |b| == 0 then []
    else if |b| == 1 then [First(b[0]), Second(b[0], 0)]
    else if |b| == 2 then [First(b[0]), Second(b[0], b[1]), Third(b[1], 0)]
    else [First(b[0]), Second(b[0], b[1]), Third(b[1], b[2]), Fourth(b[2])] + Unpacked(b[3..])
  }

  function Chars(v: seq<nat>): (s: string)
    requires AllSextets(v)
    ensures Free(s, '.')
  {
    if v == [] then "" else [Encode64(v[0])] + Chars(v[1..])
  }

  function ToBase64Url(b: Bytes): (s: string)
    requires AllBytes(b)
    ensures Free(s, '.')
  {
    Chars(Unpacked(b))
  }

  /** The six-bit values of the characters that have one; the others are skipped. */
  function Sextets(s: string): (v: seq<nat>)
    ensures AllSextets(v)
  {
    if s == "" then []
    else
      match Decode64(s[0])
      case None => Sextets(s[1..])
      case Some(x) => [x] + Sextets(s[1..])
  }

  function Packed(v: seq<nat>): (b: Bytes)
    requires AllSextets(v)
    ensures AllBytes(b)
  {
    if |v| < 2 then []
    else if |v| == 2 then [ByteX(v[0], v[1])]
    else if |v| == 3 then [ByteX(v[0], v[1]), ByteY(v[1], v[2])]
    else [ByteX(v[0], v[1]), ByteY(v[1], v[2]), ByteZ(v[2], v[3])] + Packed(v[4..])
  }

  function FromBase64Url(s: string): (b: Bytes)
    ensures AllBytes(b)
  {
    Packed(Sextets(s))
  }

  lemma {:induction false} CharsRoundTrip(v: seq<nat>)
    requires AllSextets(v)
    ensures Sextets(Chars(v)) == v
  {
    if v != [] {
      CharsRoundTrip(v[1..]);
      assert Chars(v)[1..] == Chars(v[1..]);
    }
  }

  lemma FirstByte(x: nat, y: nat)
    requires x < 256 && y < 256
    ensures ByteX(First(x), Second(x, y)) == x
  {
    assert (x % 4 * 16 + y / 16) / 16 == x % 4;
  }

  lemma SecondByte(x: nat, y: nat, z: nat)
    requires x < 256 && y < 256 && z < 256
    ensures ByteY(Second(x, y), Third(y, z)) == y
  {
    assert (x % 4 * 16 + y / 16) % 16 == y / 16 && (y % 16 * 4 + z / 64) / 4 == y % 16;
  }

  lemma ThirdByte(y: nat, z: nat)
    requires y < 256 && z < 256
    ensures ByteZ(Third(y, z), Fourth(z)) == z
  {
    assert (y % 16 * 4 + z / 64) % 4 == z / 64;
  }

  lemma PackedFour(p: nat, q: nat, r: nat, s: nat, rest: seq<nat>)
    requires p < 64 && q < 64 && r < 64 && s < 64 && AllSextets(rest)
    ensures Packed([p, q, r, s] + rest) == [ByteX(p, q), ByteY(q, r), ByteZ(r, s)] + Packed(rest)
  {
    assert ([p, q, r, s] + rest)[4..] == rest;
  }

  lemma OneByte(x: nat)
    requires x < 256
    ensures AllSextets([First(x), Second(x, 0)]) && Packed([First(x), Second(x, 0)]) == [x]
  {
    FirstByte(x, 0);
  }

  lemma TwoBytes(x: nat, y: nat)
    requires x < 256 && y < 256
    ensures AllSextets([First(x), Second(x, y), Third(y, 0)]) && Packed([First(x), Second(x, y), Third(y, 0)]) == [x, y]
  {
    FirstByte(x, y);
    SecondByte(x, y, 0);
  }

  lemma ShortPacking(b: Bytes)
    requires AllBytes(b) && 1 <= |b| <= 2
    ensures Packed(Unpacked(b)) == b
  {
    if |b| == 1 {
      assert b == [b[0]];
      OneByte(b[0]);
    } else {
      assert b == [b[0], b[1]];
      TwoBytes(b[0], b[1]);
    }
  }

  lemma LongPacking(b: Bytes)
    requires AllBytes(b) && |b| >= 3
    ensures Packed(Unpacked(b)) == [b[0], b[1], b[2]] + Packed(Unpacked(b[3..]))
  {
    PackedFour(First(b[0]), Second(b[0], b[1]), Third(b[1], b[2]), Fourth(b[2]), Unpacked(b[3..]));
    FirstByte(b[0], b[1]);
    SecondByte(b[0], b[1], b[2]);
    ThirdByte(b[1], b[2]);
  }

  lemma {:induction false} PackingRoundTrip(b: Bytes)
    requires AllBytes(b)
    ensures Packed(Unpacked(b)) == b
  {
    if 1 <= |b| <= 2 {
      ShortPacking(b);
    } else if |b| >= 3 {
      PackingRoundTrip(b[3..]);
      LongPacking(b);
      assert b == [b[0], b[1], b[2]] + b[3..];
    }
  }

  lemma Base64UrlRoundTrip(b: Bytes)
    requires AllBytes(b)
    ensures FromBase64Url(ToBase64Url(b)) == b
  {
    CharsRoundTrip(Unpacked(b));
    PackingRoundTrip(b);
  }

  // ---------------------------------------------------------------- text as bytes

  type Unit = u: nat | u < 0x10000

  type Units = seq<Unit>

  predicate IsHigh(u: nat) {
    0xD800 <= u < 0xDC00
  }

  predicate IsLow(u: nat) {
    0xDC00 <= u < 0xE000
  }

  /** A code point that is no surrogate. */
  predicate IsScalar(v: nat) {
    v < 0x11_0000 && !IsHigh(v) && !IsLow(v)
  }

  /** Surrogates come in pairs. */
  predicate WellFormed(t: Units) {
    if t == [] then true
    else if |t| >= 2 && IsHigh(t[0]) && IsLow(t[1]) then WellFormed(t[2..])
    else !IsHigh(t[0]) && !IsLow(t[0]) && WellFormed(t[1..])
  }

  /** Every lone surrogate replaced. */
  function Repaired(t: Units): (r: Units)
    ensures |r| == |t|
  {
    if t == [] then []
    else if |t| >= 2 && IsHigh(t[0]) && IsLow(t[1]) then [t[0], t[1]] + Repaired(t[2..])
    else if IsHigh(t[0]) || IsLow(t[0]) then [0xFFFD] + Repaired(t[1..])
    else [t[0]] + Repaired(t[1..])
  }

  lemma {:induction false} RepairedIff(t: Units)
    ensures Repaired(t) == t <==> WellFormed(t)
  {
    if t == [] {
    } else if |t| >= 2 && IsHigh(t[0]) && IsLow(t[1]) {
      RepairedIff(t[2..]);
      assert t == [t[0], t[1]] + t[2..];
      assert Repaired(t)[2..] == Repaired(t[2..]);
    } else {
      RepairedIff(t[1..]);
      assert t == [t[0]] + t[1..];
      assert Repaired(t)[1..] == Repaired(t[1..]);
    }
  }

  function PairOf(high: nat, low: nat): (v: nat)
    requires IsHigh(high) && IsLow(low)
    ensures IsScalar(v) && v >= 0x1_0000
  {
    0x1_0000 + (high - 0xD800) * 0x400 + (low - 0xDC00)
  }

  function UnitsOf(v: nat): Units
    requires IsScalar(v)
  {
    if v < 0x1_0000 then [v] else [0xD800 + (v - 0x1_0000) / 0x400, 0xDC00 + (v - 0x1_0000) % 0x400]
  }

  lemma PairReadsBack(high: Unit, low: Unit)
    requires IsHigh(high) && IsLow(low)
    ensures UnitsOf(PairOf(high, low)) == [high, low]
  {
  }

  /** The bytes of one code point (section 3 of RFC 3629). */
  function BytesOf(v: nat): (b: Bytes)
    requires IsScalar(v)
    ensures AllBytes(b)
  {
    if v < 0x80 then [v]
    else if v < 0x800 then [0xC0 + v / 64, 0x80 + v % 64]
    else if v < 0x1_0000 then [0xE0 + v / 4096, 0x80 + v / 64 % 64, 0x80 + v % 64]
    else [0xF0 + v / 0x4_0000, 0x80 + v / 4096 % 64, 0x80 + v / 64 % 64, 0x80 + v % 64]
  }

  function Utf8(t: Units): (b: Bytes)
    ensures AllBytes(b)
  {
    if t == [] then []
    else if |t| >= 2 && IsHigh(t[0]) && IsLow(t[1]) then BytesOf(PairOf(t[0], t[1])) + Utf8(t[2..])
    else if IsHigh(t[0]) || IsLow(t[0]) then BytesOf(0xFFFD) + Utf8(t[1..])
    else BytesOf(t[0]) + Utf8(t[1..])
  }

  /** How many bytes have to follow this one. */
  function Needs(lead: nat): (n: nat)
    ensures n <= 3
  {
    if 0xC2 <= lead < 0xE0 then 1 else if 0xE0 <= lead < 0xF0 then 2 else if 0xF0 <= lead < 0xF5 then 3 else 0
  }

  predicate IsTrail(x: nat) {
    0x80 <= x < 0xC0
  }

  /** The second byte excludes overlong forms, surrogates and what is past the last code point. */
  predicate IsSecond(lead: nat, x: nat) {
    && IsTrail(x) && (lead == 0xE0 ==> x >= 0xA0) && (lead == 0xED ==> x < 0xA0)
    && (lead == 0xF0 ==> x >= 0x90) && (lead == 0xF4 ==> x < 0x90)
  }

  /** How many of the bytes that have to follow are there. */
  function Follow(b: Bytes): (n: nat)
    requires b != []
    ensures n <= Needs(b[0]) && n < |b|
  {
    var need := Needs(b[0]);
    if need == 0 || |b| < 2 || !IsSecond(b[0], b[1]) then 0
    else if need == 1 || |b| < 3 || !IsTrail(b[2]) then 1
    else if need == 2 || |b| < 4 || !IsTrail(b[3]) then 2
    else 3
  }

  predicate HeadIsWellFormed(b: Bytes) {
    b != [] && (b[0] < 0x80 || (Needs(b[0]) > 0 && Follow(b) == Needs(b[0])))
  }

  /** The code point a well-formed sequence spells. */
  function Spelled(b: Bytes): (v: nat)
    requires HeadIsWellFormed(b)
    ensures IsScalar(v)
  {
    if b[0] < 0x80 then b[0]
    else
      match Needs(b[0])
      case 1 => (b[0] - 0xC0) * 64 + (b[1] - 0x80)
      case 2 => (b[0] - 0xE0) * 4096 + (b[1] - 0x80) * 64 + (b[2] - 0x80)
      case _ => (b[0] - 0xF0) * 0x4_0000 + (b[1] - 0x80) * 4096 + (b[2] - 0x80) * 64 + (b[3] - 0x80)
  }

  /** A malformed sequence is replaced as far as it could have been well-formed. */
  function FromUtf8(b: Bytes): Units {
    if b == [] then []
    else if HeadIsWellFormed(b)
    then UnitsOf(Spelled(b)) + FromUtf8(b[1 + (if b[0] < 0x80 then 0 else Follow(b))..])
    else [0xFFFD] + FromUtf8(b[1 + Follow(b)..])
  }

  lemma SpelledBack(v: nat, rest: Bytes)
    requires IsScalar(v)
    ensures var b := BytesOf(v) + rest;
            && (b[0] < 0x80 <==> v < 0x80)
            && (v >= 0x80 ==> Needs(b[0]) > 0 && Follow(b) == Needs(b[0]) == |BytesOf(v)| - 1)
            && Spelled(b) == v
  {
    if v < 0x80 {
    } else if v < 0x800 {
    } else if v < 0x1_0000 {
      ThreeSpell(v);
    } else {
      FourSpell(v);
    }
  }

  lemma ThreeSpell(v: nat)
    requires 0x800 <= v < 0x1_0000 && IsScalar(v)
    ensures v == v / 4096 * 4096 + v / 64 % 64 * 64 + v % 64
    ensures IsSecond(0xE0 + v / 4096, 0x80 + v / 64 % 64)
  {
    assert v / 64 == v / 4096 * 64 + v / 64 % 64;
  }

  lemma FourSpell(v: nat)
    requires 0x1_0000 <= v < 0x11_0000
    ensures v == v / 0x4_0000 * 0x4_0000 + v / 4096 % 64 * 4096 + v / 64 % 64 * 64 + v % 64
    ensures IsSecond(0xF0 + v / 0x4_0000, 0x80 + v / 4096 % 64)
  {
    assert v / 64 == v / 4096 * 64 + v / 64 % 64;
    assert v / 4096 == v / 0x4_0000 * 64 + v / 4096 % 64;
  }

  lemma HeadReadsBack(v: nat, rest: Bytes)
    requires IsScalar(v)
    ensures FromUtf8(BytesOf(v) + rest) == UnitsOf(v) + FromUtf8(rest)
  {
    SpelledBack(v, rest);
    var b := BytesOf(v) + rest;
    assert b[|BytesOf(v)|..] == rest;
  }

  /** Text written as UTF-8 and read back is the text with lone surrogates replaced. */
  lemma {:induction false} Utf8RoundTrip(t: Units)
    ensures FromUtf8(Utf8(t)) == Repaired(t)
  {
    if t == [] {
    } else if |t| >= 2 && IsHigh(t[0]) && IsLow(t[1]) {
      Utf8RoundTrip(t[2..]);
      HeadReadsBack(PairOf(t[0], t[1]), Utf8(t[2..]));
      PairReadsBack(t[0], t[1]);
    } else if IsHigh(t[0]) || IsLow(t[0]) {
      Utf8RoundTrip(t[1..]);
      HeadReadsBack(0xFFFD, Utf8(t[1..]));
    } else {
      Utf8RoundTrip(t[1..]);
      HeadReadsBack(t[0], Utf8(t[1..]));
    }
  }

  // ---------------------------------------------------------------- sealing

  const IV_BYTES := 12
  const TAG_BYTES := 16

  /** The cipher under a secret. */
  datatype Crypto = Crypto(
    seal: (string, Bytes, Bytes) -> (Bytes, Bytes),
    open: (string, Bytes, Bytes, Bytes) -> Option<Bytes>)

  ghost predicate Lawful(x: Crypto) {
    forall key, iv, plain ::
      && AllBytes(x.seal(key, iv, plain).0) && AllBytes(x.seal(key, iv, plain).1)
      && |x.seal(key, iv, plain).1| == TAG_BYTES
      && x.open(key, iv, x.seal(key, iv, plain).0, x.seal(key, iv, plain).1) == Some(plain)
  }

  datatype SealError = Malformed | NotAuthentic

  function SealLinkToken(x: Crypto, secret: string, iv: Bytes, plain: Units): string
    requires Lawful(x) && AllBytes(iv)
  {
    var (ciphertext, tag) := x.seal(secret, iv, Utf8(plain));
    Join(["v1", ToBase64Url(iv), ToBase64Url(ciphertext), ToBase64Url(tag)], '.')
  }

  function UnsealLinkToken(x: Crypto, secret: string, sealed: string): Result<Units, SealError> {
    var parts := Split(sealed, '.');
    if |parts| != 4 || parts[0] != "v1" then Err(Malformed)
    else
      var iv, ciphertext, tag := FromBase64Url(parts[1]), FromBase64Url(parts[2]), FromBase64Url(parts[3]);
      if |iv| != IV_BYTES || |tag| != TAG_BYTES then Err(Malformed)
      else
        match x.open(secret, iv, ciphertext, tag)
        case None => Err(NotAuthentic)
        case Some(plain) => Ok(FromUtf8(plain))
  }

  /** Unsealing a sealed token gives the text back with lone surrogates replaced, so exactly the text
      when it has none, under every secret and every IV. */
  lemma UnsealSealed(x: Crypto, secret: string, iv: Bytes, plain: Units)
    requires Lawful(x) && AllBytes(iv) && |iv| == IV_BYTES
    ensures UnsealLinkToken(x, secret, SealLinkToken(x, secret, iv, plain)) == Ok(Repaired(plain))
    ensures UnsealLinkToken(x, secret, SealLinkToken(x, secret, iv, plain)) == Ok(plain) <==> WellFormed(plain)
  {
    var (ciphertext, tag) := x.seal(secret, iv, Utf8(plain));
    var parts := ["v1", ToBase64Url(iv), ToBase64Url(ciphertext), ToBase64Url(tag)];
    assert AllFree(parts, '.');
    SplitJoin(parts, '.');
    Base64UrlRoundTrip(iv);
    Base64UrlRoundTrip(ciphertext);
    Base64UrlRoundTrip(tag);
    Utf8RoundTrip(plain);
    RepairedIff(plain);
  }

  // ---------------------------------------------------------------- tokens of other makes

  lemma FourPieces(v: string, iv: string, ciphertext: string, tag: string)
    requires Free(v, '.') && Free(iv, '.') && Free(ciphertext, '.') && Free(tag, '.')
    ensures Split(v + "." + iv + "." + ciphertext + "." + tag, '.') == [v, iv, ciphertext, tag]
  {
    SplitFree(v, '.');
    SplitFree(iv, '.');
    SplitFree(ciphertext, '.');
    SplitFree(tag, '.');
    SplitConcat(v, iv, '.');
    SplitConcat(v + "." + iv, ciphertext, '.');
    SplitConcat(v + "." + iv + "." + ciphertext, tag, '.');
  }

  /** What becomes of any token of four pieces, whoever made it: malformed unless it is of version 1 with
      an IV of 12 bytes and a tag of 16, not authentic when the cipher does not open it under this
      secret, and otherwise the text inside. */
  lemma UnsealsIff(x: Crypto, secret: string, v: string, iv: string, ciphertext: string, tag: string)
    requires Free(v, '.') && Free(iv, '.') && Free(ciphertext, '.') && Free(tag, '.')
    ensures UnsealLinkToken(x, secret, v + "." + iv + "." + ciphertext + "." + tag)
         == if v != "v1" || |FromBase64Url(iv)| != 12 || |FromBase64Url(tag)| != 16 then Err(Malformed)
            else match x.open(secret, FromBase64Url(iv), FromBase64Url(ciphertext), FromBase64Url(tag))
                 case None => Err(NotAuthentic)
                 case Some(plain) => Ok(FromUtf8(plain))
  {
    FourPieces(v, iv, ciphertext, tag);
  }

  /** Any other number of pieces is malformed. */
  lemma OtherPiecesAreMalformed(x: Crypto, secret: string, pieces: seq<string>)
    requires pieces != [] && |pieces| != 4 && AllFree(pieces, '.')
    ensures UnsealLinkToken(x, secret, Join(pieces, '.')) == Err(Malformed)
  {
    SplitJoin(pieces, '.');
  }

  /** A sealed token is its version, IV, ciphertext and tag with dots between. */
  lemma SealedIs(x: Crypto, secret: string, iv: Bytes, plain: Units)
    requires Lawful(x) && AllBytes(iv)
    ensures var (ciphertext, tag) := x.seal(secret, iv, Utf8(plain));
            SealLinkToken(x, secret, iv, plain)
            == "v1" + "." + ToBase64Url(iv) + "." + ToBase64Url(ciphertext) + "." + ToBase64Url(tag)
  {
    var (ciphertext, tag) := x.seal(secret, iv, Utf8(plain));
    JoinFour("v1", ToBase64Url(iv), ToBase64Url(ciphertext), ToBase64Url(tag));
  }

  lemma JoinFour(a: string, b: string, c: string, d: string)
    ensures Join([a, b, c, d], '.') == a + "." + b + "." + c + "." + d
  {
    assert [a, b, c, d][1..] == [b, c, d] && [b, c, d][1..] == [c, d] && [c, d][1..] == [d];
    assert Join([c, d], '.') == c + "." + d;
    assert Join([b, c, d], '.') == b + "." + (c + "." + d);
  }

  // ---------------------------------------------------------------- the alphabet and the bits

  /** The characters of base64url in the order of their values. */
  lemma Alphabet(v: nat)
    requires v < 64
    ensures v < 26 ==> Encode64(v) == "ABCDEFGHIJKLMNOPQRSTUVWXYZ"[v]
    ensures 26 <= v < 52 ==> Encode64(v) == "abcdefghijklmnopqrstuvwxyz"[v - 26]
    ensures 52 <= v < 62 ==> Encode64(v) == "0123456789"[v - 52]
    ensures Encode64(62) == '-' && Encode64(63) == '_'
  {
    Capitals(v);
    Smalls(v - 26);
    var digits := "0123456789";
    assert forall i :: 0 <= i < 10 ==> digits[i] as int == i + '0' as int;
  }

  lemma Capitals(i: int)
    ensures 0 <= i < 26 ==> "ABCDEFGHIJKLMNOPQRSTUVWXYZ"[i] as int == i + 'A' as int
  {
    var a, n := "ABCDEFGHIJKLM", "NOPQRSTUVWXYZ";
    assert forall k :: 0 <= k < 13 ==> a[k] as int == k + 'A' as int;
    assert forall k :: 0 <= k < 13 ==> n[k] as int == k + 'N' as int;
    assert "ABCDEFGHIJKLMNOPQRSTUVWXYZ" == a + n;
  }

  lemma Smalls(i: int)
    ensures 0 <= i < 26 ==> "abcdefghijklmnopqrstuvwxyz"[i] as int == i + 'a' as int
  {
    var a, n := "abcdefghijklm", "nopqrstuvwxyz";
    assert forall k :: 0 <= k < 13 ==> a[k] as int == k + 'a' as int;
    assert forall k :: 0 <= k < 13 ==> n[k] as int == k + 'n' as int;
    assert "abcdefghijklmnopqrstuvwxyz" == a + n;
  }

  /** Four sextets spell the same number as the three bytes they stand for. */
  lemma SameBits(x: nat, y: nat, z: nat)
    requires x < 256 && y < 256 && z < 256
    ensures ((First(x) * 64 + Second(x, y)) * 64 + Third(y, z)) * 64 + Fourth(z) == (x * 256 + y) * 256 + z
  {
    assert x == x / 4 * 4 + x % 4 && y == y / 16 * 16 + y % 16 && z == z / 64 * 64 + z % 64;
  }

  /** A byte that no code point begins with is replaced by itself, and one whose second byte is missing
      or cannot follow is replaced without it. */
  lemma BadLeadIsReplaced(lead: nat, rest: Bytes)
    requires 0x80 <= lead < 256
    requires lead < 0xC2 || lead >= 0xF5 || rest == [] || !IsSecond(lead, rest[0])
    ensures FromUtf8([lead] + rest) == [0xFFFD] + FromUtf8(rest)
  {
    assert ([lead] + rest)[1..] == rest;
  }

  /** A character that is no letter or digit and none of the four marks is skipped wherever it stands. */
  lemma {:induction false} OthersAreSkipped(s: string, c: char, t: string)
    requires !('A' <= c <= 'Z') && !('a' <= c <= 'z') && !('0' <= c <= '9')
    requires c != '-' && c != '+' && c != '_' && c != '/'
    ensures FromBase64Url(s + [c] + t) == FromBase64Url(s + t)
  {
    SkippedSextets(s, c, t);
  }

  lemma {:induction false} SkippedSextets(s: string, c: char, t: string)
    requires Decode64(c).None?
    ensures Sextets(s + [c] + t) == Sextets(s + t)
  {
    if s == "" {
      assert s + [c] + t == [c] + t && s + t == t;
    } else {
      SkippedSextets(s[1..], c, t);
      assert (s + [c] + t)[1..] == s[1..] + [c] + t && (s + t)[1..] == s[1..] + t;
    }
  }

  /** Every six bits of the input and every remainder make one character of the base64url alphabet, and
      there is nothing else: no padding. */
  lemma EncodedShape(b: Bytes, i: nat)
    requires AllBytes(b)
    ensures |ToBase64Url(b)| == (4 * |b| + 2) / 3
    ensures i < |ToBase64Url(b)|
            ==> var c := ToBase64Url(b)[i]; 'A' <= c <= 'Z' || 'a' <= c <= 'z' || '0' <= c <= '9' || c == '-' || c == '_'
  {
    UnpackedLength(b);
    CharsShape(Unpacked(b), i);
  }

  lemma {:induction false} UnpackedLength(b: Bytes)
    requires AllBytes(b)
    ensures |Unpacked(b)| == (4 * |b| + 2) / 3
  {
    if |b| > 2 {
      UnpackedLength(b[3..]);
    }
  }

  lemma {:induction false} CharsShape(v: seq<nat>, i: nat)
    requires AllSextets(v)
    ensures |Chars(v)| == |v|
    ensures i < |v| ==> Chars(v)[i] == Encode64(v[i])
  {
    if v != [] {
      CharsShape(v[1..], if i == 0 then 0 else i - 1);
      assert Chars(v)[1..] == Chars(v[1..]);
    }
  }

  // ---------------------------------------------------------------- bytes that are kept

  lemma SpelledForward(b: Bytes)
    requires AllBytes(b) && HeadIsWellFormed(b)
    ensures var n := if b[0] < 0x80 then 0 else Follow(b);
            BytesOf(Spelled(b)) == b[..1 + n]
  {
    var v := Spelled(b);
    if b[0] < 0x80 {
      assert b[..1] == [b[0]];
    } else if Needs(b[0]) == 1 {
      assert v / 64 == b[0] - 0xC0 && v % 64 == b[1] - 0x80;
      assert b[..2] == [b[0], b[1]];
    } else if Needs(b[0]) == 2 {
      ThreeForward(b[0] - 0xE0, b[1] - 0x80, b[2] - 0x80, v);
      assert b[..3] == [b[0], b[1], b[2]];
    } else {
      FourForward(b[0] - 0xF0, b[1] - 0x80, b[2] - 0x80, b[3] - 0x80, v);
      assert b[..4] == [b[0], b[1], b[2], b[3]];
    }
  }

  lemma ThreeForward(x: nat, y: nat, z: nat, v: nat)
    requires y < 64 && z < 64 && v == x * 4096 + y * 64 + z
    ensures v / 4096 == x && v / 64 % 64 == y && v % 64 == z
  {
    assert v / 64 == x * 64 + y;
  }

  lemma FourForward(w: nat, x: nat, y: nat, z: nat, v: nat)
    requires x < 64 && y < 64 && z < 64 && v == w * 0x4_0000 + x * 4096 + y * 64 + z
    ensures v / 0x4_0000 == w && v / 4096 % 64 == x && v / 64 % 64 == y && v % 64 == z
  {
    assert v / 64 == w * 4096 + x * 64 + y;
    assert v / 4096 == w * 64 + x;
  }

  lemma UnitsAsBytes(v: nat, rest: Units)
    requires IsScalar(v)
    ensures Utf8(UnitsOf(v) + rest) == BytesOf(v) + Utf8(rest)
  {
    var t := UnitsOf(v) + rest;
    if v < 0x1_0000 {
      assert t[1..] == rest;
    } else {
      assert t[2..] == rest;
      assert PairOf(t[0], t[1]) == v;
    }
  }

  lemma MalformedHeadIsReplaced(b: Bytes)
    ensures b != [] && !HeadIsWellFormed(b) ==> 0xFFFD in FromUtf8(b)
  {
    assert b != [] && !HeadIsWellFormed(b) ==> FromUtf8(b) == [0xFFFD] + FromUtf8(b[1 + Follow(b)..]);
  }

  lemma HeadOfKept(b: Bytes, n: nat)
    requires AllBytes(b) && b != [] && 0xFFFD !in FromUtf8(b) && n == if b[0] < 0x80 then 0 else Follow(b)
    ensures HeadIsWellFormed(b) && FromUtf8(b) == UnitsOf(Spelled(b)) + FromUtf8(b[1 + n..])
    ensures 0xFFFD !in FromUtf8(b[1 + n..])
  {
    MalformedHeadIsReplaced(b);
  }

  /** Replacement is the only loss: bytes that are read without a replacement character are the UTF-8 of
      the text read. Overlong forms, encoded surrogates and bytes past the last code point are therefore
      never read as text. */
  lemma {:induction false} KeptUnlessReplaced(b: Bytes)
    requires AllBytes(b) && 0xFFFD !in FromUtf8(b)
    ensures Utf8(FromUtf8(b)) == b
  {
    if b != [] {
      var n := if b[0] < 0x80 then 0 else Follow(b);
      HeadOfKept(b, n);
      var rest := b[1 + n..];
      KeptUnlessReplaced(rest);
      SpelledForward(b);
      HeadKept(b, n, Spelled(b), rest);
    }
  }

  lemma HeadKept(b: Bytes, n: nat, v: nat, rest: Bytes)
    requires n < |b| && rest == b[1 + n..] && IsScalar(v) && BytesOf(v) == b[..1 + n]
    requires FromUtf8(b) == UnitsOf(v) + FromUtf8(rest) && Utf8(FromUtf8(rest)) == rest
    ensures Utf8(FromUtf8(b)) == b
  {
    UnitsAsBytes(v, FromUtf8(rest));
  }
}
