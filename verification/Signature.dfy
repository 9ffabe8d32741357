/** Delivery signatures (packages/plugin-protocol/src/signature.ts). The MAC is an arbitrary function of
    the secret and the signed text. */
module Signature {
  import opened Common
  import opened Text

  // ---------------------------------------------------------------- hex

  function HexOf(bytes: seq<nat>): (s: string)
    requires forall i :: 0 <= i < |bytes| ==> bytes[i] < 256
    ensures |s| == 2 * |bytes| && AllHex(s)
  {
    if bytes == [] then "" else [HexChar(bytes[0] / 16), HexChar(bytes[0] % 16)] + HexOf(bytes[1..])
  }

  /** Whole bytes only: an odd last digit is left out. */
  function BytesOfHex(s: string): seq<nat>
    requires AllHex(s)
  {
    if |s| < 2 then [] else [16 * HexDigit(s[0]) + HexDigit(s[1])] + BytesOfHex(s[2..])
  }

  lemma {:induction false} HexBytesRoundTrip(bytes: seq<nat>, tail: string)
    requires (forall i :: 0 <= i < |bytes| ==> bytes[i] < 256) && AllHex(tail) && |tail| <= 1
    ensures AllHex(HexOf(bytes) + tail) && BytesOfHex(HexOf(bytes) + tail) == bytes
  {
    var s := HexOf(bytes) + tail;
    if bytes != [] {
      HexBytesRoundTrip(bytes[1..], tail);
      assert s[2..] == HexOf(bytes[1..]) + tail;
    } else {
      assert s == tail;
    }
  }

  /** Two lower-case digits a byte, the high half first. */
  lemma {:induction false} HexPlaces(bytes: seq<nat>, i: nat)
    requires (forall k :: 0 <= k < |bytes| ==> bytes[k] < 256) && i < |bytes|
    ensures HexOf(bytes)[2 * i] == "0123456789abcdef"[bytes[i] / 16]
    ensures HexOf(bytes)[2 * i + 1] == "0123456789abcdef"[bytes[i] % 16]
  {
    if i == 0 {
      HexAlphabet(bytes[0] / 16);
      HexAlphabet(bytes[0] % 16);
    } else {
      HexPlaces(bytes[1..], i - 1);
      assert HexOf(bytes)[2..] == HexOf(bytes[1..]);
    }
  }

  predicate IsHexText(s: string) {
    s != "" && AllHex(Lower(s))
  }

  lemma HexIsLower(s: string)
    requires AllHex(s)
    ensures Lower(s) == s && AllHex(Lower(s))
  {
  }

  // ---------------------------------------------------------------- the header

  function FindChar(s: string, c: char): (k: Option<nat>)
    ensures k.None? <==> c !in s
    ensures k.Some? ==> k.value < |s| && s[k.value] == c && c !in s[..k.value]
  {
    if s == "" then None
    else if s[0] == c then Some(0)
    else
      match FindChar(s[1..], c)
      case None => None
      case Some(k) =>
        assert s[..k + 1] == [s[0]] + s[1..][..k];
        Some(k + 1)
  }

  /** One member of the header, if the segment is one. */
  function MemberOf(segment: string): Option<(string, string)> {
    match FindChar(segment, '=')
    case None => None
    case Some(k) => Some((Trim(segment[..k]), Trim(segment[k + 1..])))
  }

  function Members(segments: seq<string>): map<string, string> {
    if segments == [] then map[]
    else
      var n := |segments| - 1;
      match MemberOf(segments[n])
      case None => Members(segments[..n])
      case Some((key, value)) => Members(segments[..n])[key := value]
  }

  lemma MembersStep(segments: seq<string>, i: nat)
    requires i < |segments|
    ensures MemberOf(segments[i]).None? ==> Members(segments[..i + 1]) == Members(segments[..i])
    ensures MemberOf(segments[i]).Some?
            ==> var (key, value) := MemberOf(segments[i]).value;
                Members(segments[..i + 1]) == Members(segments[..i])[key := value]
  {
    assert segments[..i + 1][..i] == segments[..i];
  }

  const MAX_SAFE_INTEGER := 0x1F_FFFF_FFFF_FFFF

  /** A decimal number read exactly; no digits at all is zero; `other` reads every other numeral. */
  function IntegerOf(s: string, other: string -> Option<int>): Option<int> {
    if s == "" then Some(0)
    else if AllDigits(s) && DecimalValue(s) <= MAX_SAFE_INTEGER then Some(DecimalValue(s))
    else other(s)
  }

  datatype Parts = Parts(timestampMs: int, signatureHex: string)

  function PartsOf(members: map<string, string>, other: string -> Option<int>): (p: Option<Parts>)
    ensures p.Some? ==> AllHex(p.value.signatureHex)
  {
    if "t" !in members || "v1" !in members || !IsHexText(members["v1"]) then None
    else
      match IntegerOf(members["t"], other)
      case None => None
      case Some(t) => Some(Parts(t, Lower(members["v1"])))
  }

  function Parsed(header: string, other: string -> Option<int>): (p: Option<Parts>)
    ensures p.Some? ==> AllHex(p.value.signatureHex)
  {
    PartsOf(Members(Split(header, ',')), other)
  }

  method ParseLppSignatureHeader(header: string, other: string -> Option<int>) returns (p: Option<Parts>)
    ensures p == Parsed(header, other)
  {
    var segments := Split(header, ',');
    var parts: map<string, string> := map[];
    for i := 0 to |segments|
      invariant parts == Members(segments[..i])
    {
      MembersStep(segments, i);
      var eq := FindChar(segments[i], '=');
      if eq.None? {
        continue;
      }
      var key, value := Trim(segments[i][..eq.value]), Trim(segments[i][eq.value + 1..]);
      parts := parts[key := value];
    }
    assert segments[..|segments|] == segments;
    if "t" !in parts || "v1" !in parts || !IsHexText(parts["v1"]) {
      return None;
    }
    var t := IntegerOf(parts["t"], other);
    if t.None? {
      return None;
    }
    p := Some(Parts(t.value, Lower(parts["v1"])));
  }

  // ---------------------------------------------------------------- signing and verifying

  /** The MAC's bytes. */
  datatype Mac = Mac(of: (string, string) -> seq<nat>)

  ghost predicate GivesBytes(mac: Mac) {
    forall secret, text :: forall i :: 0 <= i < |mac.of(secret, text)| ==> mac.of(secret, text)[i] < 256
  }

  function IntText(n: int): string {
    if n < 0 then "-" + Decimal(-n) else Decimal(n)
  }

  function SignedText(t: int, body: string): string {
    IntText(t) + "." + body
  }

  function SignatureOf(mac: Mac, secret: string, t: nat, body: string): (s: string)
    requires GivesBytes(mac)
    ensures AllHex(s)
  {
    HexOf(mac.of(secret, SignedText(t, body)))
  }

  function SignLppBatch(mac: Mac, secret: string, t: nat, body: string): string
    requires GivesBytes(mac)
  {
    "t=" + Decimal(t) + ",v1=" + SignatureOf(mac, secret, t, body)
  }

  datatype Verdict = Valid | MissingHeader | MalformedHeader | SignatureMismatch | StaleTimestamp | FutureTimestamp

  function Verify(mac: Mac, header: Option<string>, secret: string, body: string, now: int, window: int,
                  other: string -> Option<int>): Verdict
  {
    if header.None? || header.value == "" then MissingHeader
    else
      match Parsed(header.value, other)
      case None => MalformedHeader
      case Some(p) =>
        if mac.of(secret, SignedText(p.timestampMs, body)) != BytesOfHex(p.signatureHex) then SignatureMismatch
        else
          var delta := now - p.timestampMs;
          if delta > window then StaleTimestamp
          else if -delta > window then FutureTimestamp
          else Valid
  }

  // ---------------------------------------------------------------- any arrangement of the members

  /** The last segment that is a member with this key. */
  predicate LastWith(segments: seq<string>, key: string, value: string, k: nat) {
    && k < |segments| && MemberOf(segments[k]) == Some((key, value))
    && forall i :: k < i < |segments| ==> MemberOf(segments[i]).None? || MemberOf(segments[i]).value.0 != key
  }

  lemma {:induction false} LastMemberWins(segments: seq<string>, key: string, value: string, k: nat)
    requires LastWith(segments, key, value, k)
    ensures key in Members(segments) && Members(segments)[key] == value
  {
    var n := |segments| - 1;
    MembersStep(segments, n);
    assert segments[..n + 1] == segments;
    if k < n {
      assert MemberOf(segments[n]).None? || MemberOf(segments[n]).value.0 != key;
      LastMemberWins(segments[..n], key, value, k);
    }
  }

  /** White space around a key and its value does not matter. */
  lemma SpacedMember(a: string, key: string, b: string, c: string, value: string, d: string)
    requires '=' !in key && SpaceFree(key) && SpaceFree(value)
    requires AllSpace(a) && AllSpace(b) && AllSpace(c) && AllSpace(d)
    ensures MemberOf((a + key + b) + "=" + (c + value + d)) == Some((key, value))
  {
    var left, right := a + key + b, c + value + d;
    var s := left + "=" + right;
    assert '=' !in left;
    var k := FindChar(s, '=').value;
    assert s[|left|] == '=';
    assert s[..k] == left && s[k + 1..] == right;
    TrimBetween(a, key, b);
    TrimBetween(c, value, d);
  }

  lemma MemberSegment(key: string, value: string)
    requires '=' !in key && SpaceFree(key) && SpaceFree(value)
    ensures MemberOf(key + "=" + value) == Some((key, value))
  {
    SpacedMember("", key, "", "", value, "");
    assert "" + key + "" == key && "" + value + "" == value;
  }

  /** The segments carry the signer's two members somewhere, and no later member of the same names. */
  ghost predicate Carries(segments: seq<string>, t: nat, hex: string) {
    && (exists k :: LastWith(segments, "t", Decimal(t), k))
    && (exists k :: LastWith(segments, "v1", hex, k))
  }

  /** Members in any order, with anything else between them, parse to the signed values, the signature's
      digits in either case. */
  lemma AnyArrangementParses(segments: seq<string>, t: nat, hex: string, other: string -> Option<int>)
    requires segments != [] && AllFree(segments, ',') && Carries(segments, t, hex)
    requires hex != "" && AllHex(Lower(hex)) && t <= MAX_SAFE_INTEGER
    ensures Parsed(Join(segments, ','), other) == Some(Parts(t, Lower(hex)))
  {
    var i :| LastWith(segments, "t", Decimal(t), i);
    var k :| LastWith(segments, "v1", hex, k);
    LastMemberWins(segments, "t", Decimal(t), i);
    LastMemberWins(segments, "v1", hex, k);
    MembersGiveParts(Members(segments), t, hex, other);
    SplitJoin(segments, ',');
  }

  lemma MembersGiveParts(members: map<string, string>, t: nat, hex: string, other: string -> Option<int>)
    requires "t" in members && members["t"] == Decimal(t) && t <= MAX_SAFE_INTEGER
    requires "v1" in members && members["v1"] == hex && hex != "" && AllHex(Lower(hex))
    ensures PartsOf(members, other) == Some(Parts(t, Lower(hex)))
  {
    DecimalRoundTrip(t);
  }

  /** And such a header verifies exactly when the clock is within the replay window; otherwise the
      verdict says on which side it fell. A lone digit after the signature changes nothing. */
  lemma SignedHeaderVerifiesInWindow(mac: Mac, segments: seq<string>, secret: string, t: nat, body: string, tail: string,
                                     now: int, window: nat, other: string -> Option<int>)
    requires GivesBytes(mac) && t <= MAX_SAFE_INTEGER && AllHex(tail) && |tail| <= 1
    requires SignatureOf(mac, secret, t, body) != ""
    requires segments != [] && AllFree(segments, ',')
    requires Carries(segments, t, SignatureOf(mac, secret, t, body) + tail)
    ensures Verify(mac, Some(Join(segments, ',')), secret, body, now, window, other)
         == if now - t > window then StaleTimestamp else if t - now > window then FutureTimestamp else Valid
  {
    var hex := SignatureOf(mac, secret, t, body) + tail;
    HexIsLower(hex);
    HexBytesRoundTrip(mac.of(secret, SignedText(t, body)), tail);
    SignedTextIs(t, body);
    VerdictIsExact(mac, segments, secret, t, hex, body, now, window, other);
  }

  lemma EmptyCarriesNothing(key: string, value: string, k: nat)
    ensures !LastWith([""], key, value, k)
  {
  }

  lemma CarriersAreNotEmpty(segments: seq<string>, t: nat, hex: string)
    requires segments != [] && AllFree(segments, ',') && Carries(segments, t, hex)
    ensures Join(segments, ',') != ""
  {
    var i :| LastWith(segments, "t", Decimal(t), i);
    EmptyCarriesNothing("t", Decimal(t), i);
    assert segments != [""];
    SplitJoin(segments, ',');
    assert Split("", ',') == [""];
  }

  /** The signer's arrangement. */
  function TwoMembers(value: string, hex: string): seq<string> {
    ["t=" + value, "v1=" + hex]
  }

  lemma TwoMembersJoin(value: string, hex: string)
    requires AllDigits(value) && AllHex(hex)
    ensures AllFree(TwoMembers(value, hex), ',')
    ensures Join(TwoMembers(value, hex), ',') == "t=" + value + ",v1=" + hex
  {
    var segments := TwoMembers(value, hex);
    assert segments[1..] == ["v1=" + hex];
    assert Join(segments, ',') == segments[0] + [','] + segments[1];
  }

  lemma TwoMembersCarry(value: string, hex: string)
    requires AllDigits(value) && AllHex(hex)
    ensures var segments := TwoMembers(value, hex);
            LastWith(segments, "t", value, 0) && LastWith(segments, "v1", hex, 1)
  {
    MemberSegment("t", value);
    MemberSegment("v1", hex);
    assert "t" + "=" + value == "t=" + value && "v1" + "=" + hex == "v1=" + hex;
  }

  /** In particular the signer's own header does. */
  lemma SignThenVerify(mac: Mac, secret: string, t: nat, body: string, now: int, window: nat, other: string -> Option<int>)
    requires GivesBytes(mac) && t <= MAX_SAFE_INTEGER && SignatureOf(mac, secret, t, body) != ""
    ensures Verify(mac, Some(SignLppBatch(mac, secret, t, body)), secret, body, now, window, other)
         == if now - t > window then StaleTimestamp else if t - now > window then FutureTimestamp else Valid
  {
    var hex := SignatureOf(mac, secret, t, body);
    TwoMembersCarry(Decimal(t), hex);
    TwoMembersJoin(Decimal(t), hex);
    assert hex + "" == hex;
    SignedHeaderVerifiesInWindow(mac, TwoMembers(Decimal(t), hex), secret, t, body, "", now, window, other);
  }

  // ---------------------------------------------------------------- what the verdict rests on

  /** What is signed, written out; a sign goes before a time that is negative. */
  lemma SignedTextIs(t: int, body: string)
    ensures t >= 0 ==> SignedText(t, body) == Decimal(t) + "." + body
    ensures t < 0 ==> SignedText(t, body) == "-" + Decimal(-t) + "." + body
  {
  }

  /** The verdict on any header that carries a time and a signature, for any body, whoever made it: a
      mismatch exactly when the signature's bytes are not the MAC of the time, a dot and this body, and
      otherwise the side of the replay window that the clock is on. */
  lemma VerdictIsExact(mac: Mac, segments: seq<string>, secret: string, t: nat, hex: string, body: string,
                       now: int, window: int, other: string -> Option<int>)
    requires segments != [] && AllFree(segments, ',') && Carries(segments, t, hex)
    requires hex != "" && AllHex(Lower(hex)) && t <= MAX_SAFE_INTEGER
    ensures var v := Verify(mac, Some(Join(segments, ',')), secret, body, now, window, other);
            && (v == SignatureMismatch <==> BytesOfHex(Lower(hex)) != mac.of(secret, Decimal(t) + "." + body))
            && (v == StaleTimestamp <==> BytesOfHex(Lower(hex)) == mac.of(secret, Decimal(t) + "." + body) && now - t > window)
            && (v == Valid <==> BytesOfHex(Lower(hex)) == mac.of(secret, Decimal(t) + "." + body) && -window <= now - t <= window)
            && !v.MissingHeader? && !v.MalformedHeader?
  {
    AnyArrangementParses(segments, t, hex, other);
    CarriersAreNotEmpty(segments, t, hex);
    SignedTextIs(t, body);
  }

  /** No segment is a member with this key. */
  predicate NoneWith(segments: seq<string>, key: string) {
    forall i :: 0 <= i < |segments| ==> MemberOf(segments[i]).None? || MemberOf(segments[i]).value.0 != key
  }

  lemma {:induction false} NoneWithIsNoMember(segments: seq<string>, key: string)
    requires NoneWith(segments, key)
    ensures key !in Members(segments)
  {
    if segments != [] {
      NoneWithIsNoMember(segments[..|segments| - 1], key);
    }
  }

  /** A header that carries no time or no signature, or whose signature is empty or no hex, is
      malformed whatever else it holds; no header at all, or an empty one, is missing. */
  lemma UnreadableIsRefused(mac: Mac, segments: seq<string>, secret: string, hex: string, j: nat, body: string,
                            now: int, window: int, other: string -> Option<int>)
    requires segments != [] && AllFree(segments, ',') && Join(segments, ',') != ""
    requires NoneWith(segments, "t") || NoneWith(segments, "v1")
          || (LastWith(segments, "v1", hex, j) && (hex == "" || !AllHex(Lower(hex))))
    ensures Verify(mac, Some(Join(segments, ',')), secret, body, now, window, other) == MalformedHeader
    ensures Verify(mac, None, secret, body, now, window, other) == MissingHeader
    ensures Verify(mac, Some(""), secret, body, now, window, other) == MissingHeader
  {
    SplitJoin(segments, ',');
    if NoneWith(segments, "t") {
      NoneWithIsNoMember(segments, "t");
    } else if NoneWith(segments, "v1") {
      NoneWithIsNoMember(segments, "v1");
    } else {
      LastMemberWins(segments, "v1", hex, j);
    }
  }

  /** A signer's header is accepted for no other body, secret or time whose MAC differs. */
  lemma SignedForNothingElse(mac: Mac, secret: string, t: nat, body: string, otherSecret: string, forged: string,
                             now: int, window: int, other: string -> Option<int>)
    requires GivesBytes(mac) && t <= MAX_SAFE_INTEGER && mac.of(secret, Decimal(t) + "." + body) != []
    requires mac.of(otherSecret, Decimal(t) + "." + forged) != mac.of(secret, Decimal(t) + "." + body)
    ensures Verify(mac, Some(SignLppBatch(mac, secret, t, body)), otherSecret, forged, now, window, other)
         == SignatureMismatch
  {
    SignedTextIs(t, body);
    var bytes := mac.of(secret, SignedText(t, body));
    var hex := SignatureOf(mac, secret, t, body);
    assert hex + "" == hex;
    HexBytesRoundTrip(bytes, "");
    TwoMembersCarry(Decimal(t), hex);
    TwoMembersJoin(Decimal(t), hex);
    HexIsLower(hex);
    VerdictIsExact(mac, TwoMembers(Decimal(t), hex), otherSecret, t, hex, forged, now, window, other);
  }

  // ---------------------------------------------------------------- timestamps that are not the signer's

  /** Decimal text as a number is written: some digits, and no leading zero but zero's own. */
  predicate IsCanonical(value: string) {
    value == "0" || (value != "" && value[0] != '0')
  }

  lemma {:induction false} DecimalIsCanonical(n: nat)
    ensures IsCanonical(Decimal(n)) && (n > 0 ==> Decimal(n)[0] != '0')
  {
    if n >= 10 {
      DecimalIsCanonical(n / 10);
    }
  }

  lemma DecimalOfMore(m: nat, d: nat)
    requires m > 0 && d < 10
    ensures Decimal(10 * m + d) == Decimal(m) + [DigitChar(d)]
  {
    assert (10 * m + d) / 10 == m && (10 * m + d) % 10 == d;
  }

  lemma ValueOfOne(value: string)
    requires AllDigits(value) && |value| == 1
    ensures DecimalValue(value) == value[0] as int - '0' as int && Decimal(DecimalValue(value)) == value
  {
    assert value[..0] == "" && DecimalValue("") == 0;
  }

  lemma {:induction false} CanonicalIsDecimal(value: string)
    requires AllDigits(value) && IsCanonical(value)
    ensures Decimal(DecimalValue(value)) == value && (value != "0" ==> DecimalValue(value) > 0)
  {
    if |value| == 1 {
      ValueOfOne(value);
    } else {
      var front, last := value[..|value| - 1], value[|value| - 1];
      CanonicalIsDecimal(front);
      DecimalOfMore(DecimalValue(front), last as int - '0' as int);
      assert value == front + [last];
    }
  }

  lemma DigitsGiveParts(members: map<string, string>, value: string, hex: string, other: string -> Option<int>)
    requires "t" in members && members["t"] == value && AllDigits(value) && DecimalValue(value) <= MAX_SAFE_INTEGER
    requires "v1" in members && members["v1"] == hex && hex != "" && AllHex(hex)
    ensures PartsOf(members, other) == Some(Parts(DecimalValue(value), hex))
  {
    HexIsLower(hex);
  }

  lemma WrittenAsReadIff(value: string)
    requires AllDigits(value)
    ensures IntText(DecimalValue(value)) == value <==> IsCanonical(value)
  {
    DecimalIsCanonical(DecimalValue(value));
    if IsCanonical(value) {
      CanonicalIsDecimal(value);
    }
  }

  /** Which malformed timestamps get past the parser. Whatever digits the last `t` member holds, none
      at all included, the header parses; and the time read, written out, is the member's own text
      exactly when that is non-empty without a leading zero. So an empty member reads as zero and
      `007` as seven. */
  lemma TimestampReadsBackIff(segments: seq<string>, value: string, i: nat, hex: string, j: nat, other: string -> Option<int>)
    requires segments != [] && AllFree(segments, ',')
    requires LastWith(segments, "t", value, i) && LastWith(segments, "v1", hex, j)
    requires AllDigits(value) && DecimalValue(value) <= MAX_SAFE_INTEGER && hex != "" && AllHex(hex)
    ensures var p := Parsed(Join(segments, ','), other);
            && p == Some(Parts(DecimalValue(value), hex))
            && (IntText(p.value.timestampMs) == value <==> IsCanonical(value))
  {
    LastMemberWins(segments, "t", value, i);
    LastMemberWins(segments, "v1", hex, j);
    SplitJoin(segments, ',');
    DigitsGiveParts(Members(segments), value, hex, other);
    WrittenAsReadIff(value);
  }

  /** Any other text goes to the numeral reader, which alone decides whether the header parses and with
      which time. */
  lemma OtherTextIsReadAsNumeral(segments: seq<string>, value: string, i: nat, hex: string, j: nat,
                                 other: string -> Option<int>)
    requires segments != [] && AllFree(segments, ',')
    requires LastWith(segments, "t", value, i) && LastWith(segments, "v1", hex, j)
    requires value != "" && !(AllDigits(value) && DecimalValue(value) <= MAX_SAFE_INTEGER) && hex != "" && AllHex(Lower(hex))
    ensures var p := Parsed(Join(segments, ','), other);
            && (p.None? <==> other(value).None?)
            && (p.Some? ==> other(value) == Some(p.value.timestampMs) && p.value.signatureHex == Lower(hex))
  {
    LastMemberWins(segments, "t", value, i);
    LastMemberWins(segments, "v1", hex, j);
    SplitJoin(segments, ',');
  }

  lemma EmptyMemberHeader(hex: string)
    requires AllHex(hex)
    ensures Join(TwoMembers("", hex), ',') == "t=,v1=" + hex
  {
    TwoMembersJoin("", hex);
    assert "t=" + "" + ",v1=" == "t=,v1=";
  }

  /** An empty timestamp member is read as time zero. */
  lemma EmptyTimestampIsZero(hex: string, other: string -> Option<int>)
    requires hex != "" && AllHex(hex)
    ensures Parsed("t=,v1=" + hex, other) == Some(Parts(0, hex))
  {
    EmptyMemberHeader(hex);
    EmptyTimestampParses(hex, other);
  }

  lemma EmptyTimestampParses(hex: string, other: string -> Option<int>)
    requires hex != "" && AllHex(hex)
    ensures Parsed(Join(TwoMembers("", hex), ','), other) == Some(Parts(0, hex))
  {
    TwoMembersCarry("", hex);
    TwoMembersJoin("", hex);
    TimestampReadsBackIff(TwoMembers("", hex), "", 0, hex, 1, other);
  }
}
