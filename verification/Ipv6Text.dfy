/** Reading IPv6 text into bytes (packages/plugin-host/src/ssrf.ts, `parseIPv6ToBytes`), against the
    text forms of section 2.2 of RFC 4291. */
module Ipv6Text {
  import opened Common
  import opened Text

  // ---------------------------------------------------------------- the parser's own pieces

  function StripZone(s: string): string {
    if s == "" || s[0] == '%' then "" else [s[0]] + StripZone(s[1..])
  }

  predicate NoDouble(s: string) {
    forall i :: 0 <= i < |s| - 1 ==> s[i] != ':' || s[i + 1] != ':'
  }

  function FindDouble(s: string): (k: Option<nat>)
    ensures k.None? <==> NoDouble(s)
    ensures k.Some? ==> k.value + 1 < |s| && s[k.value] == ':' && s[k.value + 1] == ':'
    ensures k.Some? ==> forall i :: 0 <= i < k.value ==> s[i] != ':' || s[i + 1] != ':'
  {
    if |s| < 2 then None
    else if s[0] == ':' && s[1] == ':' then Some(0)
    else
      match FindDouble(s[1..])
      case Some(k) =>
        assert forall i :: 0 < i <= k ==> s[i] == s[1..][i - 1] && s[i + 1] == s[1..][i];
        Some(k + 1)
      case None =>
        assert forall i :: 0 < i < |s| ==> s[i] == s[1..][i - 1];
        None
  }

  /** `s` split at each "::". */
  function Halves(s: string): (halves: seq<string>)
    ensures |halves| >= 1
  {
    match FindDouble(s)
    case None => [s]
    case Some(k) => [s[..k]] + Halves(s[k + 2..])
  }

  predicate IsGroup(g: string) {
    1 <= |g| <= 4 && AllHex(g)
  }

  /** One to four hexadecimal digits. */
  lemma GroupIff(g: string)
    ensures IsGroup(g)
       <==> 1 <= |g| <= 4 && forall i :: 0 <= i < |g| ==> '0' <= g[i] <= '9' || 'a' <= g[i] <= 'f'
  {
  }

  predicate AllGroups(gs: seq<string>) {
    forall i :: 0 <= i < |gs| ==> IsGroup(gs[i])
  }

  function Values(gs: seq<string>): (vs: seq<nat>)
    requires AllGroups(gs)
    ensures |vs| == |gs|
  {
    seq(|gs|, i requires 0 <= i < |gs| => HexValue(gs[i]))
  }

  function Groups(segment: string): Option<seq<nat>> {
    if segment == "" then Some([])
    else if AllGroups(Split(segment, ':')) then Some(Values(Split(segment, ':')))
    else None
  }

  function Zeros(n: nat): (z: seq<nat>)
    ensures |z| == n && forall i :: 0 <= i < n ==> z[i] == 0
  {
    seq(n, _ => 0)
  }

  function Hextets(text: string): (r: Option<seq<nat>>)
    ensures r.Some? ==> |r.value| == 8
  {
    var halves := Halves(text);
    if |halves| > 2 then None
    else if |halves| == 2 then
      var left, right := Groups(halves[0]), Groups(halves[1]);
      if left.None? || right.None? || |left.value| + |right.value| > 8 then None
      else Some(left.value + Zeros(8 - |left.value| - |right.value|) + right.value)
    else
      var single := Groups(text);
      if single.Some? && |single.value| == 8 then single else None
  }

  /** One to three digits, four times, with dots between. */
  predicate IsQuad(s: string) {
    |Split(s, '.')| == 4 && forall i :: 0 <= i < 4 ==> 1 <= |Split(s, '.')[i]| <= 3 && AllDigits(Split(s, '.')[i])
  }

  function Octets(quad: string): (o: seq<nat>)
    requires IsQuad(quad)
    ensures |o| == 4
  {
    var parts := Split(quad, '.');
    [DecimalValue(parts[0]), DecimalValue(parts[1]), DecimalValue(parts[2]), DecimalValue(parts[3])]
  }

  predicate AllBytes(o: seq<nat>) {
    forall i :: 0 <= i < |o| ==> o[i] < 256
  }

  /** Two bytes a group, the high one first. */
  function BytesOf(groups: seq<nat>): (bytes: seq<nat>)
    ensures |bytes| == 2 * |groups| && AllBytes(bytes)
  {
    seq(2 * |groups|, i requires 0 <= i < 2 * |groups| => if i % 2 == 0 then groups[i / 2] / 256 % 256 else groups[i / 2] % 256)
  }

  function Parse(raw: string): (r: Option<seq<nat>>)
    ensures r.Some? ==> |r.value| == 16 && AllBytes(r.value)
  {
    var address := Lower(StripZone(raw));
    var quad := Last(address, ':');
    LastIsSuffix(address);
    if IsQuad(quad) then
      if !AllBytes(Octets(quad)) then None
      else
        var groups := Hextets(address[..|address| - |quad|] + "0:0");
        if groups.None? then None else Some(BytesOf(groups.value)[..12] + Octets(quad))
    else
      var groups := Hextets(address);
      if groups.None? then None else Some(BytesOf(groups.value))
  }

  lemma {:induction false} LastIsSuffix(s: string)
    ensures |Last(s, ':')| <= |s| && s[|s| - |Last(s, ':')|..] == Last(s, ':')
    ensures |Last(s, ':')| < |s| ==> s[|s| - |Last(s, ':')| - 1] == ':'
  {
    var z := Last(s, ':');
    SplitPieces(s, ':');
    var parts := Split(s, ':');
    if |parts| > 1 {
      var front := parts[..|parts| - 1];
      assert parts == front + [z];
      JoinAppend(front, [z], ':');
    }
  }

  // ---------------------------------------------------------------- the parser as it runs

  method ParseGroups(segment: string) returns (groups: Option<seq<nat>>)
    ensures groups == Groups(segment)
  {
    if segment == "" {
      return Some([]);
    }
    var parts := Split(segment, ':');
    var out: seq<nat> := [];
    for i := 0 to |parts|
      invariant AllGroups(parts[..i]) && out == Values(parts[..i])
    {
      if !IsGroup(parts[i]) {
        return None;
      }
      assert parts[..i + 1] == parts[..i] + [parts[i]];
      out := out + [HexValue(parts[i])];
    }
    assert parts[..|parts|] == parts;
    groups := Some(out);
  }

  method ParseHextets(text: string) returns (groups: Option<seq<nat>>)
    ensures groups == Hextets(text)
  {
    var halves := Halves(text);
    if |halves| > 2 {
      return None;
    }
    if |halves| == 2 {
      var left := ParseGroups(halves[0]);
      var right := ParseGroups(halves[1]);
      if left.None? || right.None? {
        return None;
      }
      var missing := 8 - (|left.value| + |right.value|);
      if missing < 0 {
        return None;
      }
      return Some(left.value + Zeros(missing) + right.value);
    }
    groups := ParseGroups(text);
    if groups.None? || |groups.value| != 8 {
      return None;
    }
  }

  method ParseIPv6ToBytes(raw: string) returns (bytes: Option<seq<nat>>)
    ensures bytes == Parse(raw)
  {
    var address := Lower(StripZone(raw));
    var hextets := address;
    var embedded: Option<seq<nat>> := None;
    var quad := Last(address, ':');
    LastIsSuffix(address);
    if IsQuad(quad) {
      if !AllBytes(Octets(quad)) {
        return None;
      }
      embedded := Some(Octets(quad));
      hextets := address[..|address| - |quad|] + "0:0";
    }
    var groups := ParseHextets(hextets);
    if groups.None? {
      return None;
    }
    var buffer := FillBytes(groups.value);
    if embedded.Some? {
      buffer[12], buffer[13], buffer[14], buffer[15] :=
        embedded.value[0], embedded.value[1], embedded.value[2], embedded.value[3];
      assert buffer[..] == BytesOf(groups.value)[..12] + embedded.value;
    }
    bytes := Some(buffer[..]);
  }

  method FillBytes(groups: seq<nat>) returns (buffer: array<nat>)
    requires |groups| == 8
    ensures fresh(buffer) && buffer[..] == BytesOf(groups)
  {
    buffer := new nat[16](_ => 0);
    for i := 0 to 8
      invariant forall j :: 0 <= j < 2 * i ==> buffer[j] == BytesOf(groups)[j]
    {
      buffer[2 * i] := groups[i] / 256 % 256;
      buffer[2 * i + 1] := groups[i] % 256;
    }
  }

  // ---------------------------------------------------------------- the grammar

  /** `text` spells eight groups: forms 1 and 2 of the RFC. The parser also takes a "::" that stands
      for no group at all. */
  predicate Spells(text: string, compressed: bool, left: seq<string>, right: seq<string>, groups: seq<nat>) {
    && AllGroups(left) && AllGroups(right)
    && (if compressed
        then |left| + |right| <= 8 && text == Join(left, ':') + "::" + Join(right, ':')
             && groups == Values(left) + Zeros(8 - |left| - |right|) + Values(right)
        else left == [] && |right| == 8 && text == Join(right, ':') && groups == Values(right))
  }

  /** Each group with its colon. */
  function Trail(gs: seq<string>): string {
    if gs == [] then "" else gs[0] + ":" + Trail(gs[1..])
  }

  /** Form 3: the last 32 bits as a dotted quad, the groups before it as in forms 1 and 2. */
  predicate SpellsDotted(text: string, compressed: bool, left: seq<string>, right: seq<string>, quad: string, bytes: seq<nat>) {
    && AllGroups(left) && AllGroups(right) && IsQuad(quad) && AllBytes(Octets(quad))
    && (if compressed
        then |left| + |right| <= 6 && text == Join(left, ':') + "::" + Trail(right) + quad
             && bytes == BytesOf(Values(left) + Zeros(6 - |left| - |right|) + Values(right)) + Octets(quad)
        else left == [] && |right| == 6 && text == Trail(right) + quad
             && bytes == BytesOf(Values(right)) + Octets(quad))
  }

  /** `text` is one of the RFC's text forms of the address `bytes`. */
  ghost predicate TextFormOf(text: string, bytes: seq<nat>) {
    || (exists compressed, left, right, groups ::
          Spells(text, compressed, left, right, groups) && bytes == BytesOf(groups))
    || (exists compressed, left, right, quad :: SpellsDotted(text, compressed, left, right, quad, bytes))
  }

  // ---------------------------------------------------------------- forms 1 and 2

  lemma GroupsAreFree(gs: seq<string>)
    requires AllGroups(gs)
    ensures AllFree(gs, ':')
  {
  }

  lemma {:induction false} JoinedGroups(gs: seq<string>)
    requires AllGroups(gs)
    ensures NoDouble(Join(gs, ':'))
    ensures Join(gs, ':') == "" <==> gs == []
    ensures gs != [] ==> Join(gs, ':')[0] != ':' && Join(gs, ':')[|Join(gs, ':')| - 1] != ':'
  {
    if |gs| > 1 {
      JoinedGroups(gs[1..]);
      var rest := Join(gs[1..], ':');
      var text := gs[0] + ":" + rest;
      assert forall i :: 0 <= i < |gs[0]| ==> text[i] == gs[0][i] != ':';
      assert forall i :: |gs[0]| < i < |text| ==> text[i] == rest[i - |gs[0]| - 1];
    }
  }

  lemma ReadGroups(gs: seq<string>)
    requires AllGroups(gs)
    ensures Groups(Join(gs, ':')) == Some(Values(gs))
  {
    JoinedGroups(gs);
    GroupsAreFree(gs);
    if gs != [] {
      SplitJoin(gs, ':');
    }
  }

  lemma ReadsOnlyGroups(segment: string)
    requires Groups(segment).Some?
    ensures exists gs :: AllGroups(gs) && Join(gs, ':') == segment && Groups(segment) == Some(Values(gs))
  {
    SplitPieces(segment, ':');
    var gs := if segment == "" then [] else Split(segment, ':');
    assert AllGroups(gs) && Join(gs, ':') == segment && Groups(segment) == Some(Values(gs));
  }

  lemma HalvesAt(l: string, r: string)
    requires NoDouble(l) && NoDouble(r) && (l != "" ==> l[|l| - 1] != ':')
    ensures Halves(l + "::" + r) == [l, r]
  {
    var s := l + "::" + r;
    assert s[|l|] == ':' && s[|l| + 1] == ':';
    forall i | 0 <= i < |l|
      ensures s[i] != ':' || s[i + 1] != ':'
    {
      assert s[i] == l[i];
      if i + 1 < |l| {
        assert s[i + 1] == l[i + 1];
      }
    }
    var k := FindDouble(s).value;
    assert s[..k] == l && s[k + 2..] == r;
  }

  lemma ReadsSpelled(text: string, compressed: bool, left: seq<string>, right: seq<string>, groups: seq<nat>)
    requires Spells(text, compressed, left, right, groups)
    ensures Hextets(text) == Some(groups)
  {
    JoinedGroups(right);
    ReadGroups(right);
    if compressed {
      var l, r := Join(left, ':'), Join(right, ':');
      JoinedGroups(left);
      ReadGroups(left);
      HalvesAt(l, r);
      TwoHalves(text, l, r, Values(left), Values(right));
    } else {
      assert Halves(text) == [text];
    }
  }

  lemma TwoHalves(text: string, l: string, r: string, left: seq<nat>, right: seq<nat>)
    requires Halves(text) == [l, r] && Groups(l) == Some(left) && Groups(r) == Some(right) && |left| + |right| <= 8
    ensures Hextets(text) == Some(left + Zeros(8 - |left| - |right|) + right)
  {
  }

  lemma HalvesAround(text: string, k: nat)
    requires |Halves(text)| == 2 && FindDouble(text) == Some(k)
    ensures Halves(text) == [text[..k], text[k + 2..]]
    ensures text == text[..k] + "::" + text[k + 2..]
  {
    assert Halves(text) == [text[..k]] + Halves(text[k + 2..]);
    assert |Halves(text[k + 2..])| == 1;
  }

  lemma ReadsOnlyTwo(text: string, l: string, r: string)
    requires Halves(text) == [l, r] && Hextets(text).Some? && text == l + "::" + r
    ensures exists left, right :: Spells(text, true, left, right, Hextets(text).value)
  {
    ReadsOnlyGroups(l);
    ReadsOnlyGroups(r);
    var left :| AllGroups(left) && Join(left, ':') == l && Groups(l) == Some(Values(left));
    var right :| AllGroups(right) && Join(right, ':') == r && Groups(r) == Some(Values(right));
    assert Spells(text, true, left, right, Hextets(text).value);
  }

  lemma ReadsOnlySpelled(text: string)
    requires Hextets(text).Some?
    ensures exists compressed, left, right :: Spells(text, compressed, left, right, Hextets(text).value)
  {
    if |Halves(text)| == 2 {
      var k := FindDouble(text).value;
      HalvesAround(text, k);
      ReadsOnlyTwo(text, text[..k], text[k + 2..]);
    } else {
      ReadsOnlyGroups(text);
      var right :| AllGroups(right) && Join(right, ':') == text && Groups(text) == Some(Values(right));
      assert Spells(text, false, [], right, Hextets(text).value);
    }
  }

  // ---------------------------------------------------------------- form 3

  lemma {:induction false} TrailJoins(gs: seq<string>, more: seq<string>)
    requires more != []
    ensures Trail(gs) + Join(more, ':') == Join(gs + more, ':')
  {
    if gs == [] {
      assert gs + more == more;
    } else {
      assert (gs + more)[1..] == gs[1..] + more;
      TrailJoins(gs[1..], more);
    }
  }

  lemma QuadIsFree(quad: string)
    requires IsQuad(quad)
    ensures Free(quad, ':') && quad != ""
  {
    SplitPieces(quad, '.');
    JoinFree(Split(quad, '.'), '.', ':');
  }

  /** Nothing but hex groups and colons has a dotted quad for its last piece. */
  lemma SpelledHasNoQuad(text: string, compressed: bool, left: seq<string>, right: seq<string>, groups: seq<nat>)
    requires Spells(text, compressed, left, right, groups)
    ensures !IsQuad(Last(text, ':'))
  {
    PiecesOf(compressed, left, right);
    GroupHasNoDot(Last(text, ':'));
  }

  lemma GroupHasNoDot(g: string)
    requires g == "" || IsGroup(g)
    ensures !IsQuad(g)
  {
    SplitFree(g, '.');
  }

  function Pieces(gs: seq<string>): seq<string> {
    if gs == [] then [""] else gs
  }

  function Body(compressed: bool, left: seq<string>, right: seq<string>): string {
    if compressed then Join(left, ':') + "::" + Join(right, ':') else Join(right, ':')
  }

  /** A spelled text split at its colons: a "::" leaves an empty piece between the groups. */
  lemma PiecesOf(compressed: bool, left: seq<string>, right: seq<string>)
    requires AllGroups(left) && AllGroups(right)
    ensures Split(Body(compressed, left, right), ':')
         == if compressed then Pieces(left) + [""] + Pieces(right) else Pieces(right)
  {
    SplitGroups(right);
    if compressed {
      SplitGroups(left);
      var l, r := Join(left, ':'), Join(right, ':');
      assert l + "::" + r == l + [':'] + ("" + [':'] + r);
      SplitConcat("", r, ':');
      SplitConcat(l, "" + [':'] + r, ':');
      assert Split(l, ':') + ([""] + Split(r, ':')) == Split(l, ':') + [""] + Split(r, ':');
    }
  }

  lemma SplitGroups(gs: seq<string>)
    requires AllGroups(gs)
    ensures Split(Join(gs, ':'), ':') == Pieces(gs)
  {
    GroupsAreFree(gs);
    if gs != [] {
      SplitJoin(gs, ':');
    }
  }

  const TWO_ZEROS: seq<string> := ["0", "0"]

  lemma ZerosJoined()
    ensures AllGroups(TWO_ZEROS) && Join(TWO_ZEROS, ':') == "0:0" && Values(TWO_ZEROS) == [0, 0]
  {
    assert TWO_ZEROS[1..] == ["0"];
    assert HexValue("0") == 16 * HexValue("0"[..0]) + HexDigit("0"[0]);
  }

  /** The text before a dotted quad, with the quad replaced by two zero groups. */
  function DottedGroups(compressed: bool, left: seq<string>, right: seq<string>): (groups: seq<nat>)
    requires AllGroups(left) && AllGroups(right) && (compressed ==> |left| + |right| <= 6) && (!compressed ==> |right| == 6)
    ensures |groups| == 6
  {
    if compressed then Values(left) + Zeros(6 - |left| - |right|) + Values(right) else Values(right)
  }

  lemma ZerosAsText(front: string, compressed: bool, left: seq<string>, right: seq<string>)
    requires front == (if compressed then Join(left, ':') + "::" else "") + Trail(right)
    ensures front + "0:0" == Body(compressed, left, right + TWO_ZEROS)
  {
    ZerosJoined();
    TrailJoins(right, TWO_ZEROS);
    assert Join(right + TWO_ZEROS, ':') == Trail(right) + "0:0";
    JoinedBehind(if compressed then Join(left, ':') + "::" else "", Trail(right), "0:0");
  }

  lemma JoinedBehind(a: string, b: string, c: string)
    ensures (a + b) + c == a + (b + c)
    ensures "" + b == b
  {
  }

  lemma ZerosAsGroups(compressed: bool, left: seq<string>, right: seq<string>)
    requires AllGroups(left) && AllGroups(right) && (compressed ==> |left| + |right| <= 6)
    requires !compressed ==> left == [] && |right| == 6
    ensures AllGroups(right + TWO_ZEROS)
    ensures var groups := DottedGroups(compressed, left, right) + [0, 0];
            groups == if compressed then Values(left) + Zeros(8 - |left| - |right + TWO_ZEROS|) + Values(right + TWO_ZEROS)
                      else Values(right + TWO_ZEROS)
  {
    ZerosJoined();
    ValuesAppend(right, TWO_ZEROS);
  }

  /** The text before a dotted quad, with two zero groups in the quad's place. */
  lemma ZerosForQuad(front: string, compressed: bool, left: seq<string>, right: seq<string>)
    requires AllGroups(left) && AllGroups(right) && (compressed ==> |left| + |right| <= 6)
    requires !compressed ==> left == [] && |right| == 6
    requires front == (if compressed then Join(left, ':') + "::" else "") + Trail(right)
    ensures Spells(front + "0:0", compressed, left, right + TWO_ZEROS, DottedGroups(compressed, left, right) + [0, 0])
  {
    ZerosAsText(front, compressed, left, right);
    ZerosAsGroups(compressed, left, right);
  }

  lemma DottedBecomesSpelled(text: string, compressed: bool, left: seq<string>, right: seq<string>, quad: string, bytes: seq<nat>)
    requires SpellsDotted(text, compressed, left, right, quad, bytes)
    ensures Last(text, ':') == quad
    ensures |quad| <= |text|
    ensures var groups := DottedGroups(compressed, left, right) + [0, 0];
            && Spells(text[..|text| - |quad|] + "0:0", compressed, left, right + TWO_ZEROS, groups)
            && BytesOf(groups)[..12] + Octets(quad) == bytes
  {
    var front := (if compressed then Join(left, ':') + "::" else "") + Trail(right);
    assert text == front + quad && text[..|text| - |quad|] == front;
    ZerosForQuad(front, compressed, left, right);
    FirstTwelve(DottedGroups(compressed, left, right));
    QuadIsFree(quad);
    LastOfDotted(compressed, left, right, quad);
  }

  lemma ValuesAppend(a: seq<string>, b: seq<string>)
    requires AllGroups(a) && AllGroups(b)
    ensures AllGroups(a + b) && Values(a + b) == Values(a) + Values(b)
  {
  }

  lemma LastAfterColon(front: string, tail: string)
    requires front == "" || front[|front| - 1] == ':'
    ensures Last(front + tail, ':') == Last(tail, ':')
  {
    if front == "" {
      assert front + tail == tail;
    } else {
      var l := front[..|front| - 1];
      assert front + tail == l + [':'] + tail;
      SplitConcat(l, tail, ':');
    }
  }

  lemma LastOfJoined(right: seq<string>, quad: string)
    requires AllGroups(right) && Free(quad, ':')
    ensures Last(Join(right + [quad], ':'), ':') == quad
  {
    GroupsAreFree(right);
    SplitJoin(right + [quad], ':');
  }

  lemma FrontAndTrail(front: string, right: seq<string>, quad: string, tail: string)
    requires tail == Join(right + [quad], ':')
    ensures front + Trail(right) + quad == front + tail
  {
    TrailJoins(right, [quad]);
    assert front + Trail(right) + quad == front + (Trail(right) + quad);
  }

  lemma LastOfDotted(compressed: bool, left: seq<string>, right: seq<string>, quad: string)
    requires AllGroups(left) && AllGroups(right) && Free(quad, ':')
    ensures Last((if compressed then Join(left, ':') + "::" else "") + Trail(right) + quad, ':') == quad
  {
    var front := if compressed then Join(left, ':') + "::" else "";
    var tail := Join(right + [quad], ':');
    FrontAndTrail(front, right, quad, tail);
    LastAfterColon(front, tail);
    LastOfJoined(right, quad);
  }

  // ---------------------------------------------------------------- the parser reads the grammar

  /** Every text form of an address, in any case and with any zone, reads back as its bytes. */
  lemma TextFormsParse(raw: string, bytes: seq<nat>)
    requires TextFormOf(Lower(StripZone(raw)), bytes)
    ensures Parse(raw) == Some(bytes)
  {
    var text := Lower(StripZone(raw));
    if compressed, left, right, groups :| Spells(text, compressed, left, right, groups) && bytes == BytesOf(groups) {
      SpelledHasNoQuad(text, compressed, left, right, groups);
      ReadsSpelled(text, compressed, left, right, groups);
    } else {
      var compressed, left, right, quad :| SpellsDotted(text, compressed, left, right, quad, bytes);
      DottedBecomesSpelled(text, compressed, left, right, quad, bytes);
      var groups := DottedGroups(compressed, left, right) + [0, 0];
      ReadsSpelled(text[..|text| - |quad|] + "0:0", compressed, left, right + TWO_ZEROS, groups);
    }
  }

  lemma EndsInZeros(p: string)
    requires p == "" || p[|p| - 1] == ':'
    ensures var parts := Split(p + "0:0", ':');
            |parts| >= 2 && parts[|parts| - 1] == "0" && parts[|parts| - 2] == "0"
  {
    assert "0:0" == "0" + [':'] + "0";
    SplitConcat("0", "0", ':');
    SplitFree("0", ':');
    if p == "" {
      assert p + "0:0" == "0:0";
    } else {
      var q := p[..|p| - 1];
      assert p + "0:0" == q + [':'] + "0:0";
      SplitConcat(q, "0:0", ':');
    }
  }

  lemma SpelledEndsInZeros(p: string, compressed: bool, left: seq<string>, right: seq<string>, groups: seq<nat>)
    requires p == "" || p[|p| - 1] == ':'
    requires Spells(p + "0:0", compressed, left, right, groups)
    ensures |right| >= 2 && right == right[..|right| - 2] + TWO_ZEROS
    ensures p == (if compressed then Join(left, ':') + "::" else "") + Trail(right[..|right| - 2])
  {
    SpelledEndsInGroups(p, compressed, left, right);
    SameFront(p, if compressed then Join(left, ':') + "::" else "", right);
  }

  lemma SpelledEndsInGroups(p: string, compressed: bool, left: seq<string>, right: seq<string>)
    requires p == "" || p[|p| - 1] == ':'
    requires AllGroups(left) && AllGroups(right) && (compressed || |right| == 8)
    requires p + "0:0" == Body(compressed, left, right)
    ensures |right| >= 2 && right == right[..|right| - 2] + TWO_ZEROS
  {
    EndsInZeros(p);
    PiecesOf(compressed, left, right);
    LastPiecesAreGroups(compressed, left, right);
  }

  lemma LastPiecesAreGroups(compressed: bool, left: seq<string>, right: seq<string>)
    requires compressed || |right| == 8
    requires var pieces := if compressed then Pieces(left) + [""] + Pieces(right) else Pieces(right);
             |pieces| >= 2 && pieces[|pieces| - 1] == "0" && pieces[|pieces| - 2] == "0"
    ensures |right| >= 2 && right == right[..|right| - 2] + TWO_ZEROS
  {
    var pieces := if compressed then Pieces(left) + [""] + Pieces(right) else Pieces(right);
    assert pieces[|pieces| - 1] == Pieces(right)[|Pieces(right)| - 1];
    assert compressed ==> pieces == Pieces(left) + ([""] + Pieces(right));
  }

  lemma SameFront(p: string, head: string, right: seq<string>)
    requires |right| >= 2 && right == right[..|right| - 2] + TWO_ZEROS
    requires p + "0:0" == head + Join(right, ':')
    ensures p == head + Trail(right[..|right| - 2])
  {
    var front := right[..|right| - 2];
    ZerosJoined();
    TrailJoins(front, TWO_ZEROS);
    var q := head + Trail(front);
    assert p + "0:0" == q + "0:0";
    assert p == (p + "0:0")[..|p|] && q == (q + "0:0")[..|q|];
  }

  lemma FirstTwelve(six: seq<nat>)
    requires |six| == 6
    ensures BytesOf(six + [0, 0])[..12] == BytesOf(six)
  {
  }

  lemma OnlyDottedForms(p: string, quad: string, compressed: bool, left: seq<string>, right: seq<string>, groups: seq<nat>)
    requires p == "" || p[|p| - 1] == ':'
    requires IsQuad(quad) && AllBytes(Octets(quad))
    requires Spells(p + "0:0", compressed, left, right, groups)
    ensures |right| >= 2
         && SpellsDotted(p + quad, compressed, left, right[..|right| - 2], quad, BytesOf(groups)[..12] + Octets(quad))
  {
    SpelledEndsInZeros(p, compressed, left, right, groups);
    var front := right[..|right| - 2];
    ZerosJoined();
    ValuesAppend(front, TWO_ZEROS);
    var six := if compressed then Values(left) + Zeros(6 - |left| - |front|) + Values(front) else Values(front);
    assert groups == six + [0, 0];
    FirstTwelve(six);
  }

  /** The parser takes nothing else: whatever it reads is a text form of the bytes it returns. */
  lemma OnlyTextFormsParse(raw: string)
    requires Parse(raw).Some?
    ensures TextFormOf(Lower(StripZone(raw)), Parse(raw).value)
  {
    var text := Lower(StripZone(raw));
    var quad := Last(text, ':');
    LastIsSuffix(text);
    if IsQuad(quad) {
      var p := text[..|text| - |quad|];
      assert text == p + quad;
      ReadsOnlySpelled(p + "0:0");
      var compressed, left, right :| Spells(p + "0:0", compressed, left, right, Hextets(p + "0:0").value);
      OnlyDottedForms(p, quad, compressed, left, right, Hextets(p + "0:0").value);
    } else {
      ReadsOnlySpelled(text);
    }
  }

  lemma ParseIffTextForm(raw: string, bytes: seq<nat>)
    ensures Parse(raw) == Some(bytes) <==> TextFormOf(Lower(StripZone(raw)), bytes)
  {
    if Parse(raw) == Some(bytes) {
      OnlyTextFormsParse(raw);
    }
    if TextFormOf(Lower(StripZone(raw)), bytes) {
      TextFormsParse(raw, bytes);
    }
  }

  lemma {:induction false} ZoneGoes(address: string, zone: string)
    requires '%' !in address
    ensures StripZone(address) == address && StripZone(address + "%" + zone) == address
  {
    var raw := address + "%" + zone;
    if address == "" {
      assert raw[0] == '%';
    } else {
      assert raw[0] == address[0] && raw[1..] == address[1..] + "%" + zone && address[0] in address;
      ZoneGoes(address[1..], zone);
      assert address == [address[0]] + address[1..];
    }
  }

  /** A zone is whatever follows the first percent sign, and changes nothing: the address parses exactly
      as it does without one, by its text form in either case of letters. */
  lemma AnyZoneParsesAlike(address: string, zone: string, bytes: seq<nat>)
    requires '%' !in address
    ensures Parse(address + "%" + zone) == Parse(address)
    ensures Parse(address) == Some(bytes) <==> TextFormOf(Lower(address), bytes)
  {
    ZoneGoes(address, zone);
    ParseIffTextForm(address, bytes);
    SameBehindZone(address + "%" + zone, address);
  }

  lemma SameBehindZone(a: string, b: string)
    requires StripZone(a) == StripZone(b)
    ensures Parse(a) == Parse(b)
  {
  }

  // ---------------------------------------------------------------- every address has a text

  function GroupText(v: nat): (g: string)
    requires v < 65536
    ensures IsGroup(g)
  {
    assert Power(16, 4) == 65536;
    HexText(v, 4)
  }

  lemma GroupRoundTrip(v: nat)
    requires v < 65536
    ensures HexValue(GroupText(v)) == v
  {
    assert Power(16, 4) == 65536;
    HexRoundTrip(v, 4);
  }

  function Words(bytes: seq<nat>): (words: seq<nat>)
    requires |bytes| == 16 && AllBytes(bytes)
    ensures |words| == 8 && BytesOf(words) == bytes
    ensures forall i :: 0 <= i < 8 ==> words[i] < 65536
  {
    seq(8, i requires 0 <= i < 8 => 256 * bytes[2 * i] + bytes[2 * i + 1])
  }

  function GroupTexts(words: seq<nat>): (gs: seq<string>)
    requires forall i :: 0 <= i < |words| ==> words[i] < 65536
    ensures |gs| == |words| && forall i :: 0 <= i < |words| ==> gs[i] == GroupText(words[i])
  {
    seq(|words|, i requires 0 <= i < |words| => GroupText(words[i]))
  }

  /** All eight groups, four digits each. */
  function FullText(bytes: seq<nat>): string
    requires |bytes| == 16 && AllBytes(bytes)
  {
    Join(GroupTexts(Words(bytes)), ':')
  }

  /** Writing an address in full and reading it back gives the same sixteen bytes. */
  lemma FullTextRoundTrip(bytes: seq<nat>)
    requires |bytes| == 16 && AllBytes(bytes)
    ensures Parse(FullText(bytes)) == Some(bytes)
  {
    var words := Words(bytes);
    var gs := GroupTexts(words);
    forall i | 0 <= i < 8
      ensures HexValue(gs[i]) == words[i]
    {
      GroupRoundTrip(words[i]);
    }
    assert Values(gs) == words;
    JoinedIsPlain(gs);
    assert Spells(FullText(bytes), false, [], gs, words);
    TextFormsParse(FullText(bytes), bytes);
  }

  lemma {:induction false} PlainIsUntouched(s: string)
    requires forall i :: 0 <= i < |s| ==> IsHex(s[i]) || s[i] == ':'
    ensures StripZone(s) == s && Lower(s) == s
  {
    if s != "" {
      PlainIsUntouched(s[1..]);
    }
  }

  lemma JoinedIsPlain(gs: seq<string>)
    requires AllGroups(gs)
    ensures Lower(StripZone(Join(gs, ':'))) == Join(gs, ':')
  {
    JoinedHexOrColon(gs);
    PlainIsUntouched(Join(gs, ':'));
  }

  lemma {:induction false} JoinedHexOrColon(gs: seq<string>)
    requires AllGroups(gs)
    ensures forall i :: 0 <= i < |Join(gs, ':')| ==> IsHex(Join(gs, ':')[i]) || Join(gs, ':')[i] == ':'
  {
    if |gs| > 1 {
      JoinedHexOrColon(gs[1..]);
    }
  }
}
