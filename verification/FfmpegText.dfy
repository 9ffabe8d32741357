/** What the failure classifier reads and shows (packages/shared/src/ffmpeg-failure.ts): the messages
    that each code is given for, the lines, and what a detail keeps of its line. */
module FfmpegText {
  import opened Common
  import opened Text
  import opened FfmpegFailure

  // ---------------------------------------------------------------- messages

  lemma LowerParts(before: string, x: string, after: string)
    ensures Lower(before + x + after) == Lower(before) + Lower(x) + Lower(after)
  {
  }

  /** The line holds the text here, in whatever case. */
  ghost predicate Holds(line: string, before: string, x: string, after: string, text: string) {
    line == before + x + after && Lower(x) == text
  }

  /** A pattern of one text matches exactly the lines that hold it. */
  lemma HasMatchesIff(line: string, text: string)
    ensures Matches(Has(text), line) <==> exists before, x, after :: Holds(line, before, x, after, text)
  {
    if Matches(Has(text), line) {
      var i :| 0 <= i <= |Lower(line)| && At(Lower(line), i, text);
      var before, x, after := line[..i], line[i..i + |text|], line[i + |text|..];
      assert Lower(x) == text;
      assert Holds(line, before, x, after, text);
    }
    if before, x, after :| Holds(line, before, x, after, text) {
      LowerParts(before, x, after);
      assert At(Lower(line), |before|, text);
    }
  }

  lemma LowerIsOneByOne(a: string, b: string)
    ensures Lower(a + b) == Lower(a) + Lower(b)
  {
  }

  lemma AtOffset(a: string, text: string, b: string)
    ensures At(a + text + b, |a|, text)
  {
  }

  lemma NothingEndsTheLine(a: string, middle: string, b: string)
    requires forall k :: 0 <= k < |middle| ==> middle[k] as int !in {10, 13, 0x2028, 0x2029}
    ensures Between(a + Lower(middle) + b, |a|, |a| + |middle|)
  {
  }

  /** The line holds both texts here, the second behind the first with no line end between. */
  ghost predicate HoldsBoth(line: string, before: string, x: string, middle: string, y: string, after: string,
                            first: string, second: string)
  {
    && line == before + x + middle + y + after && Lower(x) == first && Lower(y) == second
    && forall k :: 0 <= k < |middle| ==> middle[k] as int !in {10, 13, 0x2028, 0x2029}
  }

  /** A pattern of two texts matches exactly the lines that hold both in this order. */
  lemma AroundMatchesIff(line: string, first: string, second: string)
    ensures Matches(Around(first, second), line)
       <==> exists before, x, middle, y, after :: HoldsBoth(line, before, x, middle, y, after, first, second)
  {
    if Matches(Around(first, second), line) {
      var s := Lower(line);
      var i, j :| 0 <= i <= |s| && 0 <= j <= |s| && At(s, i, first) && At(s, j, second)
                  && i + |first| <= j && Between(s, i + |first|, j);
      PartsFound(line, i, j, first, second);
    }
    if before, x, middle, y, after :| HoldsBoth(line, before, x, middle, y, after, first, second) {
      AroundMatches(before, x, middle, y, after, first, second);
    }
  }

  lemma FiveParts(line: string, i: nat, a: nat, j: nat, b: nat)
    requires i <= a <= j <= b <= |line|
    ensures line == line[..i] + line[i..a] + line[a..j] + line[j..b] + line[b..]
  {
  }

  lemma LowerSlice(line: string, i: nat, a: nat, text: string)
    requires At(Lower(line), i, text) && a == i + |text|
    ensures a <= |line| && Lower(line[i..a]) == text
  {
  }

  lemma NothingEnds(line: string, a: nat, j: nat)
    requires a <= j <= |Lower(line)| && Between(Lower(line), a, j)
    ensures forall k :: 0 <= k < j - a ==> line[a..j][k] as int !in {10, 13, 0x2028, 0x2029}
  {
    assert forall k :: 0 <= k < j - a ==> Lower(line)[a + k] == LowerChar(line[a..j][k]);
  }

  lemma PartsFound(line: string, i: nat, j: nat, first: string, second: string)
    requires At(Lower(line), i, first) && At(Lower(line), j, second) && i + |first| <= j && Between(Lower(line), i + |first|, j)
    ensures HoldsBoth(line, line[..i], line[i..i + |first|], line[i + |first|..j], line[j..j + |second|], line[j + |second|..],
                      first, second)
  {
    LowerSlice(line, i, i + |first|, first);
    LowerSlice(line, j, j + |second|, second);
    NothingEnds(line, i + |first|, j);
    FiveParts(line, i, i + |first|, j, j + |second|);
  }

  lemma AroundMatches(before: string, x: string, middle: string, y: string, after: string, first: string, second: string)
    requires Lower(x) == first && Lower(y) == second
    requires forall k :: 0 <= k < |middle| ==> middle[k] as int !in {10, 13, 0x2028, 0x2029}
    ensures Matches(Around(first, second), before + x + middle + y + after)
  {
    var s := Lower(before + x + middle + y + after);
    LowerIsOneByOne(before, x);
    LowerIsOneByOne(before + x, middle);
    LowerIsOneByOne(before + x + middle, y);
    LowerIsOneByOne(before + x + middle + y, after);
    AroundParts(Lower(before), first, middle, second, Lower(after), s);
  }

  lemma AroundParts(b: string, first: string, middle: string, second: string, a: string, s: string)
    requires s == b + first + Lower(middle) + second + a
    requires forall k :: 0 <= k < |middle| ==> middle[k] as int !in {10, 13, 0x2028, 0x2029}
    ensures At(s, |b|, first) && At(s, |b| + |first| + |middle|, second)
    ensures Between(s, |b| + |first|, |b| + |first| + |middle|)
  {
    var m := Lower(middle);
    AtOffset(b, first, m + second + a);
    assert b + first + (m + second + a) == s;
    AtOffset(b + first + m, second, a);
    NothingEndsTheLine(b + first, middle, second + a);
    assert (b + first) + m + (second + a) == s;
  }

  lemma PatternFires(r: Rule, k: nat, line: string)
    requires k < |r.patterns| && Matches(r.patterns[k], line)
    ensures Fires(r, line)
  {
  }

  lemma {:induction false} StartsAndBackends(i: nat, j: nat, n: nat)
    requires i < 3 && j < 5 && 5 * i + j < n <= 15
    ensures Around(STARTS[i], BACKENDS[j]) in EncoderStarts(n)
  {
    if n - 1 == 5 * i + j {
      assert (n - 1) / 5 == i && (n - 1) % 5 == j;
      assert EncoderStarts(n)[|EncoderStarts(n)| - 1] == Around(STARTS[i], BACKENDS[j]);
    } else {
      StartsAndBackends(i, j, n - 1);
    }
  }

  lemma FiresIfListed(r: Rule, p: Pattern, line: string)
    requires Matches(p, line)
    ensures p in r.patterns ==> Fires(r, line)
  {
    if p in r.patterns {
      var k :| 0 <= k < |r.patterns| && r.patterns[k] == p;
      PatternFires(r, k, line);
    }
  }

  /** The line holds the text, in whatever case. */
  ghost predicate Says(line: string, text: string) {
    exists before, x, after :: Holds(line, before, x, after, text)
  }

  /** The line holds both texts in this order, with no line end between. */
  ghost predicate SaysBoth(line: string, first: string, second: string) {
    exists before, x, middle, y, after :: HoldsBoth(line, before, x, middle, y, after, first, second)
  }

  predicate IsStart(text: string) {
    text == "failed to initialise " || text == "failed to initialize " || text == "failed to create "
  }

  predicate IsBackend(text: string) {
    text == "vaapi" || text == "qsv" || text == "nvenc" || text == "amf" || text == "encoder"
  }

  lemma FiresOrLater(code: Code, p: Pattern, rest: seq<Pattern>, all: seq<Pattern>, line: string)
    requires all == [p] + rest
    ensures Fires(Rule(code, all), line) <==> Matches(p, line) || Fires(Rule(code, rest), line)
  {
    var r := Rule(code, rest);
    if Fires(Rule(code, all), line) && !Matches(p, line) {
      var k :| 0 <= k < |all| && Matches(all[k], line);
      PatternFires(r, k - 1, line);
    }
    if k :| 0 <= k < |rest| && Matches(rest[k], line) {
      assert all[k + 1] == rest[k];
    }
    assert all[0] == p;
  }

  lemma NothingFires(code: Code, line: string)
    ensures !Fires(Rule(code, []), line)
  {
  }

  lemma OneFires(code: Code, text: string, line: string)
    ensures Fires(Rule(code, [Has(text)]), line) <==> Says(line, text)
  {
    FiresOrLater(code, Has(text), [], [Has(text)], line);
    HasMatchesIff(line, text);
  }

  lemma TextOrLater(code: Code, text: string, rest: seq<Pattern>, line: string)
    ensures Fires(Rule(code, [Has(text)] + rest), line) <==> Says(line, text) || Fires(Rule(code, rest), line)
  {
    FiresOrLater(code, Has(text), rest, [Has(text)] + rest, line);
    HasMatchesIff(line, text);
  }

  lemma BothOrLater(code: Code, first: string, second: string, rest: seq<Pattern>, line: string)
    ensures Fires(Rule(code, [Around(first, second)] + rest), line) <==> SaysBoth(line, first, second) || Fires(Rule(code, rest), line)
  {
    FiresOrLater(code, Around(first, second), rest, [Around(first, second)] + rest, line);
    AroundMatchesIff(line, first, second);
  }

  /** The first, fifth and last rule fire exactly on the lines that hold their one message. */
  lemma SingleRulesFireIff(line: string)
    ensures Fires(Rules()[0], line) <==> Says(line, "no such file or directory")
    ensures Fires(Rules()[4], line) <==> Says(line, "no space left on device")
    ensures Fires(Rules()[5], line) <==> Says(line, "error opening input")
  {
    OneFires(InputMissing, "no such file or directory", line);
    OneFires(DiskFull, "no space left on device", line);
    OneFires(InputMissing, "error opening input", line);
  }

  /** The second rule fires exactly on the lines that hold one of its messages. */
  lemma UnreadableFiresIff(line: string)
    ensures Fires(Rules()[1], line)
       <==> || Says(line, "permission denied") || Says(line, "input/output error")
            || Says(line, "invalid data found when processing input") || Says(line, "moov atom not found")
            || Says(line, "operation not permitted")
  {
    var e := [Has("operation not permitted")];
    var d := [Has("moov atom not found")] + e;
    var c := [Has("invalid data found when processing input")] + d;
    var b := [Has("input/output error")] + c;
    OneFires(InputUnreadable, "operation not permitted", line);
    TextOrLater(InputUnreadable, "moov atom not found", e, line);
    TextOrLater(InputUnreadable, "invalid data found when processing input", d, line);
    TextOrLater(InputUnreadable, "input/output error", c, line);
    TextOrLater(InputUnreadable, "permission denied", b, line);
    assert Rules()[1] == Rule(InputUnreadable, [Has("permission denied")] + b);
  }

  /** The third rule: a decoder that is not found, or one of four other messages. */
  lemma DecoderFiresIff(line: string)
    ensures Fires(Rules()[2], line)
       <==> || SaysBoth(line, "decoder ", " not found") || Says(line, "unsupported codec")
            || Says(line, "could not find codec parameters") || Says(line, "codec not supported")
            || Says(line, "not supported by decoder")
  {
    var e := [Has("not supported by decoder")];
    var d := [Has("codec not supported")] + e;
    var c := [Has("could not find codec parameters")] + d;
    var b := [Has("unsupported codec")] + c;
    OneFires(DecoderUnsupported, "not supported by decoder", line);
    TextOrLater(DecoderUnsupported, "codec not supported", e, line);
    TextOrLater(DecoderUnsupported, "could not find codec parameters", d, line);
    TextOrLater(DecoderUnsupported, "unsupported codec", c, line);
    BothOrLater(DecoderUnsupported, "decoder ", " not found", b, line);
    assert Rules()[2] == Rule(DecoderUnsupported, [Around("decoder ", " not found")] + b);
  }

  /** A backend that could not be started: any of three beginnings and any of five ends. */
  ghost predicate SaysStart(line: string) {
    exists first, second :: IsStart(first) && IsBackend(second) && SaysBoth(line, first, second)
  }

  lemma {:induction false} OnlyStartsFire(code: Code, n: nat, line: string)
    requires n <= 15
    ensures Fires(Rule(code, EncoderStarts(n)), line) ==> SaysStart(line)
  {
    var starts := EncoderStarts(n);
    if k :| 0 <= k < |starts| && Matches(starts[k], line) {
      var before := EncoderStarts(n - 1);
      if k < |before| {
        assert before[k] == starts[k];
        PatternFires(Rule(code, before), k, line);
        OnlyStartsFire(code, n - 1, line);
      } else {
        StartIsNamed((n - 1) / 5, (n - 1) % 5);
        AroundMatchesIff(line, STARTS[(n - 1) / 5], BACKENDS[(n - 1) % 5]);
      }
    }
  }

  lemma StartIsNamed(i: nat, j: nat)
    requires i < 3 && j < 5
    ensures IsStart(STARTS[i]) && IsBackend(BACKENDS[j])
  {
  }

  lemma EitherPartFires(code: Code, a: seq<Pattern>, b: seq<Pattern>, line: string)
    ensures Fires(Rule(code, a + b), line) <==> Fires(Rule(code, a), line) || Fires(Rule(code, b), line)
  {
    if k :| 0 <= k < |a + b| && Matches((a + b)[k], line) {
      if k < |a| {
        PatternFires(Rule(code, a), k, line);
      } else {
        PatternFires(Rule(code, b), k - |a|, line);
      }
    }
    if k :| 0 <= k < |a| && Matches(a[k], line) {
      assert (a + b)[k] == a[k];
    }
    if k :| 0 <= k < |b| && Matches(b[k], line) {
      assert (a + b)[|a| + k] == b[k];
    }
  }

  lemma StartFires(code: Code, line: string)
    ensures SaysStart(line) ==> Fires(Rule(code, EncoderStarts(15)), line)
  {
    if first, second :| IsStart(first) && IsBackend(second) && SaysBoth(line, first, second) {
      AroundMatchesIff(line, first, second);
      var i := if first == STARTS[0] then 0 else if first == STARTS[1] then 1 else 2;
      var j := if second == BACKENDS[0] then 0 else if second == BACKENDS[1] then 1 else if second == BACKENDS[2] then 2
               else if second == BACKENDS[3] then 3 else 4;
      StartsAndBackends(i, j, 15);
      FiresIfListed(Rule(code, EncoderStarts(15)), Around(first, second), line);
    }
  }

  /** The fourth rule: an encoder that is not found or does not open, or a backend that does not start. */
  lemma EncoderFiresIff(line: string)
    ensures Fires(Rules()[3], line)
       <==> || Says(line, "error while opening encoder") || Says(line, "could not open encoder")
            || Says(line, "error initializing output stream") || Says(line, "cannot load lib")
            || SaysStart(line) || SaysBoth(line, "encoder ", " not found") || Says(line, "unknown encoder")
  {
    var code, starts := EncoderInitFailed, EncoderStarts(15);
    EncoderTexts(line);
    EncoderTails(line);
    EitherPartFires(code, ENCODER_TEXTS + starts, ENCODER_TAILS, line);
    EitherPartFires(code, ENCODER_TEXTS, starts, line);
    OnlyStartsFire(code, 15, line);
    StartFires(code, line);
    EncoderRuleIs(starts);
  }

  const ENCODER_TEXTS := [Has("error while opening encoder"), Has("could not open encoder"),
                          Has("error initializing output stream"), Has("cannot load lib")]
  const ENCODER_TAILS := [Around("encoder ", " not found"), Has("unknown encoder")]

  lemma EncoderRuleIs(starts: seq<Pattern>)
    requires starts == EncoderStarts(15)
    ensures Rules()[3] == Rule(EncoderInitFailed, ENCODER_TEXTS + starts + ENCODER_TAILS)
  {
  }

  lemma EncoderTexts(line: string)
    ensures Fires(Rule(EncoderInitFailed, ENCODER_TEXTS), line)
       <==> || Says(line, "error while opening encoder") || Says(line, "could not open encoder")
            || Says(line, "error initializing output stream") || Says(line, "cannot load lib")
  {
    var d := [Has("cannot load lib")];
    var c := [Has("error initializing output stream")] + d;
    var b := [Has("could not open encoder")] + c;
    OneFires(EncoderInitFailed, "cannot load lib", line);
    TextOrLater(EncoderInitFailed, "error initializing output stream", d, line);
    TextOrLater(EncoderInitFailed, "could not open encoder", c, line);
    TextOrLater(EncoderInitFailed, "error while opening encoder", b, line);
    assert ENCODER_TEXTS == [Has("error while opening encoder")] + b;
  }

  lemma EncoderTails(line: string)
    ensures Fires(Rule(EncoderInitFailed, ENCODER_TAILS), line)
       <==> SaysBoth(line, "encoder ", " not found") || Says(line, "unknown encoder")
  {
    OneFires(EncoderInitFailed, "unknown encoder", line);
    BothOrLater(EncoderInitFailed, "encoder ", " not found", [Has("unknown encoder")], line);
    assert ENCODER_TAILS == [Around("encoder ", " not found")] + [Has("unknown encoder")];
  }

  /** The messages of each rule. */
  ghost predicate Message(rule: nat, line: string) {
    match rule
    case 0 => Says(line, "no such file or directory")
    case 1 => || Says(line, "permission denied") || Says(line, "input/output error")
              || Says(line, "invalid data found when processing input") || Says(line, "moov atom not found")
              || Says(line, "operation not permitted")
    case 2 => || SaysBoth(line, "decoder ", " not found") || Says(line, "unsupported codec")
              || Says(line, "could not find codec parameters") || Says(line, "codec not supported")
              || Says(line, "not supported by decoder")
    case 3 => || Says(line, "error while opening encoder") || Says(line, "could not open encoder")
              || Says(line, "error initializing output stream") || Says(line, "cannot load lib")
              || SaysStart(line) || SaysBoth(line, "encoder ", " not found") || Says(line, "unknown encoder")
    case 4 => Says(line, "no space left on device")
    case _ => Says(line, "error opening input")
  }

  ghost predicate MessageIn(rule: nat, lines: seq<string>) {
    exists i :: 0 <= i < |lines| && Message(rule, lines[i])
  }

  lemma FiresIffMessage(rule: nat, line: string)
    requires rule < 6
    ensures Fires(Rules()[rule], line) <==> Message(rule, line)
  {
    SingleRulesFireIff(line);
    UnreadableFiresIff(line);
    DecoderFiresIff(line);
    EncoderFiresIff(line);
  }

  lemma FiresInIffMessage(r: Rule, rule: nat, lines: seq<string>)
    requires rule < 6 && r == Rules()[rule]
    ensures FiresIn(r, lines) <==> MessageIn(rule, lines)
  {
    if FiresIn(r, lines) {
      var i :| 0 <= i < |lines| && Fires(r, lines[i]);
      FiresIffMessage(rule, lines[i]);
    }
    if i :| 0 <= i < |lines| && Message(rule, lines[i]) {
      FiresIffMessage(rule, lines[i]);
    }
  }

  lemma RuleCodes()
    ensures |Rules()| == 6
    ensures Rules()[0].code == InputMissing && Rules()[1].code == InputUnreadable && Rules()[2].code == DecoderUnsupported
    ensures Rules()[3].code == EncoderInitFailed && Rules()[4].code == DiskFull && Rules()[5].code == InputMissing
  {
  }

  /** The code that a text is given: by the first of these messages that stands on any of its lines, and
      without any by how the process ended. */
  lemma CodeIsByMessage(lines: seq<string>, killed: bool)
    ensures ClassifyFrom(Rules(), lines, 0, killed).code
         == if MessageIn(0, lines) then InputMissing
            else if MessageIn(1, lines) then InputUnreadable
            else if MessageIn(2, lines) then DecoderUnsupported
            else if MessageIn(3, lines) then EncoderInitFailed
            else if MessageIn(4, lines) then DiskFull
            else if MessageIn(5, lines) then InputMissing
            else if killed then Killed else Failed
  {
    RuleCodes();
    CodeByRules(Rules(), lines, killed);
  }

  lemma CodeByRules(rules: seq<Rule>, lines: seq<string>, killed: bool)
    requires rules == Rules() && |rules| == 6
    ensures ClassifyFrom(rules, lines, 0, killed).code
         == if MessageIn(0, lines) then rules[0].code
            else if MessageIn(1, lines) then rules[1].code
            else if MessageIn(2, lines) then rules[2].code
            else if MessageIn(3, lines) then rules[3].code
            else if MessageIn(4, lines) then rules[4].code
            else if MessageIn(5, lines) then rules[5].code
            else if killed then Killed else Failed
  {
    forall k: nat | k < 6
      ensures FiresIn(rules[k], lines) <==> MessageIn(k, lines)
    {
      FiresInIffMessage(rules[k], k, lines);
    }
    CodeIsHighestPriority(rules, lines, 0, killed);
  }

  // ---------------------------------------------------------------- lines

  predicate NoLineEnd(t: string) {
    '\r' !in t && '\n' !in t
  }

  lemma {:induction false} OneLine(t: string)
    requires NoLineEnd(t)
    ensures SplitLines(t) == [t]
  {
    if t != "" {
      OneLine(t[1..]);
      assert t == [t[0]] + t[1..];
    }
  }

  lemma {:induction false} LineThen(line: string, rest: string)
    requires NoLineEnd(line)
    ensures SplitLines(line + "\n" + rest) == [line] + SplitLines(rest)
    ensures SplitLines(line + "\r\n" + rest) == [line] + SplitLines(rest)
    ensures rest == "" || rest[0] != '\n' ==> SplitLines(line + "\r" + rest) == [line] + SplitLines(rest)
  {
    var a, b, c := line + "\n" + rest, line + "\r\n" + rest, line + "\r" + rest;
    if line == "" {
      assert a[1..] == rest && b[2..] == rest && c[1..] == rest;
      assert b[0] == '\r' && b[1] == '\n' && c[0] == '\r' && a[0] == '\n';
      assert rest != "" ==> c[1] == rest[0];
    } else {
      LineThen(line[1..], rest);
      assert a[1..] == line[1..] + "\n" + rest && b[1..] == line[1..] + "\r\n" + rest && c[1..] == line[1..] + "\r" + rest;
      assert line == [line[0]] + line[1..] && line[0] in line;
      Headed(line[0], line[1..], SplitLines(rest));
    }
  }

  lemma Headed(c: char, tail: string, lines: seq<string>)
    ensures var all := [tail] + lines; [[c] + all[0]] + all[1..] == [[c] + tail] + lines
  {
  }

  // ---------------------------------------------------------------- what a detail keeps

  predicate IsPlain(t: string) {
    forall i :: 0 <= i < |t| ==> !IsSep(t[i])
  }

  predicate Visible(t: string) {
    forall i :: 0 <= i < |t| ==> 32 <= t[i] as int != 127
  }

  lemma ControlStep(c: char, u: string)
    ensures WithoutControls([c] + u) == (if IsControl(c) then WithoutControls(u) else [c] + WithoutControls(u))
  {
    assert ([c] + u)[1..] == u;
  }

  lemma {:induction false} ControlsGoPartByPart(a: string, b: string)
    ensures WithoutControls(a + b) == WithoutControls(a) + WithoutControls(b)
  {
    if a == "" {
      assert a + b == b && WithoutControls(a) == "" && "" + WithoutControls(b) == WithoutControls(b);
    } else {
      ControlsGoPartByPart(a[1..], b);
      HeadAndTail(a, b);
      HeadAndTail(a, "");
      assert a[1..] + "" == a[1..] && a + "" == a;
      ControlStep(a[0], a[1..] + b);
      ControlStep(a[0], a[1..]);
      Regrouped([a[0]], WithoutControls(a[1..]), WithoutControls(b));
    }
  }

  lemma Regrouped(a: string, b: string, c: string)
    ensures a + (b + c) == (a + b) + c
  {
  }

  lemma {:induction false} VisibleStays(t: string)
    requires Visible(t)
    ensures WithoutControls(t) == t
  {
    if t != "" {
      VisibleStays(t[1..]);
      assert t == [t[0]] + t[1..];
    }
  }

  /** Control characters go, and nothing else does. */
  lemma ControlsGo(a: string, c: char, b: string)
    requires Visible(a) && (c as int < 32 || c as int == 127)
    ensures WithoutControls(a + ([c] + b)) == a + WithoutControls(b)
  {
    VisibleStays(a);
    ControlsGoPartByPart(a, [c] + b);
    ControlStep(c, b);
  }

  /** Text without separators starts no path, unless it ends in a drive. */
  lemma NoStart(x: string, o: string)
    requires x != "" && IsPlain(x) && (o != "" ==> o[0] != ':' && (IsSep(o[0]) ==> x[|x| - 1] != ':'))
    ensures TokenLen(x + o) == 0
  {
    var t := x + o;
    assert t[0] == x[0];
    assert |x| > 1 ==> t[1] == x[1];
    assert |x| > 2 ==> t[2] == x[2];
    assert |x| == 1 && o != "" ==> t[1] == o[0];
    assert |x| == 2 && o != "" ==> t[2] == o[0];
  }

  lemma CopiedStep(c: char, u: string)
    requires TokenLen([c] + u) == 0
    ensures Stripped([c] + u) == [c] + Stripped(u)
  {
    assert ([c] + u)[1..] == u;
  }

  lemma HeadAndTail(x: string, o: string)
    requires x != ""
    ensures [x[0]] + (x[1..] + o) == x + o
  {
    assert x == [x[0]] + x[1..];
  }

  lemma {:induction false} PlainIsCopied(x: string, o: string)
    requires IsPlain(x) && (o != "" ==> o[0] != ':' && (x != "" && IsSep(o[0]) ==> x[|x| - 1] != ':'))
    ensures Stripped(x + o) == x + Stripped(o)
  {
    if x == "" {
      assert x + o == o && x + Stripped(o) == Stripped(o);
    } else {
      NoStart(x, o);
      HeadAndTail(x, o);
      CopiedStep(x[0], x[1..] + o);
      PlainIsCopied(x[1..], o);
      HeadAndTail(x, Stripped(o));
    }
  }

  /** A line without control characters and separators is shown as it is, trimmed and cut at 200. */
  lemma PlainLineIsShown(line: string)
    requires Visible(line) && IsPlain(line)
    ensures Sanitized(line) == if |Trim(line)| <= 200 then Trim(line) else Trim(line)[..200]
  {
    VisibleStays(line);
    PlainIsCopied(line, "");
    assert line + "" == line && Stripped("") == "";
  }

  /** What begins an absolute path. */
  lemma PathBeginsIff(t: string)
    ensures StartLen(t) > 0
       <==> || (|t| >= 1 && t[0] == '/')
            || (|t| >= 2 && t[..2] == "\\\\")
            || (|t| >= 3 && ('a' <= t[0] <= 'z' || 'A' <= t[0] <= 'Z') && (t[1..3] == ":/" || t[1..3] == ":\\"))
  {
    assert |t| >= 2 ==> t[..2] == [t[0], t[1]];
    assert |t| >= 3 ==> t[1..3] == [t[1], t[2]];
  }

  lemma {:induction false} TailIsTrimmed(x: string, tail: string)
    requires (forall i :: 0 <= i < |tail| ==> IsSep(tail[i])) && (x == "" || !IsSep(x[|x| - 1]))
    ensures TrimSlashes(x + tail) == x
  {
    var n := |tail|;
    if n == 0 {
      assert x + tail == x;
    } else {
      assert (x + tail)[..|x| + n - 1] == x + tail[..n - 1];
      TailIsTrimmed(x, tail[..n - 1]);
    }
  }

  lemma CharAt(front: string, name: string, n: nat)
    ensures n < |name| ==> (front + name)[|front + name| - n - 1] == name[|name| - n - 1]
    ensures front != "" ==> (front + name)[|front| - 1] == front[|front| - 1]
    ensures (front + name)[|front|..] == name
  {
  }

  lemma SuffixAt(p: string, q: string, i: nat)
    requires |q| <= |p| && q == p[|p| - |q|..]
    ensures |p| - |q| <= i < |p| ==> p[i] == q[i - (|p| - |q|)]
  {
  }

  lemma LastPieceIs(front: string, name: string, p: string, q: string)
    requires p == front + name && (front == "" || IsSep(front[|front| - 1])) && IsPlain(name)
    requires |q| <= |p| && q == p[|p| - |q|..] && IsPlain(q) && (|q| < |p| ==> IsSep(p[|p| - |q| - 1]))
    ensures q == name
  {
    CharAt(front, name, |q|);
    SuffixAt(p, q, if front == "" then 0 else |front| - 1);
  }

  lemma FrontIsDropped(front: string, name: string)
    requires (front == "" || IsSep(front[|front| - 1])) && IsPlain(name)
    ensures AfterLastSep(front + name) == name
  {
    NameBehindSep(front + name);
    LastPieceIs(front, name, front + name, AfterLastSep(front + name));
  }

  lemma {:induction false} RunIs(t: string, n: nat)
    requires n <= |t| && (forall i :: 0 <= i < n ==> !IsDelimiter(t[i])) && (n < |t| ==> IsDelimiter(t[n]))
    ensures TokenRun(t) == n
  {
    if n > 0 {
      RunIs(t[1..], n - 1);
    }
  }

  lemma TokenIs(p: string, o: string)
    requires StartLen(p) > 0 && StartLen(p) < |p| && (forall i :: StartLen(p) <= i < |p| ==> !IsDelimiter(p[i]))
    requires o == "" || IsDelimiter(o[0])
    ensures TokenLen(p + o) == |p|
  {
    var t, m := p + o, StartLen(p);
    assert forall i :: 0 <= i < |p| ==> t[i] == p[i];
    assert StartLen(t) == m;
    assert forall i :: 0 <= i < |p| - m ==> t[m..][i] == p[m + i];
    assert o != "" ==> t[m..][|p| - m] == o[0];
    RunIs(t[m..], |p| - m);
  }

  lemma NameOf(p: string, front: string, name: string, tail: string)
    requires p == front + name + tail && name != "" && IsPlain(name)
    requires (front == "" || IsSep(front[|front| - 1])) && forall i :: 0 <= i < |tail| ==> IsSep(tail[i])
    ensures BasenameOf(p) == name
  {
    assert (front + name)[|front + name| - 1] == name[|name| - 1];
    TailIsTrimmed(front + name, tail);
    FrontIsDropped(front, name);
  }

  lemma StrippedPath(p: string, name: string, o: string)
    requires p != "" && TokenLen(p + o) == |p| && BasenameOf(p) == name
    ensures Stripped(p + o) == name + Stripped(o)
  {
    assert (p + o)[..|p|] == p && (p + o)[|p|..] == o;
  }

  /** Of a path nothing is shown but its last name, whatever the directories, and the text around it is
      kept: the path starts at a slash, two backslashes or a drive, and ends before white space, a
      colon, a quote or a closing bracket. */
  lemma PathIsShortened(before: string, p: string, front: string, name: string, tail: string, o: string)
    requires IsPlain(before) && (before == "" || before[|before| - 1] != ':')
    requires StartLen(p) > 0 && StartLen(p) < |p| && (forall i :: StartLen(p) <= i < |p| ==> !IsDelimiter(p[i]))
    requires p == front + name + tail && name != "" && IsPlain(name)
    requires (front == "" || IsSep(front[|front| - 1])) && forall i :: 0 <= i < |tail| ==> IsSep(tail[i])
    requires o == "" || IsSpace(o[0]) || o[0] == ':' || o[0] == '\'' || o[0] == '"' || o[0] == ')' || o[0] == ']'
    ensures Stripped(before + (p + o)) == before + (name + Stripped(o))
  {
    TokenIs(p, o);
    NameOf(p, front, name, tail);
    StrippedPath(p, name, o);
    StartIsNoColon(p, o);
    PlainIsCopied(before, p + o);
  }

  lemma StartIsNoColon(p: string, o: string)
    requires StartLen(p) > 0
    ensures (p + o)[0] != ':'
  {
    assert (p + o)[0] == p[0];
  }

  /** The detail is that of the first line that the deciding rule matches. */
  lemma {:induction false} DetailIsOfTheFirstLine(rules: seq<Rule>, lines: seq<string>, n: nat, killed: bool, k: nat, i: nat)
    requires n <= k < |rules| && i < |lines| && Fires(rules[k], lines[i])
    requires forall j :: 0 <= j < i ==> !Fires(rules[k], lines[j])
    requires forall m :: n <= m < k ==> !FiresIn(rules[m], lines)
    ensures ClassifyFrom(rules, lines, n, killed) == Classification(rules[k].code, Some(Sanitized(lines[i])))
    decreases |rules| - n
  {
    if n < k {
      DetailIsOfTheFirstLine(rules, lines, n + 1, killed, k, i);
    }
  }
}
