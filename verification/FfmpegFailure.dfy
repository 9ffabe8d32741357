/** Why a transcode died, from the text it left (packages/shared/src/ffmpeg-failure.ts). */
module FfmpegFailure {
  import opened Common
  import opened Text

  // ---------------------------------------------------------------- the rules

  datatype Code =
    | InputMissing | InputUnreadable | DecoderUnsupported | EncoderInitFailed | DiskFull | Killed | Failed

  /** A text anywhere in a line, or two texts in this order with no line terminator between them; in
      either case of letters. */
  datatype Pattern = Has(text: string) | Around(first: string, second: string)

  datatype Rule = Rule(code: Code, patterns: seq<Pattern>)

  predicate At(s: string, i: nat, text: string) {
    i + |text| <= |s| && s[i..i + |text|] == text
  }

  predicate Between(s: string, i: nat, j: nat)
    requires i <= j <= |s|
  {
    forall k :: i <= k < j ==> s[k] as int !in {10, 13, 0x2028, 0x2029}
  }

  predicate Matches(p: Pattern, line: string) {
    var s := Lower(line);
    match p
    case Has(text) => exists i :: 0 <= i <= |s| && At(s, i, text)
    case Around(first, second) =>
      exists i, j :: 0 <= i <= |s| && 0 <= j <= |s| && At(s, i, first) && At(s, j, second)
                     && i + |first| <= j && Between(s, i + |first|, j)
  }

  const STARTS := ["failed to initialise ", "failed to initialize ", "failed to create "]
  const BACKENDS := ["vaapi", "qsv", "nvenc", "amf", "encoder"]

  /** One start and one backend, in any combination. */
  function EncoderStarts(k: nat): seq<Pattern>
    requires k <= 15
  {
    if k == 0 then [] else EncoderStarts(k - 1) + [Around(STARTS[(k - 1) / 5], BACKENDS[(k - 1) % 5])]
  }

  /** In order of priority; the generic wrapper of every input failure comes last. */
  function Rules(): seq<Rule> {
    [Rule(InputMissing, [Has("no such file or directory")]),
     Rule(InputUnreadable, [Has("permission denied"), Has("input/output error"), Has("invalid data found when processing input"),
                            Has("moov atom not found"), Has("operation not permitted")]),
     Rule(DecoderUnsupported, [Around("decoder ", " not found"), Has("unsupported codec"), Has("could not find codec parameters"),
                               Has("codec not supported"), Has("not supported by decoder")]),
     Rule(EncoderInitFailed, [Has("error while opening encoder"), Has("could not open encoder"),
                              Has("error initializing output stream"), Has("cannot load lib")]
                             + EncoderStarts(15) + [Around("encoder ", " not found"), Has("unknown encoder")]),
     Rule(DiskFull, [Has("no space left on device")]),
     Rule(InputMissing, [Has("error opening input")])]
  }

  predicate Fires(r: Rule, line: string) {
    exists k :: 0 <= k < |r.patterns| && Matches(r.patterns[k], line)
  }

  predicate FiresIn(r: Rule, lines: seq<string>) {
    exists i :: 0 <= i < |lines| && Fires(r, lines[i])
  }

  // ---------------------------------------------------------------- the classification

  datatype Classification = Classification(code: Code, detail: Option<string>)

  /** Lines end at CR LF, CR or LF. */
  function SplitLines(t: string): (lines: seq<string>)
    ensures |lines| >= 1
  {
    if t == "" then [""]
    else if t[0] == '\r' && |t| > 1 && t[1] == '\n' then [""] + SplitLines(t[2..])
    else if t[0] == '\r' || t[0] == '\n' then [""] + SplitLines(t[1..])
    else
      var rest := SplitLines(t[1..]);
      [[t[0]] + rest[0]] + rest[1..]
  }

  function FirstFiring(r: Rule, lines: seq<string>): (i: nat)
    requires FiresIn(r, lines)
    ensures i < |lines| && Fires(r, lines[i]) && forall j :: 0 <= j < i ==> !Fires(r, lines[j])
  {
    if Fires(r, lines[0]) then 0
    else
      assert FiresIn(r, lines[1..]) by {
        var i :| 0 <= i < |lines| && Fires(r, lines[i]);
        assert lines[1..][i - 1] == lines[i];
      }
      1 + FirstFiring(r, lines[1..])
  }

  function ClassifyFrom(rules: seq<Rule>, lines: seq<string>, n: nat, killed: bool): Classification
    requires n <= |rules|
    decreases |rules| - n
  {
    if n == |rules| then Classification(if killed then Killed else Failed, None)
    else if FiresIn(rules[n], lines) then
      Classification(rules[n].code, Some(Sanitized(lines[FirstFiring(rules[n], lines)])))
    else ClassifyFrom(rules, lines, n + 1, killed)
  }

  method ClassifyFfmpegFailure(rules: seq<Rule>, stderrTail: string, exitCode: Option<int>, signal: Option<string>)
    returns (c: Classification)
    ensures c == ClassifyFrom(rules, SplitLines(stderrTail), 0, signal == Some("SIGKILL") || exitCode.None?)
  {
    var lines := SplitLines(stderrTail);
    ghost var killed := signal == Some("SIGKILL") || exitCode.None?;
    for n := 0 to |rules|
      invariant ClassifyFrom(rules, lines, 0, killed) == ClassifyFrom(rules, lines, n, killed)
    {
      for i := 0 to |lines|
        invariant forall j :: 0 <= j < i ==> !Fires(rules[n], lines[j])
      {
        if Fires(rules[n], lines[i]) {
          return Classification(rules[n].code, Some(Sanitized(lines[i])));
        }
      }
    }
    if signal == Some("SIGKILL") || exitCode.None? {
      return Classification(Killed, None);
    }
    c := Classification(Failed, None);
  }

  // ---------------------------------------------------------------- the detail line

  predicate IsControl(c: char) {
    c as int < 32 || c as int == 127
  }

  function WithoutControls(t: string): (r: string)
    ensures forall c :: c in r ==> !IsControl(c)
  {
    if t == "" then ""
    else if IsControl(t[0]) then WithoutControls(t[1..])
    else [t[0]] + WithoutControls(t[1..])
  }

  predicate IsDelimiter(c: char) {
    IsSpace(c) || c == ':' || c == '\'' || c == '"' || c == ')' || c == ']'
  }

  predicate IsLetter(c: char) {
    'a' <= LowerChar(c) <= 'z'
  }

  predicate IsSep(c: char) {
    c == '/' || c == '\\'
  }

  function TokenRun(t: string): (n: nat)
    ensures n <= |t| && (forall i :: 0 <= i < n ==> !IsDelimiter(t[i])) && (n < |t| ==> IsDelimiter(t[n]))
  {
    if t == "" || IsDelimiter(t[0]) then 0 else 1 + TokenRun(t[1..])
  }

  /** The length of the start of an absolute path, or 0: a drive, a UNC prefix or a slash. */
  function StartLen(t: string): (n: nat)
    ensures n <= |t| && n <= 3
  {
    if |t| >= 3 && IsLetter(t[0]) && t[1] == ':' && IsSep(t[2]) then 3
    else if |t| >= 2 && t[0] == '\\' && t[1] == '\\' then 2
    else if |t| >= 1 && t[0] == '/' then 1
    else 0
  }

  /** The length of the path token that `t` starts with, or 0: a start needs a character after it. */
  function TokenLen(t: string): (n: nat)
    ensures n <= |t|
  {
    var m := StartLen(t);
    if m == 0 || TokenRun(t[m..]) == 0 then 0 else m + TokenRun(t[m..])
  }

  function TrimSlashes(p: string): (q: string)
    ensures |q| <= |p| && q == p[..|q|]
  {
    if p != "" && IsSep(p[|p| - 1]) then TrimSlashes(p[..|p| - 1]) else p
  }

  function AfterLastSep(p: string): (q: string)
    ensures |q| <= |p| && q == p[|p| - |q|..] && forall c :: c in q ==> !IsSep(c)
  {
    if p == "" || IsSep(p[|p| - 1]) then ""
    else AfterLastSep(p[..|p| - 1]) + [p[|p| - 1]]
  }

  /** The original turns backslashes into slashes first; here both kinds are separators. */
  function BasenameOf(p: string): (b: string)
    ensures forall c :: c in b ==> !IsSep(c)
  {
    AfterLastSep(TrimSlashes(p))
  }

  function Stripped(t: string): string
    decreases |t|
  {
    if t == "" then ""
    else
      var n := TokenLen(t);
      if n > 0 then BasenameOf(t[..n]) + Stripped(t[n..]) else [t[0]] + Stripped(t[1..])
  }

  const MAX_DETAIL := 200

  function Shortened(t: string): string {
    var trimmed := Trim(t);
    if |trimmed| > MAX_DETAIL then trimmed[..MAX_DETAIL] else trimmed
  }

  function Sanitized(line: string): string {
    Shortened(Stripped(WithoutControls(line)))
  }

  // ---------------------------------------------------------------- the code

  /** The code is that of the first rule in the table that any line matches. */
  lemma {:induction false} CodeIsHighestPriority(rules: seq<Rule>, lines: seq<string>, n: nat, killed: bool)
    requires n <= |rules|
    ensures var c := ClassifyFrom(rules, lines, n, killed);
            || (exists k :: n <= k < |rules| && FiresIn(rules[k], lines) && c.code == rules[k].code && c.detail.Some?
                         && forall m :: n <= m < k ==> !FiresIn(rules[m], lines))
            || ((forall k :: n <= k < |rules| ==> !FiresIn(rules[k], lines)) && c.detail.None?
                && c.code == if killed then Killed else Failed)
    decreases |rules| - n
  {
    if n < |rules| && !FiresIn(rules[n], lines) {
      CodeIsHighestPriority(rules, lines, n + 1, killed);
    }
  }

  lemma SameLinesFire(r: Rule, a: seq<string>, b: seq<string>)
    requires multiset(a) == multiset(b) && FiresIn(r, a)
    ensures FiresIn(r, b)
  {
    var i :| 0 <= i < |a| && Fires(r, a[i]);
    assert a[i] in multiset(b);
    var j :| 0 <= j < |b| && b[j] == a[i];
  }

  lemma {:induction false} SameLinesSameCode(rules: seq<Rule>, a: seq<string>, b: seq<string>, n: nat, killed: bool)
    requires multiset(a) == multiset(b) && n <= |rules|
    ensures ClassifyFrom(rules, a, n, killed).code == ClassifyFrom(rules, b, n, killed).code
    decreases |rules| - n
  {
    if n < |rules| {
      if FiresIn(rules[n], a) {
        SameLinesFire(rules[n], a, b);
      } else if FiresIn(rules[n], b) {
        SameLinesFire(rules[n], b, a);
      } else {
        SameLinesSameCode(rules, a, b, n + 1, killed);
      }
    }
  }

  /** The code does not depend on the order of the lines. */
  lemma CodeIgnoresLineOrder(rules: seq<Rule>, a: string, b: string, killed: bool)
    requires multiset(SplitLines(a)) == multiset(SplitLines(b))
    ensures ClassifyFrom(rules, SplitLines(a), 0, killed).code == ClassifyFrom(rules, SplitLines(b), 0, killed).code
  {
    SameLinesSameCode(rules, SplitLines(a), SplitLines(b), 0, killed);
  }

  lemma LastRuleDecidesIff(rules: seq<Rule>, lines: seq<string>, killed: bool)
    requires |rules| == 6 && rules[0].code == InputMissing == rules[5].code
    requires forall k :: 1 <= k < 5 ==> rules[k].code != InputMissing
    ensures ClassifyFrom(rules, lines, 0, killed).code == InputMissing
       <==> FiresIn(rules[0], lines) || (FiresIn(rules[5], lines) && forall k :: 1 <= k < 5 ==> !FiresIn(rules[k], lines))
  {
    CodeIsHighestPriority(rules, lines, 0, killed);
  }

  /** What the order of the table buys: the generic wrapper that ffmpeg prints around every failure to
      open an input decides only when no specific rule fires on any line, wherever the lines stand. */
  lemma GenericWrapperDecidesLast(lines: seq<string>, killed: bool)
    ensures var rules := Rules();
            ClassifyFrom(rules, lines, 0, killed).code == InputMissing
            <==> || FiresIn(rules[0], lines)
                 || (FiresIn(rules[5], lines) && forall k :: 1 <= k < 5 ==> !FiresIn(rules[k], lines))
  {
    LastRuleDecidesIff(Rules(), lines, killed);
  }

  // ---------------------------------------------------------------- the detail is safe to show

  /** No slash with anything but a delimiter behind it: no POSIX path, no drive or UNC path with
      slashes. */
  predicate SlashSafe(t: string) {
    forall i :: 0 <= i < |t| - 1 && t[i] == '/' ==> IsDelimiter(t[i + 1])
  }

  lemma DelimiterStartsNothing(t: string)
    requires t != "" && IsDelimiter(t[0])
    ensures StartLen(t) == 0 && TokenLen(t) == 0
  {
  }

  lemma DelimiterIsCopied(t: string)
    requires t != "" && IsDelimiter(t[0])
    ensures Stripped(t) == [t[0]] + Stripped(t[1..])
  {
    DelimiterStartsNothing(t);
  }

  lemma TokenStops(t: string)
    requires TokenLen(t) > 0
    ensures TokenLen(t) < |t| ==> IsDelimiter(t[TokenLen(t)])
  {
    var m := StartLen(t);
    assert TokenRun(t[m..]) < |t[m..]| ==> t[m..][TokenRun(t[m..])] == t[TokenLen(t)];
  }

  /** A slash that stays is followed by a delimiter, which stays too. */
  lemma SlashCopyStaysSafe(t: string)
    requires t != "" && TokenLen(t) == 0 && SlashSafe(Stripped(t[1..]))
    ensures SlashSafe([t[0]] + Stripped(t[1..]))
  {
    if t[0] == '/' && |t| > 1 {
      assert StartLen(t) == 1 && t[1..][0] == t[1];
      DelimiterIsCopied(t[1..]);
    }
    PrependStaysSlashSafe(t[0], Stripped(t[1..]));
  }

  lemma PrependStaysSlashSafe(c: char, o: string)
    requires SlashSafe(o) && (c == '/' && o != "" ==> IsDelimiter(o[0]))
    ensures SlashSafe([c] + o)
  {
    assert forall k :: 0 <= k < |o| ==> ([c] + o)[k + 1] == o[k];
  }

  lemma {:induction false} StrippedIsSlashSafe(t: string)
    ensures SlashSafe(Stripped(t))
    decreases |t|
  {
    if t != "" {
      var n := TokenLen(t);
      if n > 0 {
        StrippedIsSlashSafe(t[n..]);
        SlashFreeFront(BasenameOf(t[..n]), Stripped(t[n..]));
      } else {
        StrippedIsSlashSafe(t[1..]);
        SlashCopyStaysSafe(t);
      }
    }
  }

  lemma SlashFreeFront(x: string, y: string)
    requires (forall c :: c in x ==> !IsSep(c)) && SlashSafe(y)
    ensures SlashSafe(x + y)
  {
    assert forall k :: 0 <= k < |x| ==> x[k] in x;
    forall i | 0 <= i < |x + y| - 1 && (x + y)[i] == '/'
      ensures IsDelimiter((x + y)[i + 1])
    {
    }
  }

  predicate IsSlice(t: string, i: nat, s: string) {
    i + |s| <= |t| && s == t[i..i + |s|]
  }

  lemma TrimIsSlice(t: string)
    ensures exists i: nat :: IsSlice(t, i, Trim(t))
  {
    var l := TrimLeft(t);
    TrimLeftIsSuffix(t);
    assert Trim(t) == l[..|Trim(t)|];
    var i := |t| - |l|;
    assert IsSlice(t, i, Trim(t));
  }

  lemma {:induction false} TrimLeftIsSuffix(t: string)
    ensures |TrimLeft(t)| <= |t| && TrimLeft(t) == t[|t| - |TrimLeft(t)|..]
  {
    if t != "" && IsSpace(t[0]) {
      TrimLeftIsSuffix(t[1..]);
    }
  }

  lemma {:induction false} StrippedHasNoControls(t: string)
    requires forall c :: c in t ==> !IsControl(c)
    ensures forall c :: c in Stripped(t) ==> !IsControl(c)
    decreases |t|
  {
    if t != "" {
      var n := TokenLen(t);
      if n > 0 {
        StrippedHasNoControls(t[n..]);
        assert forall c :: c in BasenameOf(t[..n]) ==> c in t;
      } else {
        StrippedHasNoControls(t[1..]);
      }
    }
  }

  /** A detail is at most 200 characters, without control characters, and names no POSIX path. */
  lemma DetailIsShowable(line: string)
    ensures var d := Sanitized(line);
            |d| <= 200 && SlashSafe(d) && forall c :: c in d ==> 32 <= c as int != 127
  {
    var clean := WithoutControls(line);
    var stripped := Stripped(clean);
    StrippedIsSlashSafe(clean);
    StrippedHasNoControls(clean);
    TrimIsSlice(stripped);
    var d := Sanitized(line);
    var i: nat :| IsSlice(stripped, i, Trim(stripped));
    assert forall j :: 0 <= j < |d| ==> d[j] == stripped[i + j];
    assert forall c :: c in d ==> c in stripped && !IsControl(c);
  }

  // ---------------------------------------------------------------- drives with backslashes

  predicate UncSafe(t: string) {
    forall i :: 0 <= i < |t| - 2 && t[i] == '\\' && t[i + 1] == '\\' ==> IsDelimiter(t[i + 2])
  }

  /** Nothing is left that the path pattern would match. */
  predicate NamesNoPath(t: string) {
    forall i :: 0 <= i <= |t| ==> TokenLen(t[i..]) == 0
  }

  /** A drive with a backslash, and something behind it. */
  predicate DriveAt(t: string, i: nat) {
    i + 4 <= |t| && IsLetter(t[i]) && t[i + 1] == ':' && t[i + 2] == '\\' && !IsDelimiter(t[i + 3])
  }

  /** The shapes a token can start with. */
  lemma TokenShapes(t: string)
    requires TokenLen(t) > 0
    ensures || (|t| > 1 && t[0] == '/' && !IsDelimiter(t[1]))
            || (|t| > 2 && t[0] == '\\' && t[1] == '\\' && !IsDelimiter(t[2]))
            || DriveAt(t, 0)
            || (|t| > 3 && t[2] == '/' && !IsDelimiter(t[3]))
  {
    var m := StartLen(t);
    assert t[m..][0] == t[m];
  }

  /** Where slashes and UNC prefixes are safe, drives with backslashes are the only paths left. */
  lemma NamesNoPathIff(t: string)
    requires SlashSafe(t) && UncSafe(t)
    ensures NamesNoPath(t) <==> forall i: nat :: !DriveAt(t, i)
  {
    forall i: nat | i <= |t|
      ensures TokenLen(t[i..]) > 0 ==> DriveAt(t, i)
    {
      if TokenLen(t[i..]) > 0 {
        TokenShapes(t[i..]);
      }
    }
    forall i: nat | DriveAt(t, i)
      ensures i <= |t| && TokenLen(t[i..]) > 0
    {
      assert StartLen(t[i..]) == 3 && t[i..][3..][0] == t[i + 3];
    }
  }

  lemma BackslashIsCopied(t: string)
    requires Stripped(t) != "" && Stripped(t)[0] == '\\'
    ensures t != "" && t[0] == '\\' && TokenLen(t) == 0
  {
    var n := TokenLen(t);
    if n > 0 {
      TokenStops(t);
      if n < |t| {
        DelimiterIsCopied(t[n..]);
      }
      FirstIsNoBackslash(BasenameOf(t[..n]), Stripped(t[n..]));
    }
  }

  lemma FirstIsNoBackslash(x: string, y: string)
    requires (forall c :: c in x ==> !IsSep(c)) && (y != "" ==> y[0] != '\\')
    ensures x + y != "" ==> (x + y)[0] != '\\'
  {
    assert forall k :: 0 <= k < |x| ==> x[k] in x;
  }

  lemma TwoBackslashes(t: string)
    requires |t| >= 2 && t[0] == '\\' && t[1] == '\\' && TokenLen(t) == 0
    ensures |Stripped(t[2..])| > 0 ==> IsDelimiter(Stripped(t[2..])[0])
  {
    assert StartLen(t) == 2;
    if |t| > 2 {
      DelimiterIsCopied(t[2..]);
    }
  }

  lemma CopyStaysUncSafe(t: string)
    requires t != "" && TokenLen(t) == 0 && UncSafe(Stripped(t[1..]))
    ensures UncSafe([t[0]] + Stripped(t[1..]))
  {
    var o := Stripped(t[1..]);
    if t[0] == '\\' && o != "" && o[0] == '\\' {
      BackslashIsCopied(t[1..]);
      assert t[1..][1..] == t[2..] && o[1..] == Stripped(t[2..]);
      TwoBackslashes(t);
    }
    PrependStaysUncSafe(t[0], o);
  }

  lemma PrependStaysUncSafe(c: char, o: string)
    requires UncSafe(o) && (c == '\\' && |o| > 1 && o[0] == '\\' ==> IsDelimiter(o[1]))
    ensures UncSafe([c] + o)
  {
    assert forall k :: 0 <= k < |o| ==> ([c] + o)[k + 1] == o[k];
  }

  lemma SepFreeFront(x: string, y: string)
    requires (forall c :: c in x ==> !IsSep(c)) && UncSafe(y)
    ensures UncSafe(x + y)
  {
    assert forall k :: 0 <= k < |x| ==> x[k] in x;
    assert forall k :: 0 <= k < |y| ==> (x + y)[|x| + k] == y[k];
  }

  lemma {:induction false} StrippedIsUncSafe(t: string)
    ensures UncSafe(Stripped(t))
    decreases |t|
  {
    if t != "" {
      var n := TokenLen(t);
      if n > 0 {
        StrippedIsUncSafe(t[n..]);
        SepFreeFront(BasenameOf(t[..n]), Stripped(t[n..]));
      } else {
        StrippedIsUncSafe(t[1..]);
        CopyStaysUncSafe(t);
      }
    }
  }

  // ---------------------------------------------------------------- when a drive is left

  predicate EndsInLetter(s: string) {
    s != "" && IsLetter(s[|s| - 1])
  }

  /** What `t` is stripped to starts with something other than a delimiter. */
  predicate ShowsFirst(t: string) {
    t != "" && (if TokenLen(t) > 0 then BasenameOf(t[..TokenLen(t)]) != "" else !IsDelimiter(t[0]))
  }

  /** A colon and a backslash that start no path, with something shown behind them. */
  predicate OpensDrive(t: string) {
    |t| >= 2 && t[0] == ':' && t[1] == '\\' && TokenLen(t[1..]) == 0 && ShowsFirst(t[2..])
  }

  /** The scan over the line that leaves a drive: a path token ends directly before such a colon, and
      what has been written by then, `shown`, ends in a letter. `limit` is where the detail is cut. */
  predicate LeavesDrive(shown: string, afterToken: bool, t: string, limit: nat)
    decreases |t|
  {
    if t == "" then false
    else
      var n := TokenLen(t);
      if n > 0 then LeavesDrive(shown + BasenameOf(t[..n]), true, t[n..], limit)
      else
        || (afterToken && EndsInLetter(shown) && OpensDrive(t) && |shown| + 3 <= limit)
        || LeavesDrive(shown + [t[0]], false, t[1..], limit)
  }

  /** A drive whose colon is at this place or behind it. */
  predicate HasDriveFrom(t: string, colon: nat, limit: nat)
    decreases |t| - colon
  {
    colon < |t|
    && ((colon > 0 && colon + 3 <= limit && DriveAt(t, colon - 1)) || HasDriveFrom(t, colon + 1, limit))
  }

  lemma {:induction false} HasDriveIff(t: string, colon: nat, limit: nat)
    ensures HasDriveFrom(t, colon, limit) <==> exists i: nat :: i + 1 >= colon && i + 4 <= limit && DriveAt(t, i)
    decreases |t| - colon
  {
    if colon < |t| {
      HasDriveIff(t, colon + 1, limit);
      if i: nat :| i + 1 >= colon && i + 4 <= limit && DriveAt(t, i) {
        assert i + 1 == colon || i + 1 >= colon + 1;
      }
    }
  }

  lemma {:induction false} NameBehindSep(p: string)
    ensures |AfterLastSep(p)| < |p| ==> IsSep(p[|p| - |AfterLastSep(p)| - 1])
  {
    if p != "" && !IsSep(p[|p| - 1]) {
      NameBehindSep(p[..|p| - 1]);
    }
  }

  lemma NameStartsPlainly(t: string)
    requires TokenLen(t) > 0
    ensures var x := BasenameOf(t[..TokenLen(t)]); x != "" ==> !IsDelimiter(x[0])
  {
    var n, m := TokenLen(t), StartLen(t);
    var p := TrimSlashes(t[..n]);
    var x := AfterLastSep(p);
    NameBehindSep(p);
    if x != "" {
      var k := |p| - |x|;
      assert x[0] == t[k] && x[0] in x;
      assert k > 0 ==> p[k - 1] == t[k - 1];
      assert forall i :: m <= i < n ==> t[i] == t[m..][i - m];
    }
  }

  lemma ShowsFirstIff(t: string)
    ensures ShowsFirst(t) <==> Stripped(t) != "" && !IsDelimiter(Stripped(t)[0])
  {
    var n := TokenLen(t);
    if n > 0 {
      NameStartsPlainly(t);
      TokenStops(t);
      if n < |t| {
        DelimiterIsCopied(t[n..]);
      }
    }
  }

  /** A backslash that comes out first, with something shown behind it. */
  lemma BackslashShowsIff(t: string)
    ensures (var o := Stripped(t); |o| >= 2 && o[0] == '\\' && !IsDelimiter(o[1]))
       <==> t != "" && t[0] == '\\' && TokenLen(t) == 0 && ShowsFirst(t[1..])
  {
    var o := Stripped(t);
    if o != "" && o[0] == '\\' {
      BackslashIsCopied(t);
    }
    if t != "" && t[0] == '\\' && TokenLen(t) == 0 {
      assert o == ['\\'] + Stripped(t[1..]);
      ShowsFirstIff(t[1..]);
    }
  }

  lemma DriveAcross(shown: string, c: char, o: string)
    ensures shown != "" && DriveAt(shown + ([c] + o), |shown| - 1)
       <==> EndsInLetter(shown) && c == ':' && |o| >= 2 && o[0] == '\\' && !IsDelimiter(o[1])
  {
    var out := shown + ([c] + o);
    assert out[|shown|] == c;
    assert forall k :: 0 <= k < |o| ==> out[|shown| + 1 + k] == o[k];
  }

  lemma OpensDriveIff(shown: string, t: string)
    requires t != "" && TokenLen(t) == 0
    ensures EndsInLetter(shown) && OpensDrive(t) <==> shown != "" && DriveAt(shown + Stripped(t), |shown| - 1)
  {
    DriveAcross(shown, t[0], Stripped(t[1..]));
    BackslashShowsIff(t[1..]);
    assert |t| > 1 ==> t[1..][0] == t[1] && t[1..][1..] == t[2..];
  }

  /** A letter that was copied would have started the path itself. */
  lemma CopiedLetterOpensNothing(c: char, t: string)
    requires IsLetter(c) && TokenLen([c] + t) == 0
    ensures !OpensDrive(t)
  {
    if |t| > 2 && t[0] == ':' && t[1] == '\\' {
      var u := [c] + t;
      assert StartLen(u) == 3 && u[3..] == t[2..];
      if TokenLen(t[2..]) > 0 {
        TokenStartsPlainly(t[2..]);
      }
    }
  }

  lemma TokenStartsPlainly(t: string)
    requires TokenLen(t) > 0
    ensures !IsDelimiter(t[0])
  {
  }

  /** No drive has its colon inside the name of a path, which is followed by a delimiter. */
  lemma NoDriveInName(shown: string, x: string, y: string, i: nat)
    requires (forall c :: c in x ==> !IsSep(c)) && (y != "" ==> !IsSep(y[0]))
    requires |shown| <= i + 1 < |shown| + |x|
    ensures !DriveAt(shown + x + y, i)
  {
    var out, k := shown + x + y, i + 2 - |shown|;
    if i + 2 < |out| {
      if k < |x| {
        assert out[i + 2] == x[k] && x[k] in x;
      } else {
        assert out[i + 2] == y[0];
      }
    }
  }

  lemma {:induction false} SkipName(shown: string, x: string, y: string, k: nat, limit: nat)
    requires (forall c :: c in x ==> !IsSep(c)) && (y != "" ==> !IsSep(y[0])) && k <= |x|
    ensures HasDriveFrom(shown + x + y, |shown| + k, limit) <==> HasDriveFrom(shown + x + y, |shown + x|, limit)
    decreases |x| - k
  {
    if k < |x| {
      SkipName(shown, x, y, k + 1, limit);
      if |shown| + k > 0 {
        NoDriveInName(shown, x, y, |shown| + k - 1);
      }
    }
  }

  lemma NoneAtTheEnd(shown: string, limit: nat)
    ensures !HasDriveFrom(shown + "", |shown|, limit)
  {
    assert shown + "" == shown;
  }

  lemma TokenThenDelimiter(t: string)
    requires TokenLen(t) > 0
    ensures var y := Stripped(t[TokenLen(t)..]); y != "" ==> !IsSep(y[0])
  {
    var n := TokenLen(t);
    TokenStops(t);
    if n < |t| {
      DelimiterIsCopied(t[n..]);
    }
  }

  lemma StrippedToken(t: string)
    requires TokenLen(t) > 0
    ensures Stripped(t) == BasenameOf(t[..TokenLen(t)]) + Stripped(t[TokenLen(t)..])
  {
  }

  lemma TokenLeaves(shown: string, afterToken: bool, t: string, limit: nat)
    requires TokenLen(t) > 0
    ensures LeavesDrive(shown, afterToken, t, limit)
         == LeavesDrive(shown + BasenameOf(t[..TokenLen(t)]), true, t[TokenLen(t)..], limit)
  {
  }

  lemma SplitHasDrive(shown: string, x: string, y: string, out: string, limit: nat)
    requires (forall c :: c in x ==> !IsSep(c)) && (y != "" ==> !IsSep(y[0])) && out == x + y
    ensures HasDriveFrom(shown + out, |shown|, limit) <==> HasDriveFrom(shown + x + y, |shown + x|, limit)
  {
    assert shown + out == shown + x + y;
    SkipName(shown, x, y, 0, limit);
  }

  lemma TokenHasDrive(shown: string, t: string, limit: nat)
    requires TokenLen(t) > 0
    ensures var x, rest := BasenameOf(t[..TokenLen(t)]), t[TokenLen(t)..];
            HasDriveFrom(shown + Stripped(t), |shown|, limit) <==> HasDriveFrom(shown + x + Stripped(rest), |shown + x|, limit)
  {
    StrippedToken(t);
    TokenThenDelimiter(t);
    SplitHasDrive(shown, BasenameOf(t[..TokenLen(t)]), Stripped(t[TokenLen(t)..]), Stripped(t), limit);
  }

  lemma TokenLeavesIff(shown: string, afterToken: bool, t: string, limit: nat, x: string, rest: string)
    requires TokenLen(t) > 0 && x == BasenameOf(t[..TokenLen(t)]) && rest == t[TokenLen(t)..]
    requires LeavesDrive(shown + x, true, rest, limit) <==> HasDriveFrom(shown + x + Stripped(rest), |shown + x|, limit)
    ensures LeavesDrive(shown, afterToken, t, limit) <==> HasDriveFrom(shown + Stripped(t), |shown|, limit)
  {
    TokenLeaves(shown, afterToken, t, limit);
    TokenHasDrive(shown, t, limit);
  }

  lemma CopyLeaves(shown: string, afterToken: bool, t: string, limit: nat)
    requires t != "" && TokenLen(t) == 0
    ensures LeavesDrive(shown, afterToken, t, limit)
       <==> || (afterToken && EndsInLetter(shown) && OpensDrive(t) && |shown| + 3 <= limit)
            || LeavesDrive(shown + [t[0]], false, t[1..], limit)
  {
  }

  lemma StrippedCopy(shown: string, t: string)
    requires t != "" && TokenLen(t) == 0
    ensures shown + Stripped(t) == shown + [t[0]] + Stripped(t[1..])
  {
    CopiedIs(t);
    Joined(shown, t[0], Stripped(t[1..]));
  }

  lemma CopiedIs(t: string)
    requires t != "" && TokenLen(t) == 0
    ensures Stripped(t) == [t[0]] + Stripped(t[1..])
  {
  }

  lemma Joined(shown: string, c: char, o: string)
    ensures shown + ([c] + o) == shown + [c] + o
  {
  }

  lemma CopyLeavesIff(shown: string, afterToken: bool, t: string, limit: nat, next: string)
    requires t != "" && TokenLen(t) == 0 && next == shown + [t[0]]
    requires !afterToken && EndsInLetter(shown) ==> TokenLen([shown[|shown| - 1]] + t) == 0
    requires LeavesDrive(next, false, t[1..], limit) <==> HasDriveFrom(next + Stripped(t[1..]), |next|, limit)
    ensures LeavesDrive(shown, afterToken, t, limit) <==> HasDriveFrom(shown + Stripped(t), |shown|, limit)
  {
    CopyLeaves(shown, afterToken, t, limit);
    StrippedCopy(shown, t);
    CopyLeavesDriveIff(shown, afterToken, t, limit);
  }

  lemma {:induction false} LeavesDriveIff(shown: string, afterToken: bool, t: string, limit: nat)
    requires !afterToken && EndsInLetter(shown) ==> TokenLen([shown[|shown| - 1]] + t) == 0
    ensures LeavesDrive(shown, afterToken, t, limit) <==> HasDriveFrom(shown + Stripped(t), |shown|, limit)
    decreases |t|
  {
    if t == "" {
      NoneAtTheEnd(shown, limit);
    } else if TokenLen(t) > 0 {
      var x, rest := BasenameOf(t[..TokenLen(t)]), t[TokenLen(t)..];
      LeavesDriveIff(shown + x, true, rest, limit);
      TokenLeavesIff(shown, afterToken, t, limit, x, rest);
    } else {
      var next := shown + [t[0]];
      assert next[|next| - 1] == t[0] && [t[0]] + t[1..] == t;
      LeavesDriveIff(next, false, t[1..], limit);
      CopyLeavesIff(shown, afterToken, t, limit, next);
    }
  }

  lemma CopyLeavesDriveIff(shown: string, afterToken: bool, t: string, limit: nat)
    requires t != "" && TokenLen(t) == 0
    requires !afterToken && EndsInLetter(shown) ==> TokenLen([shown[|shown| - 1]] + t) == 0
    ensures HasDriveFrom(shown + Stripped(t), |shown|, limit)
       <==> || (afterToken && EndsInLetter(shown) && OpensDrive(t) && |shown| + 3 <= limit)
            || HasDriveFrom(shown + Stripped(t), |shown| + 1, limit)
  {
    assert |Stripped(t)| > 0;
    OpensDriveIff(shown, t);
    if !afterToken && EndsInLetter(shown) {
      CopiedLetterOpensNothing(shown[|shown| - 1], t);
    }
  }

  lemma {:induction false} LeadingSpaces(t: string, i: nat)
    requires i < |t| - |TrimLeft(t)|
    ensures IsSpace(t[i])
  {
    if i > 0 {
      LeadingSpaces(t[1..], i - 1);
    }
  }

  lemma {:induction false} TrailingSpaces(t: string, i: nat)
    requires |TrimRight(t)| <= i < |t|
    ensures IsSpace(t[i])
  {
    if i < |t| - 1 {
      TrailingSpaces(t[..|t| - 1], i);
    }
  }

  function Lead(t: string): nat {
    |t| - Min(|TrimLeft(t)|, |t|)
  }

  /** What is left of a text is its part from the first character that is no space, cut at the limit. */
  lemma ShortenedIsCut(t: string)
    ensures var d := Shortened(t); Lead(t) + |d| <= |t| && d == t[Lead(t)..Lead(t) + |d|]
  {
    TrimLeftIsSuffix(t);
    var left, d := TrimLeft(t), Shortened(t);
    assert Trim(t) == left[..|Trim(t)|];
    assert d == left[..|d|] && left[..|d|] == t[Lead(t)..Lead(t) + |d|];
  }

  lemma DriveHasNoSpace(t: string, i: nat)
    requires DriveAt(t, i)
    ensures !IsSpace(t[i]) && !IsSpace(t[i + 3])
  {
  }

  lemma ShortenedKeepsDrive(t: string, i: nat)
    requires DriveAt(t, i) && i + 4 <= Lead(t) + MAX_DETAIL
    ensures Lead(t) <= i && i + 4 <= Lead(t) + |Shortened(t)|
  {
    DriveHasNoSpace(t, i);
    TrimLeftIsSuffix(t);
    var left := TrimLeft(t);
    if i < Lead(t) {
      LeadingSpaces(t, i);
    } else if i + 3 - Lead(t) >= |TrimRight(left)| {
      assert left[i + 3 - Lead(t)] == t[i + 3];
      TrailingSpaces(left, i + 3 - Lead(t));
    }
  }

  lemma DriveInCut(t: string, lead: nat, d: string, i: nat)
    requires lead + |d| <= |t| && d == t[lead..lead + |d|] && i + 4 <= |d|
    ensures DriveAt(d, i) <==> DriveAt(t, lead + i)
  {
    assert forall k :: 0 <= k < |d| ==> d[k] == t[lead + k];
  }

  lemma DriveFromCut(t: string, i: nat)
    requires DriveAt(Shortened(t), i)
    ensures DriveAt(t, Lead(t) + i) && i + 4 <= MAX_DETAIL
  {
    ShortenedIsCut(t);
    DriveInCut(t, Lead(t), Shortened(t), i);
  }

  lemma DriveIntoCut(t: string, i: nat)
    requires DriveAt(t, i) && i + 4 <= Lead(t) + MAX_DETAIL
    ensures i >= Lead(t) && DriveAt(Shortened(t), i - Lead(t))
  {
    ShortenedIsCut(t);
    ShortenedKeepsDrive(t, i);
    DriveInCut(t, Lead(t), Shortened(t), i - Lead(t));
  }

  lemma ShortenedNamesNoPathIff(t: string)
    requires SlashSafe(Shortened(t)) && UncSafe(Shortened(t))
    ensures NamesNoPath(Shortened(t)) <==> !HasDriveFrom(t, 0, Lead(t) + MAX_DETAIL)
  {
    var limit := Lead(t) + MAX_DETAIL;
    NamesNoPathIff(Shortened(t));
    HasDriveIff(t, 0, limit);
    if HasDriveFrom(t, 0, limit) {
      var i: nat :| i + 1 >= 0 && i + 4 <= limit && DriveAt(t, i);
      DriveIntoCut(t, i);
    } else if !NamesNoPath(Shortened(t)) {
      var i: nat :| DriveAt(Shortened(t), i);
      DriveFromCut(t, i);
    }
  }

  lemma ShortenedIsUncSafe(t: string)
    requires UncSafe(t)
    ensures UncSafe(Shortened(t))
  {
    var d := Shortened(t);
    ShortenedIsCut(t);
    assert forall k :: 0 <= k < |d| ==> d[k] == t[Lead(t) + k];
  }

  lemma DetailIsSafe(line: string)
    ensures SlashSafe(Sanitized(line)) && UncSafe(Sanitized(line))
  {
    DetailIsShowable(line);
    StrippedIsUncSafe(WithoutControls(line));
    ShortenedIsUncSafe(Stripped(WithoutControls(line)));
  }

  lemma ScanDecides(shown: string, afterToken: bool, clean: string, limit: nat)
    requires shown == "" && !afterToken
    ensures LeavesDrive(shown, afterToken, clean, limit) <==> HasDriveFrom(Stripped(clean), |shown|, limit)
  {
    LeavesDriveIff(shown, afterToken, clean, limit);
    NothingBefore(shown, Stripped(clean));
  }

  lemma NothingBefore(shown: string, t: string)
    requires shown == ""
    ensures shown + t == t
  {
  }

  /** Exactly when a detail names an absolute path of any kind: when the scan leaves a drive before the
      place where the detail is cut. */
  lemma DetailNamesNoPath(line: string)
    ensures var clean := WithoutControls(line);
            NamesNoPath(Sanitized(line)) <==> !LeavesDrive("", false, clean, Lead(Stripped(clean)) + MAX_DETAIL)
  {
    var clean := WithoutControls(line);
    DetailIsSafe(line);
    ShortenedNamesNoPathIff(Stripped(clean));
    ScanDecides("", false, clean, Lead(Stripped(clean)) + MAX_DETAIL);
  }

  lemma ColonBackslashIsCopied()
    ensures Stripped(":\\x") == ":\\x"
  {
    var u, v, w := ":\\x", "\\x", "x";
    assert u[1..] == v && v[1..] == w && w[1..] == "";
    assert TokenLen(w) == 0 && TokenLen(v) == 0;
    DelimiterIsCopied(u);
    assert Stripped(w) == "x" + Stripped("");
    assert Stripped(v) == "\\" + Stripped(w);
  }

  lemma NameBeforeColon()
    ensures BasenameOf("/a/C") == "C"
  {
    var p := "/a/C";
    assert p[..3] == "/a/" && p[|p| - 1] == 'C';
    assert AfterLastSep(p[..3]) == "";
    assert AfterLastSep(p) == AfterLastSep(p[..3]) + "C";
  }

  lemma TokenBeforeColon(t: string)
    requires t == "/a/C:\\x"
    ensures TokenLen(t) == 4 && t[..4] == "/a/C" && t[4..] == ":\\x"
  {
    assert t[1..] == "a/C" + ":\\x";
    RunOf("a/C", ":\\x");
    assert StartLen(t) == 1;
  }

  lemma DriveIsAToken(t: string)
    requires t == "C:\\x"
    ensures TokenLen(t) > 0
  {
    assert t[3..] == "x" + "";
    RunOf("x", "");
    assert StartLen(t) == 3;
  }

  lemma NameThenDrive(t: string, name: string, rest: string)
    requires TokenLen(t) > 0 && BasenameOf(t[..TokenLen(t)]) == name && t[TokenLen(t)..] == rest && Stripped(rest) == rest
    ensures Stripped(t) == name + rest
  {
    StrippedToken(t);
  }

  /** A plain drive path is stripped to its last name. But in `/a/C:\x` the slash path ends at the
      colon, and its last name becomes the drive. */
  lemma DriveCanBeLeft()
    ensures Stripped("/a/C:\\x") == "C" + ":\\x" == "C:\\x" && TokenLen("C:\\x") > 0
  {
    TokenBeforeColon("/a/C:\\x");
    NameBeforeColon();
    ColonBackslashIsCopied();
    NameThenDrive("/a/C:\\x", "C", ":\\x");
    DriveIsAToken("C:\\x");
  }

  lemma {:induction false} RunOf(x: string, y: string)
    requires (forall i :: 0 <= i < |x| ==> !IsDelimiter(x[i])) && (y != "" ==> IsDelimiter(y[0]))
    ensures TokenRun(x + y) == |x|
  {
    if x != "" {
      assert (x + y)[1..] == x[1..] + y;
      RunOf(x[1..], y);
    } else {
      assert x + y == y;
    }
  }
}
