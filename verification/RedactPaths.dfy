/** Redaction of filesystem paths in free text (packages/shared/src/redact-paths.ts and the copy in
    packages/jobs/src/redact-paths.ts). The patterns are written out as matchers; the two copies
    share them and differ in what they put in place of a match. */
module RedactPaths {
  import opened Common
  import opened Text

  // ---------------------------------------------------------------- characters

  predicate IsSep(c: char) {
    c == '/' || c == '\\'
  }

  predicate IsBlank(c: char) {
    c == ' ' || c == '\t'
  }

  /** Quotes, parentheses and brackets end a token. */
  predicate IsBracket(c: char) {
    c == '\'' || c == '"' || c == '(' || c == ')' || c == '[' || c == ']'
  }

  predicate IsWord(c: char) {
    !IsSep(c) && !IsSpace(c) && !IsBracket(c)
  }

  predicate IsLetter(c: char) {
    'a' <= LowerChar(c) <= 'z'
  }

  predicate StartsWith(t: string, prefix: string) {
    |prefix| <= |t| && t[..|prefix|] == prefix
  }

  // ---------------------------------------------------------------- the bare-path pattern

  /** The length of the absolute-path marker `t` starts with, or 0: a file URL's scheme, a UNC prefix,
      a drive, or a slash. */
  function MarkerLen(t: string): (n: nat)
    ensures n <= |t|
  {
    if |t| >= 7 && StartsWith(Lower(t[..7]), "file://") then 7
    else if |t| >= 2 && t[0] == '\\' && t[1] == '\\' then 2
    else if |t| >= 3 && IsLetter(t[0]) && t[1] == ':' && IsSep(t[2]) then 3
    else if |t| >= 1 && t[0] == '/' then 1
    else 0
  }

  function BlankRun(t: string): (n: nat)
    ensures n <= |t| && forall i :: 0 <= i < n ==> IsBlank(t[i])
    ensures n < |t| ==> !IsBlank(t[n])
  {
    if t == "" || !IsBlank(t[0]) then 0 else 1 + BlankRun(t[1..])
  }

  /** The token that `t` starts with holds a separator. */
  predicate Reaches(t: string) {
    t != "" && (IsSep(t[0]) || (IsWord(t[0]) && Reaches(t[1..])))
  }

  /** How far a path goes on after its marker: through separators and words, and over blanks only when
      the token behind them holds a separator. */
  function BodyLen(t: string): (n: nat)
    ensures n <= |t|
    decreases |t|
  {
    if t == "" then 0
    else if IsSep(t[0]) || IsWord(t[0]) then 1 + BodyLen(t[1..])
    else
      var k := BlankRun(t);
      if k > 0 && Reaches(t[k..]) then k + BodyLen(t[k..]) else 0
  }

  /** A character that, in front of a marker, makes it a path's start. */
  predicate IsBoundary(c: char) {
    IsSpace(c) || c == '(' || c == '[' || c == '=' || c == ','
  }

  /** A glued `key:` before a single slash. */
  predicate GluedColon(t: string) {
    |t| >= 2 && t[0] == ':' && t[1] == '/' && !(|t| >= 3 && t[2] == '/')
  }

  datatype Match = Match(pre: nat, path: nat)

  /** The pattern at the head of `t`: the length of the boundary kept, and of the path. */
  function TryBare(atStart: bool, t: string): (m: Option<Match>)
    ensures m.Some? ==> m.value.pre <= 1 && m.value.path > 0 && m.value.pre + m.value.path <= |t|
  {
    if atStart && MarkerLen(t) > 0 then Some(Match(0, PathLen(t)))
    else if t != "" && (IsBoundary(t[0]) || GluedColon(t)) && MarkerLen(t[1..]) > 0 then Some(Match(1, PathLen(t[1..])))
    else None
  }

  function PathLen(t: string): (n: nat)
    requires MarkerLen(t) > 0
    ensures 0 < n <= |t|
  {
    MarkerLen(t) + BodyLen(t[MarkerLen(t)..])
  }

  /** Rule 4 on the rest of a line, every match replaced by `put`. */
  function Bare(atStart: bool, t: string, put: string -> string): string
    decreases |t|
  {
    if t == "" then ""
    else
      match TryBare(atStart, t)
      case None => [t[0]] + Bare(false, t[1..], put)
      case Some(m) => t[..m.pre] + put(t[m.pre..m.pre + m.path]) + Bare(false, t[m.pre + m.path..], put)
  }

  // ---------------------------------------------------------------- what replaces a path

  function NormalizeSlashes(p: string): (q: string)
    ensures |q| == |p| && forall i :: 0 <= i < |p| ==> q[i] == (if p[i] == '\\' then '/' else p[i])
  {
    seq(|p|, i requires 0 <= i < |p| => if p[i] == '\\' then '/' else p[i])
  }

  function StripFileUrlPrefix(p: string, decode: string -> string): string {
    if |p| >= 7 && Lower(p[..7]) == "file://" then decode(p[7..]) else p
  }

  function TrimSlashes(p: string): (q: string)
    ensures forall c :: c in q ==> c in p
  {
    if p != "" && p[|p| - 1] == '/' then TrimSlashes(p[..|p| - 1]) else p
  }

  function AfterLastSlash(p: string): (q: string)
    ensures '/' !in q && forall c :: c in q ==> c in p
  {
    if p == "" then ""
    else if p[|p| - 1] == '/' then ""
    else AfterLastSlash(p[..|p| - 1]) + [p[|p| - 1]]
  }

  /** `decode` undoes percent-encoding, or gives its argument back when that is malformed. */
  function BasenameOf(p: string, decode: string -> string): (b: string)
    ensures forall c :: c in b ==> !IsSep(c)
  {
    var normalized := NormalizeSlashes(StripFileUrlPrefix(p, decode));
    AfterLastSlash(TrimSlashes(normalized))
  }

  const REDACTED := "<redacted>"

  function Redacted(p: string, decode: string -> string): string {
    REDACTED + "/" + BasenameOf(p, decode)
  }

  /** The shared copy: redact what the caller decides to. */
  function PutShared(decide: string -> bool, decode: string -> string): string -> string {
    (p: string) => if decide(p) then Redacted(p, decode) else p
  }

  /** The jobs copy: redact everything. */
  function PutJobs(decode: string -> string): string -> string {
    (p: string) => Redacted(p, decode)
  }

  // ---------------------------------------------------------------- markers and tokens

  predicate NoSep(t: string) {
    forall c :: c in t ==> !IsSep(c)
  }

  /** The marker's own characters decide: what stands behind it does not matter. */
  lemma MarkerIsLocal(t: string, u: string)
    requires MarkerLen(t) > 0 && |u| >= MarkerLen(t) && u[..MarkerLen(t)] == t[..MarkerLen(t)]
    ensures MarkerLen(u) == MarkerLen(t)
  {
    var n := MarkerLen(t);
    assert forall i :: 0 <= i < n ==> u[i] == t[..n][i] == t[i];
    if n == 7 {
      assert u[..7] == t[..7];
    } else {
      FileMarker(t);
      FileMarker(u);
    }
  }

  lemma FileMarker(t: string)
    ensures |t| >= 7 && StartsWith(Lower(t[..7]), "file://")
       <==> |t| >= 7 && LowerChar(t[0]) == 'f' && LowerChar(t[1]) == 'i' && LowerChar(t[2]) == 'l' && LowerChar(t[3]) == 'e'
            && LowerChar(t[4]) == ':' && LowerChar(t[5]) == '/' && LowerChar(t[6]) == '/'
  {
    if |t| >= 7 {
      var l := Lower(t[..7]);
      assert l == [l[0], l[1], l[2], l[3], l[4], l[5], l[6]];
      assert l[..7] == l;
    }
  }

  /** A marker is made of letters, a colon and separators. */
  predicate MarkerChar(c: char) {
    IsLetter(c) || c == ':' || IsSep(c)
  }

  lemma MarkerChars(t: string)
    requires MarkerLen(t) > 0
    ensures forall i :: 0 <= i < MarkerLen(t) ==> MarkerChar(t[i])
    ensures IsSep(t[MarkerLen(t) - 1])
  {
    FileMarker(t);
  }

  lemma {:induction false} ReachesBy(t: string, n: nat)
    requires n < |t| && IsSep(t[n]) && forall i :: 0 <= i < n ==> IsSep(t[i]) || IsWord(t[i])
    ensures Reaches(t)
  {
    if n > 0 && !IsSep(t[0]) {
      ReachesBy(t[1..], n - 1);
    }
  }

  lemma MarkerReaches(t: string)
    requires MarkerLen(t) > 0
    ensures Reaches(t)
  {
    MarkerChars(t);
    ReachesBy(t, MarkerLen(t) - 1);
  }

  // ---------------------------------------------------------------- what one pass leaves alone

  /** Nothing is put before its opening angle bracket. */
  ghost predicate Opens(put: string -> string) {
    forall p: string :: p != "" ==> put(p) == p || (put(p) != "" && put(p)[0] == '<')
  }

  lemma SameFront(front: string, rest: string, tail: string, k: nat)
    requires k <= |front + rest|
    requires k > |front| ==> k - |front| <= |tail| && rest[..k - |front|] == tail[..k - |front|]
    ensures k <= |front + tail| && (front + rest)[..k] == (front + tail)[..k]
  {
    if k > |front| {
      assert (front + rest)[..k] == front + rest[..k - |front|];
      assert (front + tail)[..k] == front + tail[..k - |front|];
    }
  }

  lemma OpenIsSeen(front: string, mid: string, rest: string, k: nat)
    requires mid != "" && mid[0] == '<' && |front| < k <= |front + mid + rest|
    ensures '<' in (front + mid + rest)[..k]
  {
    assert (front + mid + rest)[..k][|front|] == '<';
  }

  lemma MatchParts(atStart: bool, t: string, put: string -> string)
    requires TryBare(atStart, t).Some?
    ensures var m := TryBare(atStart, t).value;
            && t == t[..m.pre] + t[m.pre..m.pre + m.path] + t[m.pre + m.path..]
            && Bare(atStart, t, put)
               == t[..m.pre] + put(t[m.pre..m.pre + m.path]) + Bare(false, t[m.pre + m.path..], put)
  {
  }

  lemma SameFrontOfMatch(pre: string, path: string, put: string, rest: string, tail: string, k: nat)
    requires put == path || (put != "" && put[0] == '<')
    requires k <= |pre + put + rest| && '<' !in (pre + put + rest)[..k]
    requires put == path && k > |pre + path|
             ==> k - |pre + path| <= |tail| && rest[..k - |pre + path|] == tail[..k - |pre + path|]
    ensures k <= |pre + path + tail| && (pre + put + rest)[..k] == (pre + path + tail)[..k]
  {
    if put == path {
      SameFront(pre + path, rest, tail, k);
    } else {
      if k > |pre| {
        OpenIsSeen(pre, put, rest, k);
      }
      assert pre + put + rest == pre + (put + rest) && pre + path + tail == pre + (path + tail);
      SameFront(pre, put + rest, path + tail, k);
    }
  }

  lemma TailOf(front: string, rest: string, k: nat)
    requires |front| <= k <= |front + rest| && '<' !in (front + rest)[..k]
    ensures '<' !in rest[..k - |front|]
  {
    assert (front + rest)[..k] == front + rest[..k - |front|];
  }

  /** Up to the first angle bracket of the output, the output is the input. */
  lemma {:induction false} SameUntilOpen(atStart: bool, t: string, put: string -> string, k: nat)
    requires Opens(put)
    requires k <= |Bare(atStart, t, put)| && '<' !in Bare(atStart, t, put)[..k]
    ensures k <= |t| && Bare(atStart, t, put)[..k] == t[..k]
    decreases |t|
  {
    if t != "" && TryBare(atStart, t).None? {
      var rest := Bare(false, t[1..], put);
      if k > 1 {
        TailOf([t[0]], rest, k);
        SameUntilOpen(false, t[1..], put, k - 1);
      }
      SameFront([t[0]], rest, t[1..], k);
      assert t == [t[0]] + t[1..];
    } else if t != "" {
      SameUntilOpenAtMatch(atStart, t, put, k);
    }
  }

  lemma {:induction false} SameUntilOpenAtMatch(atStart: bool, t: string, put: string -> string, k: nat)
    requires Opens(put) && TryBare(atStart, t).Some?
    requires k <= |Bare(atStart, t, put)| && '<' !in Bare(atStart, t, put)[..k]
    ensures k <= |t| && Bare(atStart, t, put)[..k] == t[..k]
    decreases |t|, 0
  {
    var m := TryBare(atStart, t).value;
    var pre, path, tail := t[..m.pre], t[m.pre..m.pre + m.path], t[m.pre + m.path..];
    var rest := Bare(false, tail, put);
    MatchParts(atStart, t, put);
    if put(path) == path && k > |pre + path| {
      TailOf(pre + path, rest, k);
      SameUntilOpen(false, tail, put, k - |pre + path|);
    }
    SameFrontOfMatch(pre, path, put(path), rest, tail, k);
  }

  lemma MarkerWasThere(atStart: bool, t: string, put: string -> string)
    requires Opens(put) && MarkerLen(Bare(atStart, t, put)) > 0
    ensures MarkerLen(t) > 0
  {
    var out := Bare(atStart, t, put);
    var n := MarkerLen(out);
    MarkerChars(out);
    assert '<' !in out[..n];
    SameUntilOpen(atStart, t, put, n);
    MarkerIsLocal(out, t);
  }

  /** Past the start of a line, the first character of what is left is always copied. */
  lemma FirstIsCopied(t: string, put: string -> string)
    ensures t == "" <==> Bare(false, t, put) == ""
    ensures t != "" ==> Bare(false, t, put)[0] == t[0]
  {
  }

  lemma SlashIsCopied(t: string, put: string -> string)
    requires t != "" && t[0] == '/'
    ensures Bare(false, t, put) == "/" + Bare(false, t[1..], put)
  {
    assert TryBare(false, t).None?;
  }

  /** Where nothing matched, nothing matches in the output either. */
  lemma NoMatchStays(atStart: bool, t: string, put: string -> string)
    requires Opens(put) && t != "" && TryBare(atStart, t).None?
    ensures TryBare(atStart, Bare(atStart, t, put)).None?
  {
    var rest := Bare(false, t[1..], put);
    var out := [t[0]] + rest;
    assert Bare(atStart, t, put) == out && out[1..] == rest;
    if atStart && MarkerLen(out) > 0 {
      MarkerWasThere(atStart, t, put);
    }
    if IsBoundary(t[0]) && MarkerLen(rest) > 0 {
      MarkerWasThere(false, t[1..], put);
    }
    if GluedColon(out) {
      FirstIsCopied(t[1..], put);
      assert t[1] == '/';
      assert MarkerLen(t[1..]) > 0;
      assert t[2] == '/';
      SlashIsCopied(t[1..], put);
      FirstIsCopied(t[1..][1..], put);
    }
  }

  // ---------------------------------------------------------------- text that is passed over

  predicate Ends(t: string) {
    t == "" || (!IsSep(t[0]) && !IsWord(t[0]))
  }

  /** No match starts in `x` when `o` follows it. */
  predicate Skips(atStart: bool, x: string, o: string) {
    x == "" || (TryBare(atStart, x + o).None? && Skips(false, x[1..], o))
  }

  lemma {:induction false} SkippedIsCopied(atStart: bool, x: string, o: string, put: string -> string)
    requires Skips(atStart, x, o) && x != ""
    ensures Bare(atStart, x + o, put) == x + Bare(false, o, put)
  {
    CopiedStep(atStart, x, o, put);
    if |x| == 1 {
      assert x[1..] + o == o && x == [x[0]];
    } else {
      SkippedIsCopied(false, x[1..], o, put);
      HeadAndTail(x, Bare(false, o, put));
    }
  }

  lemma HeadAndTail(x: string, o: string)
    requires x != ""
    ensures [x[0]] + (x[1..] + o) == x + o
  {
    assert [x[0]] + x[1..] == x;
  }

  lemma CopiedStep(atStart: bool, x: string, o: string, put: string -> string)
    requires x != "" && TryBare(atStart, x + o).None?
    ensures Bare(atStart, x + o, put) == [x[0]] + Bare(false, x[1..] + o, put)
  {
    assert (x + o)[0] == x[0] && (x + o)[1..] == x[1..] + o;
  }

  /** No match starts anywhere in `t`. */
  predicate Clean(atStart: bool, t: string) {
    t == "" || (TryBare(atStart, t).None? && Clean(false, t[1..]))
  }

  lemma {:induction false} SkippedIsClean(atStart: bool, x: string, o: string)
    requires Skips(atStart, x, o) && x != "" && Clean(false, o)
    ensures Clean(atStart, x + o)
  {
    assert (x + o)[1..] == x[1..] + o;
    if |x| == 1 {
      assert x[1..] + o == o;
    } else {
      SkippedIsClean(false, x[1..], o);
    }
  }

  lemma {:induction false} SkipsConcat(atStart: bool, x: string, y: string, o: string)
    requires Skips(atStart, x, y + o) && Skips(false, y, o) && x != ""
    ensures Skips(atStart, x + y, o)
  {
    assert (x + y) + o == x + (y + o) && (x + y)[1..] == x[1..] + y;
    if |x| == 1 {
      assert x[1..] + y == y;
    } else {
      SkipsConcat(false, x[1..], y, o);
    }
  }

  /** `o` does not carry a marker on. */
  predicate Stops(o: string) {
    o == "" || !MarkerChar(o[0])
  }

  lemma NoSepAt(x: string, o: string, n: nat)
    requires NoSep(x) && Stops(o) && n < |x + o| && forall i :: 0 <= i <= n ==> MarkerChar((x + o)[i])
    ensures !IsSep((x + o)[n])
  {
    assert o != "" ==> (x + o)[|x|] == o[0] && !MarkerChar(o[0]);
    assert n < |x| ==> (x + o)[n] == x[n] && x[n] in x;
  }

  lemma NoMarkerInto(x: string, o: string)
    requires NoSep(x) && Stops(o)
    ensures MarkerLen(x + o) == 0
  {
    var n := MarkerLen(x + o);
    if n > 0 {
      MarkerChars(x + o);
      NoSepAt(x, o, n - 1);
    }
  }

  /** Text without separators starts no path. */
  lemma {:induction false} NoSepIsSkipped(atStart: bool, x: string, o: string)
    requires NoSep(x) && Stops(o)
    ensures Skips(atStart, x, o)
  {
    if x != "" {
      assert (x + o)[1..] == x[1..] + o;
      NoMarkerInto(x, o);
      NoMarkerInto(x[1..], o);
      NoSepIsSkipped(false, x[1..], o);
    }
  }

  predicate Inert(x: string) {
    forall i :: 0 <= i < |x| ==> !IsBoundary(x[i]) && x[i] != ':'
  }

  lemma {:induction false} InertIsSkipped(x: string, o: string)
    requires Inert(x)
    ensures Skips(false, x, o)
  {
    if x != "" {
      InertIsSkipped(x[1..], o);
    }
  }

  /** What stands for a redacted path is never matched. */
  lemma RedactionIsSkipped(atStart: bool, base: string, o: string)
    requires NoSep(base) && Ends(o)
    ensures Skips(atStart, REDACTED + "/" + base, o)
  {
    NoSepIsSkipped(false, base, o);
    WordIsSkipped(base, o);
    OpenIsSkipped(atStart, WORD + base, o);
    assert REDACTED + "/" + base == "<" + (WORD + base);
  }

  /** What follows the opening bracket. */
  const WORD := "redacted>/"

  lemma WordIsInert()
    ensures Inert(WORD) && WORD != ""
  {
  }

  lemma WordIsSkipped(base: string, o: string)
    requires Skips(false, base, o)
    ensures Skips(false, WORD + base, o)
  {
    WordIsInert();
    InertIsSkipped(WORD, base + o);
    SkipsConcat(false, WORD, base, o);
  }

  /** Nor is the boundary before it. */
  lemma BoundaryIsSkipped(atStart: bool, c: char, x: string, o: string)
    requires IsBoundary(c) || c == ':'
    requires x != "" && x[0] == '<' && Skips(false, x, o)
    ensures Skips(atStart, [c] + x, o)
  {
    var t := [c] + x + o;
    assert t[0] == c && t[1] == '<' && t[1..] == x + o && ([c] + x)[1..] == x;
    FileMarker(t);
    FileMarker(t[1..]);
  }

  lemma OpenIsSkipped(atStart: bool, tail: string, o: string)
    requires Skips(false, tail, o)
    ensures Skips(atStart, "<" + tail, o)
  {
    var t := "<" + tail + o;
    assert t[0] == '<' && ("<" + tail)[1..] == tail;
    FileMarker(t);
  }

  // ---------------------------------------------------------------- where a path ends

  lemma {:induction false} BodyStops(t: string)
    ensures BodyLen(t[BodyLen(t)..]) == 0 && Ends(t[BodyLen(t)..])
    decreases |t|
  {
    if t != "" && (IsSep(t[0]) || IsWord(t[0])) {
      BodyStops(t[1..]);
      assert t[1..][BodyLen(t[1..])..] == t[BodyLen(t)..];
    } else if t != "" {
      var k := BlankRun(t);
      if k > 0 && Reaches(t[k..]) {
        BodyStops(t[k..]);
        assert t[k..][BodyLen(t[k..])..] == t[BodyLen(t)..];
      } else {
        assert t[0..] == t;
      }
    }
  }

  lemma PathStops(t: string)
    requires MarkerLen(t) > 0
    ensures Ends(t[PathLen(t)..]) && BodyLen(t[PathLen(t)..]) == 0
  {
    var n := MarkerLen(t);
    BodyStops(t[n..]);
    assert t[n..][BodyLen(t[n..])..] == t[PathLen(t)..];
  }

  lemma MatchStops(atStart: bool, t: string)
    requires TryBare(atStart, t).Some?
    ensures var m := TryBare(atStart, t).value;
            && Ends(t[m.pre + m.path..]) && BodyLen(t[m.pre + m.path..]) == 0
            && (m.pre == 1 ==> IsBoundary(t[0]) || t[0] == ':')
  {
    var m := TryBare(atStart, t).value;
    if m.pre == 0 {
      PathStops(t);
    } else {
      PathStops(t[1..]);
      assert t[1..][m.path..] == t[m.pre + m.path..];
    }
  }

  lemma RedactedMatchIsSkipped(atStart: bool, t: string, base: string, o: string)
    requires TryBare(atStart, t).Some? && NoSep(base) && Ends(o)
    ensures Skips(atStart, t[..TryBare(atStart, t).value.pre] + (REDACTED + "/" + base), o)
  {
    var x := REDACTED + "/" + base;
    assert x[0] == '<';
    MatchStops(atStart, t);
    if TryBare(atStart, t).value.pre == 0 {
      RedactionIsSkipped(atStart, base, o);
      assert t[..0] + x == x;
    } else {
      RedactionIsSkipped(false, base, o);
      BoundaryIsSkipped(atStart, t[0], x, o);
      assert t[..1] + x == [t[0]] + x;
    }
  }

  // ---------------------------------------------------------------- the output is clean

  lemma RedactedMatchIsClean(atStart: bool, t: string, base: string, o: string)
    requires TryBare(atStart, t).Some? && NoSep(base) && Ends(o) && Clean(false, o)
    ensures Clean(atStart, t[..TryBare(atStart, t).value.pre] + (REDACTED + "/" + base) + o)
  {
    var x := t[..TryBare(atStart, t).value.pre] + (REDACTED + "/" + base);
    RedactedMatchIsSkipped(atStart, t, base, o);
    SkippedIsClean(atStart, x, o);
  }

  /** Redacting everything leaves no absolute path behind a boundary the pattern knows. */
  lemma {:induction false} NothingLeftToRedact(atStart: bool, t: string, decode: string -> string)
    ensures Clean(atStart, Bare(atStart, t, PutJobs(decode)))
    decreases |t|
  {
    var put := PutJobs(decode);
    var out := Bare(atStart, t, put);
    if t == "" {
    } else if TryBare(atStart, t).None? {
      NoMatchStays(atStart, t, put);
      NothingLeftToRedact(false, t[1..], decode);
      assert out[1..] == Bare(false, t[1..], put);
    } else {
      var m := TryBare(atStart, t).value;
      var rest := t[m.pre + m.path..];
      var o := Bare(false, rest, put);
      MatchStops(atStart, t);
      FirstIsCopied(rest, put);
      NothingLeftToRedact(false, rest, decode);
      RedactedMatchIsClean(atStart, t, BasenameOf(t[m.pre..m.pre + m.path], decode), o);
    }
  }

  // ---------------------------------------------------------------- a second pass changes nothing

  lemma {:induction false} ReachesInBody(t: string, o: string)
    requires Reaches(t)
    ensures Reaches(t[..BodyLen(t)] + o)
    decreases |t|
  {
    var n := BodyLen(t);
    assert (t[..n] + o)[0] == t[0];
    if !IsSep(t[0]) {
      ReachesInBody(t[1..], o);
      assert (t[..n] + o)[1..] == t[1..][..n - 1] + o;
    }
  }

  lemma {:induction false} BlankRunIs(t: string, k: nat)
    requires k <= |t| && (forall i :: 0 <= i < k ==> IsBlank(t[i])) && (k < |t| ==> !IsBlank(t[k]))
    ensures BlankRun(t) == k
  {
    if k > 0 {
      BlankRunIs(t[1..], k - 1);
    }
  }

  lemma Shifted(t: string, n: nat, k: nat, o: string)
    requires k <= n <= |t|
    ensures (t[..n] + o)[k..] == t[k..][..n - k] + o
    ensures (t[..n] + o)[..k] == t[..k]
  {
  }

  lemma BodyOverBlanks(u: string, k: nat)
    requires 0 < k < |u| && (forall i :: 0 <= i < k ==> IsBlank(u[i])) && !IsBlank(u[k]) && Reaches(u[k..])
    ensures BodyLen(u) == k + BodyLen(u[k..])
  {
    BlankRunIs(u, k);
  }

  /** A path's body stays the same whatever follows it, as long as that does not carry it on. */
  lemma {:induction false} BodyStays(t: string, o: string)
    requires BodyLen(o) == 0
    ensures BodyLen(t[..BodyLen(t)] + o) == BodyLen(t)
    decreases |t|
  {
    var n := BodyLen(t);
    var u := t[..n] + o;
    if n == 0 {
      assert u == o;
    } else if IsSep(t[0]) || IsWord(t[0]) {
      BodyStays(t[1..], o);
      Shifted(t, n, 1, o);
      assert u[0] == t[0];
    } else {
      var k := BlankRun(t);
      BodyStays(t[k..], o);
      ReachesInBody(t[k..], o);
      Shifted(t, n, k, o);
      assert k < n && u[k] == t[k];
      assert forall i :: 0 <= i < k ==> u[i] == t[i];
      BodyOverBlanks(u, k);
    }
  }

  lemma {:induction false} NoReachStays(u: string, put: string -> string)
    requires !Reaches(u)
    ensures !Reaches(Bare(false, u, put))
    decreases |u|
  {
    FirstIsCopied(u, put);
    if u != "" && IsWord(u[0]) {
      if MarkerLen(u[1..]) > 0 {
        MarkerReaches(u[1..]);
      }
      NoReachStays(u[1..], put);
      assert Bare(false, u, put)[1..] == Bare(false, u[1..], put);
    }
  }

  lemma BlankStartsNothing(t: string)
    requires t != "" && IsBlank(t[0]) && ((|t| > 1 && IsBlank(t[1])) || !Reaches(t[1..]))
    ensures TryBare(false, t).None?
  {
    if |t| > 1 && IsBlank(t[1]) {
      FileMarker(t[1..]);
    } else if MarkerLen(t[1..]) > 0 {
      MarkerReaches(t[1..]);
    }
  }

  lemma BareStep(t: string, put: string -> string)
    requires t != "" && TryBare(false, t).None?
    ensures Bare(false, t, put) == [t[0]] + Bare(false, t[1..], put)
  {
  }

  lemma Prepend(t: string, k: nat, x: string)
    requires 0 < k <= |t|
    ensures [t[0]] + (t[1..][..k - 1] + x) == t[..k] + x
  {
    assert t[..k] == [t[0]] + t[1..][..k - 1];
  }

  lemma {:induction false} BlanksAreCopied(t: string, k: nat, u: string, put: string -> string)
    requires k <= |t| && (forall i :: 0 <= i < k ==> IsBlank(t[i])) && u == t[k..] && !Reaches(u)
    ensures Bare(false, t, put) == t[..k] + Bare(false, u, put)
    decreases k
  {
    if k == 0 {
      assert u == t && t[..0] == "";
    } else {
      assert t[1..][k - 1..] == u;
      BlankStartsNothing(t) by {
        assert k == 1 ==> t[1..] == u;
        assert k > 1 ==> IsBlank(t[1]);
      }
      BlanksAreCopied(t[1..], k - 1, u, put);
      BareStep(t, put);
      Prepend(t, k, Bare(false, u, put));
    }
  }

  /** What ended a path before the pass ends it after. */
  lemma EndStays(rest: string, put: string -> string)
    requires Ends(rest) && BodyLen(rest) == 0
    ensures BodyLen(Bare(false, rest, put)) == 0
  {
    var o := Bare(false, rest, put);
    FirstIsCopied(rest, put);
    if rest != "" {
      var k := BlankRun(rest);
      if k > 0 {
        BlanksAreCopied(rest, k, rest[k..], put);
        NoReachStays(rest[k..], put);
        FirstIsCopied(rest[k..], put);
        assert o[k..] == Bare(false, rest[k..], put);
        BlankRunIs(o, k);
      }
    }
  }

  lemma PathStays(t: string, o: string)
    requires MarkerLen(t) > 0 && BodyLen(o) == 0
    ensures MarkerLen(t[..PathLen(t)] + o) > 0 && PathLen(t[..PathLen(t)] + o) == PathLen(t)
  {
    var n, m := PathLen(t), MarkerLen(t);
    var u := t[..n] + o;
    Shifted(t, n, m, o);
    MarkerIsLocal(t, u);
    BodyStays(t[m..], o);
  }

  lemma StartMatchStays(t: string, o: string)
    requires MarkerLen(t) > 0 && BodyLen(o) == 0
    ensures TryBare(true, t[..PathLen(t)] + o) == Some(Match(0, PathLen(t)))
  {
    PathStays(t, o);
  }

  lemma BoundaryMatchStays(atStart: bool, t: string, out: string, o: string)
    requires TryBare(atStart, t).Some? && TryBare(atStart, t).value.pre == 1
    requires BodyLen(o) == 0 && !(atStart && MarkerLen(out) > 0)
    requires var n := TryBare(atStart, t).value.path;
             && out == [t[0]] + (t[1..][..n] + o)
             && (n + 1 == |t| ==> o == "") && (n + 1 < |t| ==> o != "" && o[0] == t[n + 1])
    ensures TryBare(atStart, out) == TryBare(atStart, t)
  {
    PathStays(t[1..], o);
    var n := PathLen(t[1..]);
    assert out[1..] == t[1..][..n] + o;
    assert out[1] == t[1];
    assert n > 1 ==> out[2] == t[2];
    assert |out| > 2 && n == 1 ==> out[2] == o[0];
  }

  lemma RestStays(atStart: bool, t: string, put: string -> string)
    requires TryBare(atStart, t).Some?
    ensures var m := TryBare(atStart, t).value;
            var rest, o := t[m.pre + m.path..], Bare(false, t[m.pre + m.path..], put);
            BodyLen(o) == 0 && (rest == "" <==> o == "") && (rest != "" ==> o[0] == rest[0])
  {
    var m := TryBare(atStart, t).value;
    var rest := t[m.pre + m.path..];
    MatchStops(atStart, t);
    EndStays(rest, put);
    FirstIsCopied(rest, put);
  }

  /** A match that is left as it is matches again, at the same length. */
  lemma MatchStays(atStart: bool, t: string, put: string -> string)
    requires Opens(put) && TryBare(atStart, t).Some?
    requires var m := TryBare(atStart, t).value; put(t[m.pre..m.pre + m.path]) == t[m.pre..m.pre + m.path]
    ensures TryBare(atStart, Bare(atStart, t, put)) == TryBare(atStart, t)
  {
    var m := TryBare(atStart, t).value;
    var o := Bare(false, t[m.pre + m.path..], put);
    var out := Bare(atStart, t, put);
    RestStays(atStart, t, put);
    MatchParts(atStart, t, put);
    if m.pre == 0 {
      NothingInFront(t, m.path, o, out);
      StartMatchStays(t, o);
    } else {
      LeftAsItIs(t, m.path, o, out);
      if atStart && MarkerLen(out) > 0 {
        MarkerWasThere(atStart, t, put);
      }
      BoundaryMatchStays(atStart, t, out, o);
    }
  }

  lemma NothingInFront(t: string, n: nat, o: string, out: string)
    requires n <= |t| && out == t[..0] + t[0..0 + n] + o
    ensures out == t[..n] + o
  {
  }

  lemma LeftAsItIs(t: string, n: nat, o: string, out: string)
    requires n + 1 <= |t| && out == t[..1] + t[1..1 + n] + o
    ensures out == [t[0]] + (t[1..][..n] + o)
  {
    assert t[1..1 + n] == t[1..][..n];
  }

  /** Replaces a path by itself or by its redacted form. */
  ghost predicate Redacts(put: string -> string) {
    forall p: string :: put(p) == p || exists base :: NoSep(base) && put(p) == REDACTED + "/" + base
  }

  lemma RedactsOpens(put: string -> string)
    requires Redacts(put)
    ensures Opens(put)
  {
    forall p: string | p != ""
      ensures put(p) == p || (put(p) != "" && put(p)[0] == '<')
    {
      if put(p) != p {
        var base :| NoSep(base) && put(p) == REDACTED + "/" + base;
        assert put(p)[0] == '<';
      }
    }
  }

  lemma CopiedAgain(atStart: bool, t: string, put: string -> string)
    requires Redacts(put) && t != "" && TryBare(atStart, t).None?
    requires Bare(false, Bare(false, t[1..], put), put) == Bare(false, t[1..], put)
    ensures Bare(atStart, Bare(atStart, t, put), put) == Bare(atStart, t, put)
  {
    var out := Bare(atStart, t, put);
    RedactsOpens(put);
    NoMatchStays(atStart, t, put);
    assert out[0] == t[0] && out[1..] == Bare(false, t[1..], put);
  }

  lemma KeptAgain(atStart: bool, t: string, put: string -> string)
    requires Redacts(put) && TryBare(atStart, t).Some?
    requires var m := TryBare(atStart, t).value;
             && put(t[m.pre..m.pre + m.path]) == t[m.pre..m.pre + m.path]
             && Bare(false, Bare(false, t[m.pre + m.path..], put), put) == Bare(false, t[m.pre + m.path..], put)
    ensures Bare(atStart, Bare(atStart, t, put), put) == Bare(atStart, t, put)
  {
    var m := TryBare(atStart, t).value;
    var out := Bare(atStart, t, put);
    RedactsOpens(put);
    MatchStays(atStart, t, put);
    MatchParts(atStart, t, put);
    MatchParts(atStart, out, put);
    assert out[..m.pre] == t[..m.pre] && out[m.pre..m.pre + m.path] == t[m.pre..m.pre + m.path];
    assert out[m.pre + m.path..] == Bare(false, t[m.pre + m.path..], put);
  }

  lemma RedactedAgain(atStart: bool, t: string, base: string, put: string -> string)
    requires TryBare(atStart, t).Some? && NoSep(base)
    requires var m := TryBare(atStart, t).value;
             && put(t[m.pre..m.pre + m.path]) == REDACTED + "/" + base
             && Bare(false, Bare(false, t[m.pre + m.path..], put), put) == Bare(false, t[m.pre + m.path..], put)
    ensures Bare(atStart, Bare(atStart, t, put), put) == Bare(atStart, t, put)
  {
    var m := TryBare(atStart, t).value;
    var rest := t[m.pre + m.path..];
    var o, x := Bare(false, rest, put), t[..m.pre] + (REDACTED + "/" + base);
    MatchStops(atStart, t);
    FirstIsCopied(rest, put);
    MatchParts(atStart, t, put);
    RedactedMatchIsSkipped(atStart, t, base, o);
    assert Bare(atStart, t, put) == x + o;
    SkippedIsCopied(atStart, x, o, put);
  }

  lemma {:induction false} BareIsIdempotent(atStart: bool, t: string, put: string -> string)
    requires Redacts(put)
    ensures Bare(atStart, Bare(atStart, t, put), put) == Bare(atStart, t, put)
    decreases |t|
  {
    if t == "" {
    } else if TryBare(atStart, t).None? {
      BareIsIdempotent(false, t[1..], put);
      CopiedAgain(atStart, t, put);
    } else {
      var m := TryBare(atStart, t).value;
      var path := t[m.pre..m.pre + m.path];
      BareIsIdempotent(false, t[m.pre + m.path..], put);
      if put(path) == path {
        KeptAgain(atStart, t, put);
      } else {
        var base :| NoSep(base) && put(path) == REDACTED + "/" + base;
        RedactedAgain(atStart, t, base, put);
      }
    }
  }

  lemma SharedRedacts(decide: string -> bool, decode: string -> string)
    ensures Redacts(PutShared(decide, decode))
  {
    var put := PutShared(decide, decode);
    forall p: string
      ensures put(p) == p || exists base :: NoSep(base) && put(p) == REDACTED + "/" + base
    {
      var base := BasenameOf(p, decode);
      assert NoSep(base);
      assert put(p) == if decide(p) then Redacted(p, decode) else p;
      assert Redacted(p, decode) == REDACTED + "/" + base;
    }
  }

  /** The bare-path rule is idempotent on every line, whatever the caller decides to redact. */
  lemma BareRuleIsIdempotent(line: string, decide: string -> bool, decode: string -> string)
    ensures var put := PutShared(decide, decode);
            Bare(true, Bare(true, line, put), put) == Bare(true, line, put)
  {
    SharedRedacts(decide, decode);
    BareIsIdempotent(true, line, PutShared(decide, decode));
  }

  // ---------------------------------------------------------------- the other rules, and whole lines

  predicate LooksAbsolute(candidate: string) {
    MarkerLen(Trim(candidate)) > 0
  }

  predicate IsNumber(t: string) {
    t != "" && AllDigits(t)
  }

  /** A frame's `PATH:line:col`; the path takes every colon but the last two. */
  datatype Frame = Frame(path: string, line: string, col: string)

  function FrameOf(content: string): Option<Frame> {
    var parts := Split(content, ':');
    var n := |parts|;
    if n < 3 || !IsNumber(parts[n - 1]) || !IsNumber(parts[n - 2]) then None
    else
      var path := Join(parts[..n - 2], ':');
      if path == "" then None else Some(Frame(path, parts[n - 2], parts[n - 1]))
  }

  /** How many characters come before the first parenthesis. */
  function ToParen(t: string): (n: nat)
    ensures n <= |t|
  {
    if t == "" || t[0] == '(' || t[0] == ')' then 0 else 1 + ToParen(t[1..])
  }

  /** Rule 1: every parenthesised stack frame with an absolute path, and whether there was one. */
  function ParenFrames(t: string, put: string -> string): (string, bool)
    decreases |t|
  {
    if t == "" then ("", false)
    else
      var n := if t[0] == '(' then ToParen(t[1..]) else 0;
      var frame := if t[0] == '(' && n + 1 < |t| && t[n + 1] == ')' then FrameOf(t[1..n + 1]) else None;
      if frame.None? then
        var (rest, found) := ParenFrames(t[1..], put);
        ([t[0]] + rest, found)
      else
        var (rest, found) := ParenFrames(t[n + 2..], put);
        var f := frame.value;
        if LooksAbsolute(f.path) then ("(" + put(f.path) + ":" + f.line + ":" + f.col + ")" + rest, true)
        else (t[..n + 2] + rest, found)
  }

  predicate IsTerminator(c: char) {
    c as int == 10 || c as int == 13 || c as int == 0x2028 || c as int == 0x2029
  }

  /** Rule 2: a line that is one bare stack frame. */
  function BareFrame(t: string): Option<(string, Frame, string)> {
    var indent := |t| - |TrimLeft(t)|;
    if indent < 0 || !StartsWith(t[indent..], "at ") then None
    else
      var body := TrimRight(t[indent + 3..]);
      match FrameOf(body)
      case None => None
      case Some(f) =>
        if exists c :: c in f.path && IsTerminator(c) then None
        else Some((t[..indent + 3], f, t[indent + 3 + |body|..]))
  }

  /** The marker a quoted path may start with; here a file URL's scheme is lower-case. */
  predicate QuotedMarker(t: string) {
    MarkerLen(t) > 0 && (MarkerLen(t) == 7 ==> StartsWith(t, "file://"))
  }

  function ToQuote(t: string, quote: char): (n: nat)
    ensures n <= |t|
  {
    if t == "" || t[0] == quote then 0 else 1 + ToQuote(t[1..], quote)
  }

  /** Whether a quoted path opens here. */
  predicate OpensQuoted(t: string, quote: char) {
    t != "" && t[0] == quote && QuotedMarker(t[1..]) && ToQuote(t[1..], quote) + 1 < |t|
  }

  /** Rule 3, for one kind of quote. */
  function Quoted(t: string, quote: char, put: string -> string): string
    decreases |t|
  {
    if t == "" then ""
    else
      var n := ToQuote(t[1..], quote);
      if OpensQuoted(t, quote)
      then [quote] + put(t[1..n + 1]) + [quote] + Quoted(t[n + 2..], quote, put)
      else [t[0]] + Quoted(t[1..], quote, put)
  }

  function Line(line: string, put: string -> string): string {
    var (working, found) := ParenFrames(line, put);
    var bare := if found then None else BareFrame(working);
    if bare.Some? && LooksAbsolute(bare.value.1.path) then
      var f := bare.value.1;
      bare.value.0 + put(f.path) + ":" + f.line + ":" + f.col + bare.value.2
    else Bare(true, Quoted(Quoted(working, '\'', put), '"', put), put)
  }

  function Lines(lines: seq<string>, put: string -> string): (out: seq<string>)
    ensures |out| == |lines|
  {
    seq(|lines|, i requires 0 <= i < |lines| => Line(lines[i], put))
  }

  /** The shared copy. */
  function RedactPathsInText(text: string, decide: string -> bool, decode: string -> string): string {
    Join(Lines(Split(text, '\n'), PutShared(decide, decode)), '\n')
  }

  /** The jobs copy. */
  function RedactAllPaths(text: string, decode: string -> string): string {
    Join(Lines(Split(text, '\n'), PutJobs(decode)), '\n')
  }

  // ---------------------------------------------------------------- the two copies

  ghost predicate Agree(f: string -> string, g: string -> string) {
    forall p: string :: f(p) == g(p)
  }

  lemma {:induction false} SameBare(atStart: bool, t: string, f: string -> string, g: string -> string)
    requires Agree(f, g)
    ensures Bare(atStart, t, f) == Bare(atStart, t, g)
    decreases |t|
  {
    if t != "" {
      match TryBare(atStart, t)
      case None => SameBare(false, t[1..], f, g);
      case Some(m) => {
        SameBare(false, t[m.pre + m.path..], f, g);
        assert f(t[m.pre..m.pre + m.path]) == g(t[m.pre..m.pre + m.path]);
        MatchParts(atStart, t, f);
        MatchParts(atStart, t, g);
      }
    }
  }

  lemma {:induction false} SameQuoted(t: string, quote: char, f: string -> string, g: string -> string)
    requires Agree(f, g)
    ensures Quoted(t, quote, f) == Quoted(t, quote, g)
    decreases |t|
  {
    if OpensQuoted(t, quote) {
      var n := ToQuote(t[1..], quote);
      assert f(t[1..n + 1]) == g(t[1..n + 1]);
      SameQuoted(t[n + 2..], quote, f, g);
    } else if t != "" {
      SameQuoted(t[1..], quote, f, g);
    }
  }

  lemma {:induction false} SameFrames(t: string, f: string -> string, g: string -> string)
    requires Agree(f, g)
    ensures ParenFrames(t, f) == ParenFrames(t, g)
    decreases |t|
  {
    if t != "" {
      var n := if t[0] == '(' then ToParen(t[1..]) else 0;
      SameFrames(t[1..], f, g);
      if n + 1 < |t| {
        SameFrames(t[n + 2..], f, g);
      }
    }
  }

  lemma SameLine(line: string, f: string -> string, g: string -> string)
    requires Agree(f, g)
    ensures Line(line, f) == Line(line, g)
  {
    SameFrames(line, f, g);
    var working := ParenFrames(line, f).0;
    SameQuoted(working, '\'', f, g);
    SameQuoted(Quoted(working, '\'', f), '"', f, g);
    SameBare(true, Quoted(Quoted(working, '\'', f), '"', f), f, g);
  }

  /** On every text the jobs copy gives what the shared copy gives to a caller that redacts everything. */
  lemma JobsCopyIsSharedCopy(text: string, decide: string -> bool, decode: string -> string)
    requires forall p: string :: decide(p)
    ensures RedactAllPaths(text, decode) == RedactPathsInText(text, decide, decode)
  {
    var f, g, lines := PutJobs(decode), PutShared(decide, decode), Split(text, '\n');
    assert Agree(f, g);
    forall i | 0 <= i < |lines|
      ensures Lines(lines, f)[i] == Lines(lines, g)[i]
    {
      SameLine(lines[i], f, g);
    }
    assert Lines(lines, f) == Lines(lines, g);
  }

  lemma {:induction false} TrimmedLeft(t: string)
    ensures |TrimLeft(t)| <= |t| && NoSep(t[..|t| - |TrimLeft(t)|])
  {
    if t != "" && IsSpace(t[0]) {
      TrimmedLeft(t[1..]);
      var n := |t| - |TrimLeft(t)|;
      assert t[..n] == [t[0]] + t[1..][..n - 1];
    }
  }

  lemma {:induction false} TrimmedRight(t: string)
    ensures NoSep(t[|TrimRight(t)|..])
  {
    if t != "" && IsSpace(t[|t| - 1]) {
      var front := t[..|t| - 1];
      TrimmedRight(front);
      assert t[|TrimRight(t)|..] == front[|TrimRight(front)|..] + [t[|t| - 1]];
    }
  }

  lemma FrameHasNoSep(t: string)
    requires BareFrame(t).Some?
    ensures var (prefix, f, suffix) := BareFrame(t).value;
            prefix != "" && NoSep(prefix) && NoSep(":" + f.line + ":" + f.col + suffix)
  {
    var indent := |t| - |TrimLeft(t)|;
    TrimmedLeft(t);
    var tail := t[indent..];
    assert t[..indent + 3] == t[..indent] + tail[..3] && tail[..3] == "at ";
    var rest := t[indent + 3..];
    TrimmedRight(rest);
    assert t[indent + 3 + |TrimRight(rest)|..] == rest[|TrimRight(rest)|..];
  }

  lemma FrameIsClean(t: string, decode: string -> string)
    requires BareFrame(t).Some?
    ensures var (prefix, f, suffix) := BareFrame(t).value;
            Clean(true, prefix + Redacted(f.path, decode) + ":" + f.line + ":" + f.col + suffix)
  {
    var (prefix, f, suffix) := BareFrame(t).value;
    FrameHasNoSep(t);
    RedactedBetween(prefix, BasenameOf(f.path, decode), ":" + f.line + ":" + f.col + suffix);
    FrameJoined(prefix, BasenameOf(f.path, decode), f.line, f.col, suffix);
  }

  lemma FrameJoined(prefix: string, base: string, line: string, col: string, suffix: string)
    ensures prefix + (REDACTED + "/" + base) + ":" + line + ":" + col + suffix
         == prefix + (REDACTED + "/" + (base + (":" + line + ":" + col + suffix)))
  {
  }

  lemma RedactedBetween(prefix: string, base: string, tail: string)
    requires prefix != "" && NoSep(prefix) && NoSep(base) && NoSep(tail)
    ensures Clean(true, prefix + (REDACTED + "/" + (base + tail)))
  {
    var x := REDACTED + "/" + (base + tail);
    RedactionIsSkipped(false, base + tail, "");
    assert x[0] == '<' && x + "" == x;
    SkippedIsClean(false, x, "");
    NoSepIsSkipped(true, prefix, x);
    SkippedIsClean(true, prefix, x);
  }

  /** Whatever a line holds and whichever rules fire, redacting everything leaves no absolute path
      behind a boundary that the bare-path pattern knows. */
  lemma LinesAreClean(line: string, decode: string -> string)
    ensures Clean(true, Line(line, PutJobs(decode)))
  {
    var put := PutJobs(decode);
    var (working, found) := ParenFrames(line, put);
    var bare := if found then None else BareFrame(working);
    if bare.Some? && LooksAbsolute(bare.value.1.path) {
      FrameIsClean(working, decode);
    } else {
      NothingLeftToRedact(true, Quoted(Quoted(working, '\'', put), '"', put), decode);
    }
  }
}
