/** A second pass over whole lines (packages/shared/src/redact-paths.ts, packages/jobs/src/redact-paths.ts):
    when redacting everything twice is redacting it once. */
module RedactTwice {
  import opened Common
  import opened Text
  import opened RedactPaths

  predicate IsQuote(c: char) {
    c == '\'' || c == '"'
  }

  ghost predicate StartsOpen(put: string -> string) {
    forall p: string :: put(p) != "" && put(p)[0] == '<'
  }

  // ---------------------------------------------------------------- a replacement is never undone

  predicate OpenedAt(a: string, b: string, i: nat) {
    i < |a| && i < |b| && a[..i] == b[..i] && b[i] == '<' && a[i] != '<'
  }

  /** The first place where the texts differ has an opening bracket, and only in the second. */
  ghost predicate Opened(a: string, b: string) {
    exists i: nat :: OpenedAt(a, b, i)
  }

  lemma OpenedBehind(x: string, a: string, b: string)
    requires Opened(a, b)
    ensures Opened(x + a, x + b)
  {
    var i: nat :| OpenedAt(a, b, i);
    assert (x + a)[..|x| + i] == x + a[..i] && (x + b)[..|x| + i] == x + b[..i];
    assert OpenedAt(x + a, x + b, |x| + i);
  }

  /** Two rules one after another give the text back only if each of them does. */
  lemma OpenedTwice(a: string, b: string, c: string)
    requires (a == b || Opened(a, b)) && (b == c || Opened(b, c))
    ensures a == c || Opened(a, c)
    ensures a == c <==> a == b && b == c
  {
    if a != b && b != c {
      var i: nat :| OpenedAt(a, b, i);
      var j: nat :| OpenedAt(b, c, j);
      OpenedFirst(a, b, c, i, j);
    }
  }

  lemma OpenedFirst(a: string, b: string, c: string, i: nat, j: nat)
    requires OpenedAt(a, b, i) && OpenedAt(b, c, j)
    ensures Opened(a, c) && a != c
  {
    assert forall k :: 0 <= k < i ==> a[k] == a[..i][k] == b[..i][k] == b[k];
    assert forall k :: 0 <= k < j ==> b[k] == b[..j][k] == c[..j][k] == c[k];
    var m := Min(i, j);
    assert a[..m] == c[..m];
    assert OpenedAt(a, c, m);
  }

  // ---------------------------------------------------------------- what each rule does to a text

  /** Some quote opens a quoted absolute path. */
  predicate HoldsQuotedPath(t: string, quote: char) {
    t != "" && (OpensQuoted(t, quote) || HoldsQuotedPath(t[1..], quote))
  }

  lemma {:induction false} NoQuotedPathStays(t: string, quote: char, put: string -> string)
    requires !HoldsQuotedPath(t, quote)
    ensures Quoted(t, quote, put) == t
  {
    if t != "" {
      NoQuotedPathStays(t[1..], quote, put);
    }
  }

  lemma SecondDiffers(t: string, x: string, tail: string)
    requires |t| > 1 && t[1] != '<' && x != "" && x[0] == '<'
    ensures Opened(t, [t[0]] + (x + tail))
  {
    var out := [t[0]] + (x + tail);
    assert out[1] == x[0] && t[..1] == out[..1];
    assert OpenedAt(t, out, 1);
  }

  lemma QuotedParts(t: string, quote: char, put: string -> string)
    requires OpensQuoted(t, quote)
    ensures var n := ToQuote(t[1..], quote);
            Quoted(t, quote, put) == [t[0]] + (put(t[1..n + 1]) + ([quote] + Quoted(t[n + 2..], quote, put)))
  {
  }

  lemma MarkerIsNoBracket(t: string)
    requires MarkerLen(t) > 0
    ensures t[0] != '<'
  {
    MarkerChars(t);
  }

  lemma QuotedPathOpens(t: string, quote: char, put: string -> string)
    requires StartsOpen(put) && OpensQuoted(t, quote)
    ensures Opened(t, Quoted(t, quote, put))
  {
    var n := ToQuote(t[1..], quote);
    MarkerIsNoBracket(t[1..]);
    SecondDiffers(t, put(t[1..n + 1]), [quote] + Quoted(t[n + 2..], quote, put));
    QuotedParts(t, quote, put);
  }

  lemma {:induction false} QuotedOpens(t: string, quote: char, put: string -> string)
    requires StartsOpen(put) && HoldsQuotedPath(t, quote)
    ensures Opened(t, Quoted(t, quote, put))
    decreases |t|
  {
    if OpensQuoted(t, quote) {
      QuotedPathOpens(t, quote, put);
    } else {
      QuotedOpens(t[1..], quote, put);
      OpenedBehind([t[0]], t[1..], Quoted(t[1..], quote, put));
      assert t == [t[0]] + t[1..];
    }
  }

  lemma {:induction false} CleanStays(atStart: bool, t: string, put: string -> string)
    requires Clean(atStart, t)
    ensures Bare(atStart, t, put) == t
  {
    if t != "" {
      CleanStays(false, t[1..], put);
    }
  }

  lemma MatchOpens(atStart: bool, t: string, put: string -> string)
    requires StartsOpen(put) && TryBare(atStart, t).Some?
    ensures Opened(t, Bare(atStart, t, put))
  {
    var m := TryBare(atStart, t).value;
    var out := Bare(atStart, t, put);
    MatchParts(atStart, t, put);
    MarkerChars(t[m.pre..]);
    assert out[m.pre] == put(t[m.pre..m.pre + m.path])[0] && t[m.pre] == t[m.pre..][0];
    assert out[..m.pre] == t[..m.pre];
    assert OpenedAt(t, out, m.pre);
  }

  lemma {:induction false} BareOpens(atStart: bool, t: string, put: string -> string)
    requires StartsOpen(put)
    ensures Bare(atStart, t, put) == t || Opened(t, Bare(atStart, t, put))
    decreases |t|
  {
    if t != "" {
      if TryBare(atStart, t).Some? {
        MatchOpens(atStart, t, put);
      } else {
        BareOpens(false, t[1..], put);
        var rest := Bare(false, t[1..], put);
        assert t == [t[0]] + t[1..];
        if rest != t[1..] {
          OpenedBehind([t[0]], t[1..], rest);
        }
      }
    }
  }

  // ---------------------------------------------------------------- clean text holds no frame

  lemma {:induction false} CleanFrom(atStart: bool, t: string, k: nat)
    requires Clean(atStart, t) && k <= |t|
    ensures Clean(false, t[k..])
  {
    if k > 0 {
      CleanFrom(false, t[1..], k - 1);
      assert t[1..][k - 1..] == t[k..];
    } else {
      assert t[0..] == t;
    }
  }

  lemma {:induction false} LeadIsSpace(t: string)
    ensures |TrimLeft(t)| <= |t| && TrimLeft(t) == t[|t| - |TrimLeft(t)|..]
    ensures forall i :: 0 <= i < |t| - |TrimLeft(t)| ==> IsSpace(t[i])
  {
    if t != "" && IsSpace(t[0]) {
      LeadIsSpace(t[1..]);
    }
  }

  predicate EndsInBoundary(t: string) {
    t != "" && IsBoundary(t[|t| - 1])
  }

  lemma BoundaryStarts(c: char, u: string)
    requires IsBoundary(c) && MarkerLen(u) > 0
    ensures TryBare(false, [c] + u).Some?
  {
    assert ([c] + u)[1..] == u;
  }

  lemma {:induction false} MarkerIsAMatch(front: string, u: string)
    requires EndsInBoundary(front) && MarkerLen(u) > 0
    ensures !Clean(false, front + u)
  {
    if |front| == 1 {
      assert front == [front[0]];
      BoundaryStarts(front[0], u);
    } else {
      assert (front + u)[1..] == front[1..] + u;
      MarkerIsAMatch(front[1..], u);
    }
  }

  lemma MarkerSurvivesTrim(body: string, tail: string)
    requires MarkerLen(TrimRight(body)) > 0
    ensures MarkerLen(body + tail) > 0
  {
    var marker := TrimRight(body);
    var n := MarkerLen(marker);
    assert (body + tail)[..n] == body[..n] == marker[..n];
    MarkerIsLocal(marker, body + tail);
  }

  lemma SpacesEndInBoundary(front: string, spaces: string)
    requires EndsInBoundary(front) && forall i :: 0 <= i < |spaces| ==> IsSpace(spaces[i])
    ensures EndsInBoundary(front + spaces)
  {
  }

  /** What looks absolute behind a boundary is a match, so clean text holds none. */
  lemma AbsoluteIsAMatch(front: string, path: string, tail: string)
    requires EndsInBoundary(front) && LooksAbsolute(path)
    ensures !Clean(false, front + path + tail)
  {
    LeadIsSpace(path);
    var spaces, body := path[..|path| - |TrimLeft(path)|], TrimLeft(path);
    assert path == spaces + body;
    MarkerSurvivesTrim(body, tail);
    SpacesEndInBoundary(front, spaces);
    MarkerIsAMatch(front + spaces, body + tail);
    Regrouped(front, spaces, body, tail);
  }

  lemma Regrouped(a: string, b: string, c: string, d: string)
    ensures a + (b + c) + d == (a + b) + (c + d)
  {
  }

  lemma FramePathIsFirst(content: string)
    requires FrameOf(content).Some?
    ensures var path := FrameOf(content).value.path; |path| <= |content| && path == content[..|path|]
  {
    var parts := Split(content, ':');
    var n := |parts| - 2;
    SplitPieces(content, ':');
    JoinAppend(parts[..n], parts[n..], ':');
    assert parts == parts[..n] + parts[n..];
  }

  lemma FirstOf(t: string, k: nat, content: string, path: string)
    requires k + |content| <= |t| && content == t[k..k + |content|] && |path| <= |content| && path == content[..|path|]
    ensures t == t[..k] + path + t[k + |path|..]
  {
    assert path == t[k..k + |path|];
  }

  lemma ParenFrameIsAMatch(t: string, n: nat)
    requires n + 1 < |t| && t[0] == '(' && FrameOf(t[1..n + 1]).Some? && Clean(false, t)
    ensures !LooksAbsolute(FrameOf(t[1..n + 1]).value.path)
  {
    var path := FrameOf(t[1..n + 1]).value.path;
    FramePathIsFirst(t[1..n + 1]);
    FirstOf(t, 1, t[1..n + 1], path);
    assert EndsInBoundary(t[..1]);
    if LooksAbsolute(path) {
      AbsoluteIsAMatch(t[..1], path, t[1 + |path|..]);
    }
  }

  /** A parenthesised frame at the head of `t`, whatever its path. */
  function HeadFrame(t: string): Option<Frame> {
    if t == "" || t[0] != '(' then None
    else
      var n := ToParen(t[1..]);
      if n + 1 < |t| && t[n + 1] == ')' then FrameOf(t[1..n + 1]) else None
  }

  lemma NoHeadFrame(t: string, put: string -> string)
    requires t != "" && HeadFrame(t).None?
    ensures ParenFrames(t, put) == ([t[0]] + ParenFrames(t[1..], put).0, ParenFrames(t[1..], put).1)
  {
  }

  lemma PlainHeadFrame(t: string, put: string -> string)
    requires HeadFrame(t).Some? && !LooksAbsolute(HeadFrame(t).value.path)
    ensures var n := ToParen(t[1..]);
            n + 2 <= |t|
            && ParenFrames(t, put) == (t[..n + 2] + ParenFrames(t[n + 2..], put).0, ParenFrames(t[n + 2..], put).1)
  {
    var n := ToParen(t[1..]);
    var frame := FrameOf(t[1..n + 1]);
    assert t[0] == '(' && n + 1 < |t| && t[n + 1] == ')' && frame == HeadFrame(t);
    assert frame.Some? && !LooksAbsolute(frame.value.path);
  }

  lemma CleanHeadFrame(t: string, n: nat)
    requires HeadFrame(t).Some? && n == ToParen(t[1..]) && Clean(false, t)
    ensures !LooksAbsolute(HeadFrame(t).value.path) && n + 2 <= |t| && Clean(false, t[n + 2..])
  {
    HeadFrameIs(t, n);
    ParenFrameIsAMatch(t, n);
    CleanFrom(false, t, n + 2);
  }

  lemma HeadFrameIs(t: string, n: nat)
    requires HeadFrame(t).Some? && n == ToParen(t[1..])
    ensures n + 1 < |t| && t[0] == '(' && t[n + 1] == ')' && HeadFrame(t) == FrameOf(t[1..n + 1])
  {
  }

  lemma {:induction false} CleanHasNoParenFrame(t: string, put: string -> string)
    requires Clean(false, t)
    ensures ParenFrames(t, put) == (t, false)
    decreases |t|
  {
    if HeadFrame(t).Some? {
      var n := ToParen(t[1..]);
      CleanHeadFrame(t, n);
      CleanHasNoParenFrame(t[n + 2..], put);
      PlainHeadFrame(t, put);
      assert t == t[..n + 2] + t[n + 2..];
    } else if t != "" {
      CleanHasNoParenFrame(t[1..], put);
      NoHeadFrame(t, put);
      assert t == [t[0]] + t[1..];
    }
  }

  lemma SliceOfSlice(t: string, k: nat, n: nat)
    requires k + n <= |t|
    ensures t[k..][..n] == t[k..k + n]
  {
  }

  lemma FramePrefixEnds(t: string)
    requires BareFrame(t).Some?
    ensures EndsInBoundary(t[..|t| - |TrimLeft(t)| + 3])
  {
    var indent := |t| - |TrimLeft(t)|;
    assert t[indent..][..3][2] == t[indent + 2] == "at "[2];
  }

  lemma CleanHasNoBareFrame(t: string)
    requires Clean(false, t) && BareFrame(t).Some?
    ensures !LooksAbsolute(BareFrame(t).value.1.path)
  {
    var k := |t| - |TrimLeft(t)| + 3;
    var body := TrimRight(t[k..]);
    var path := FrameOf(body).value.path;
    FramePathIsFirst(body);
    SliceOfSlice(t, k, |body|);
    assert body == t[k..k + |body|];
    FirstOf(t, k, body, path);
    FramePrefixEnds(t);
    if LooksAbsolute(path) {
      AbsoluteIsAMatch(t[..k], path, t[k + |path|..]);
    }
  }

  // ---------------------------------------------------------------- the second pass

  lemma RulesInARow(t: string, put: string -> string)
    requires StartsOpen(put)
    ensures Bare(true, Quoted(Quoted(t, '\'', put), '"', put), put) == t
       <==> && Quoted(t, '\'', put) == t && Quoted(t, '"', put) == t && Bare(true, t, put) == t
  {
    var a := Quoted(t, '\'', put);
    var b := Quoted(a, '"', put);
    if HoldsQuotedPath(t, '\'') {
      QuotedOpens(t, '\'', put);
    } else {
      NoQuotedPathStays(t, '\'', put);
    }
    if HoldsQuotedPath(a, '"') {
      QuotedOpens(a, '"', put);
    } else {
      NoQuotedPathStays(a, '"', put);
    }
    BareOpens(true, b, put);
    OpenedTwice(t, a, b);
    OpenedTwice(t, b, Bare(true, b, put));
  }

  lemma QuotedIsSameIff(t: string, quote: char, put: string -> string)
    requires StartsOpen(put)
    ensures Quoted(t, quote, put) == t <==> !HoldsQuotedPath(t, quote)
  {
    if HoldsQuotedPath(t, quote) {
      QuotedOpens(t, quote, put);
    } else {
      NoQuotedPathStays(t, quote, put);
    }
  }

  /** On text without a bare path, a pass changes nothing exactly when no quoted path is there: then no
      frame is either, and what one rule replaces no later one puts back. */
  lemma PassOverClean(t: string, put: string -> string)
    requires StartsOpen(put) && Clean(true, t)
    ensures Line(t, put) == t <==> !HoldsQuotedPath(t, '\'') && !HoldsQuotedPath(t, '"')
  {
    CleanFrom(true, t, 0);
    assert t[0..] == t;
    CleanHasNoParenFrame(t, put);
    if BareFrame(t).Some? {
      CleanHasNoBareFrame(t);
    }
    assert Line(t, put) == Bare(true, Quoted(Quoted(t, '\'', put), '"', put), put);
    RulesInARow(t, put);
    CleanStays(true, t, put);
    QuotedIsSameIff(t, '\'', put);
    QuotedIsSameIff(t, '"', put);
  }

  // ---------------------------------------------------------------- quotes that are left open

  /** A drive whose colon the bare-path rule takes for a glued one. */
  predicate GluedDrive(t: string) {
    MarkerLen(t) == 3 && t[2] == '/' && !(|t| > 3 && t[3] == '/')
  }

  /** Behind this quote: a marker that the bare-path rule leaves, and another quote after that rule. */
  predicate LeavesMarker(t: string, quote: char, put: string -> string) {
    QuotedMarker(t) && !GluedDrive(t) && quote in Bare(false, t, put)
  }

  /** Some quote has a marker behind it, and is not the last of its kind once the bare paths are gone. */
  predicate LeftOpen(t: string, quote: char, put: string -> string) {
    t != "" && ((t[0] == quote && LeavesMarker(t[1..], quote, put)) || LeftOpen(t[1..], quote, put))
  }

  lemma NoMatchHere(t: string)
    requires t != "" && !IsBoundary(t[0]) && !GluedColon(t)
    ensures TryBare(false, t).None?
  {
  }

  lemma {:induction false} PrefixIsCopied(t: string, n: nat, put: string -> string)
    requires n <= |t| && forall i :: 0 <= i < n ==> !IsBoundary(t[i]) && !GluedColon(t[i..])
    ensures Bare(false, t, put) == t[..n] + Bare(false, t[n..], put)
    decreases n
  {
    assert t[0..] == t;
    if n > 0 {
      NoMatchHere(t);
      BareStep(t, put);
      assert forall i :: 0 <= i < n - 1 ==> t[1..][i..] == t[i + 1..];
      PrefixIsCopied(t[1..], n - 1, put);
      OneAndPrefix(t, n, Bare(false, t[n..], put));
    }
  }

  lemma OneAndPrefix(t: string, n: nat, o: string)
    requires 0 < n <= |t|
    ensures t[1..][n - 1..] == t[n..] && [t[0]] + (t[1..][..n - 1] + o) == t[..n] + o
  {
    assert t[..n] == [t[0]] + t[1..][..n - 1];
  }

  /** Such a drive starts with a letter that is copied and a colon behind which a path is redacted. */
  lemma GluedDriveIsMatched(t: string, put: string -> string)
    requires GluedDrive(t)
    ensures |t| > 2 && IsLetter(t[0]) && t[1] == ':' && t[2] == '/'
    ensures TryBare(false, t).None? && TryBare(false, t[1..]).Some? && TryBare(false, t[1..]).value.pre == 1
  {
    FileMarker(t);
    var u := t[1..];
    assert u[0] == ':' && u[1] == '/' && (|u| > 2 ==> u[2] == t[3]) && u[1..][0] == '/';
    assert GluedColon(u);
    FileMarker(u[1..]);
  }

  lemma BrokenDrive(c: char, x: string)
    requires x != "" && x[0] == '<' && IsLetter(c)
    ensures MarkerLen([c] + (":" + x)) == 0
  {
    var out := [c] + (":" + x);
    assert out[0] == c && out[1] == ':' && out[2] == '<';
    FileMarker(out);
  }

  lemma ColonGlue(p: string, r: string)
    requires p != ""
    ensures ":" + p + r == ":" + (p + r) && (p + r)[0] == p[0]
  {
  }

  lemma ColonThenPath(u: string, put: string -> string) returns (x: string)
    requires StartsOpen(put) && TryBare(false, u).Some? && TryBare(false, u).value.pre == 1 && u[0] == ':'
    ensures x != "" && x[0] == '<' && Bare(false, u, put) == ":" + x
  {
    var m := TryBare(false, u).value;
    var p, r := put(u[m.pre..m.pre + m.path]), Bare(false, u[m.pre + m.path..], put);
    x := p + r;
    MatchParts(false, u, put);
    ColonGlue(p, r);
    assert u[..1] == ":";
  }

  lemma GluedDriveIsBroken(t: string, put: string -> string)
    requires StartsOpen(put) && GluedDrive(t)
    ensures MarkerLen(Bare(false, t, put)) == 0
  {
    GluedDriveIsMatched(t, put);
    var x := ColonThenPath(t[1..], put);
    BareStep(t, put);
    BrokenDrive(t[0], x);
  }

  lemma MarkerIsCopied(t: string, put: string -> string)
    requires MarkerLen(t) > 0 && !GluedDrive(t)
    ensures var n := MarkerLen(t); var out := Bare(false, t, put); n <= |out| && out[..n] == t[..n] && MarkerLen(out) == n
  {
    var n := MarkerLen(t);
    MarkerChars(t);
    FileMarker(t);
    forall i | 0 <= i < n
      ensures !IsBoundary(t[i]) && !GluedColon(t[i..])
    {
      assert t[i..][0] == t[i];
      assert i + 1 < |t| ==> t[i..][1] == t[i + 1];
      assert i + 2 < |t| ==> t[i..][2] == t[i + 2];
    }
    PrefixIsCopied(t, n, put);
    MarkerIsLocal(t, Bare(false, t, put));
  }

  lemma OpensIfStartsOpen(put: string -> string)
    requires StartsOpen(put)
    ensures Opens(put)
  {
  }

  lemma NoBracketInMarker(t: string)
    requires MarkerLen(t) > 0
    ensures '<' !in t[..MarkerLen(t)]
  {
    MarkerChars(t);
  }

  lemma MarkerCameFrom(t: string, put: string -> string)
    requires Opens(put) && MarkerLen(Bare(false, t, put)) > 0
    ensures var out := Bare(false, t, put); var n := MarkerLen(out); MarkerLen(t) == n && n <= |t| && out[..n] == t[..n]
  {
    var out := Bare(false, t, put);
    var n := MarkerLen(out);
    NoBracketInMarker(out);
    SameUntilOpen(false, t, put, n);
    MarkerIsLocal(out, t);
  }

  /** The bare-path rule leaves a quoted path's marker alone unless it is a glued drive's. */
  lemma MarkerStaysIff(t: string, put: string -> string)
    requires StartsOpen(put)
    ensures QuotedMarker(Bare(false, t, put)) <==> QuotedMarker(t) && !GluedDrive(t)
  {
    if GluedDrive(t) {
      GluedDriveIsBroken(t, put);
    } else if MarkerLen(t) > 0 {
      MarkerIsCopied(t, put);
    } else if MarkerLen(Bare(false, t, put)) > 0 {
      OpensIfStartsOpen(put);
      MarkerCameFrom(t, put);
    }
  }

  lemma {:induction false} ToQuoteIff(t: string, quote: char)
    ensures ToQuote(t, quote) < |t| <==> quote in t
  {
    if t != "" && t[0] != quote {
      ToQuoteIff(t[1..], quote);
      assert t == [t[0]] + t[1..];
    }
  }

  lemma OpensQuotedIff(c: char, t: string, quote: char)
    ensures OpensQuoted([c] + t, quote) <==> c == quote && QuotedMarker(t) && quote in t
  {
    assert ([c] + t)[1..] == t;
    ToQuoteIff(t, quote);
  }

  /** No quote in the text has a separator behind it. */
  predicate QuotesArePlain(x: string, quote: char) {
    x == "" || ((x[0] == quote ==> NoSep(x[1..])) && QuotesArePlain(x[1..], quote))
  }

  lemma {:induction false} PlainWithoutSep(x: string, quote: char)
    requires NoSep(x)
    ensures QuotesArePlain(x, quote)
  {
    if x != "" {
      PlainWithoutSep(x[1..], quote);
    }
  }

  lemma {:induction false} PlainBehind(x: string, y: string, quote: char)
    requires quote !in x && QuotesArePlain(y, quote)
    ensures QuotesArePlain(x + y, quote)
  {
    if x == "" {
      assert x + y == y;
    } else {
      assert (x + y)[1..] == x[1..] + y && (x + y)[0] == x[0];
      PlainBehind(x[1..], y, quote);
    }
  }

  lemma {:induction false} NoneIsHeldBefore(x: string, z: string, quote: char)
    requires Stops(z) && QuotesArePlain(x, quote)
    ensures HoldsQuotedPath(x + z, quote) <==> HoldsQuotedPath(z, quote)
  {
    if x == "" {
      assert x + z == z;
    } else {
      assert (x + z)[1..] == x[1..] + z && x + z == [x[0]] + (x[1..] + z);
      NoneIsHeldBefore(x[1..], z, quote);
      OpensQuotedIff(x[0], x[1..] + z, quote);
      if x[0] == quote {
        NoMarkerInto(x[1..], z);
      }
    }
  }

  lemma {:induction false} NoneIsLeftOpenBefore(t: string, k: nat, quote: char, put: string -> string)
    requires k <= |t| && quote !in t[..k]
    ensures LeftOpen(t, quote, put) <==> LeftOpen(t[k..], quote, put)
    decreases k
  {
    if k == 0 {
      assert t[0..] == t;
    } else {
      assert t[..k] == [t[0]] + t[1..][..k - 1] && t[1..][k - 1..] == t[k..];
      NoneIsLeftOpenBefore(t[1..], k - 1, quote, put);
    }
  }

  lemma {:induction false} BodyHasNoBracket(t: string)
    ensures forall i :: 0 <= i < BodyLen(t) ==> !IsBracket(t[i])
    decreases |t|
  {
    if t != "" && (IsSep(t[0]) || IsWord(t[0])) {
      BodyHasNoBracket(t[1..]);
    } else if t != "" {
      var k := BlankRun(t);
      if k > 0 {
        BodyHasNoBracket(t[k..]);
        assert forall i :: k <= i < |t| ==> t[i] == t[k..][i - k];
      }
    }
  }

  lemma PathHasNoBracket(t: string)
    requires MarkerLen(t) > 0
    ensures forall i :: 0 <= i < PathLen(t) ==> !IsBracket(t[i])
  {
    var n := MarkerLen(t);
    MarkerChars(t);
    BodyHasNoBracket(t[n..]);
    assert forall i :: n <= i < |t| ==> t[i] == t[n..][i - n];
  }

  lemma NoQuoteUpTo(t: string, pre: nat, n: nat, quote: char)
    requires pre + n <= |t| && IsQuote(quote)
    requires forall i :: 0 <= i < pre ==> t[i] != quote
    requires forall i :: 0 <= i < n ==> !IsBracket(t[pre..][i])
    ensures quote !in t[..pre] && quote !in t[..pre + n]
  {
    assert forall i :: pre <= i < pre + n ==> t[i] == t[pre..][i - pre];
    assert IsBracket(quote);
  }

  lemma BoundaryIsNoQuote(c: char)
    requires IsBoundary(c) || c == ':'
    ensures !IsQuote(c)
  {
  }

  lemma MatchHasNoQuote(atStart: bool, t: string, quote: char)
    requires TryBare(atStart, t).Some? && IsQuote(quote)
    ensures var m := TryBare(atStart, t).value; quote !in t[..m.pre] && quote !in t[..m.pre + m.path]
  {
    var m := TryBare(atStart, t).value;
    assert t[0..] == t;
    PathHasNoBracket(t[m.pre..]);
    if m.pre == 1 {
      BoundaryIsNoQuote(t[0]);
    }
    NoQuoteUpTo(t, m.pre, m.path, quote);
  }

  lemma RedactionIsPlain(base: string, quote: char)
    requires NoSep(base) && IsQuote(quote)
    ensures QuotesArePlain(REDACTED + "/" + base, quote)
  {
    PlainWithoutSep(base, quote);
    PlainBehind(REDACTED + "/", base, quote);
  }

  lemma MatchIsPlain(atStart: bool, t: string, base: string, quote: char)
    requires TryBare(atStart, t).Some? && IsQuote(quote) && NoSep(base)
    ensures QuotesArePlain(t[..TryBare(atStart, t).value.pre] + (REDACTED + "/" + base), quote)
  {
    var m := TryBare(atStart, t).value;
    MatchHasNoQuote(atStart, t, quote);
    RedactionIsPlain(base, quote);
    PlainBehind(t[..m.pre], REDACTED + "/" + base, quote);
  }

  lemma EndsStops(t: string)
    requires Ends(t)
    ensures Stops(t)
  {
  }

  lemma RestStops(atStart: bool, t: string, put: string -> string)
    requires TryBare(atStart, t).Some?
    ensures var m := TryBare(atStart, t).value; Stops(Bare(false, t[m.pre + m.path..], put))
  {
    var m := TryBare(atStart, t).value;
    var rest := t[m.pre + m.path..];
    MatchStops(atStart, t);
    FirstIsCopied(rest, put);
    EndsStops(Bare(false, rest, put));
  }

  lemma JobsMatchParts(atStart: bool, t: string, decode: string -> string)
    requires TryBare(atStart, t).Some?
    ensures var m, put := TryBare(atStart, t).value, PutJobs(decode);
            Bare(atStart, t, put)
            == t[..m.pre] + (REDACTED + "/" + BasenameOf(t[m.pre..m.pre + m.path], decode)) + Bare(false, t[m.pre + m.path..], put)
  {
    MatchParts(atStart, t, PutJobs(decode));
  }

  lemma MatchHoldsIff(atStart: bool, t: string, quote: char, decode: string -> string)
    requires TryBare(atStart, t).Some? && IsQuote(quote)
    ensures var m := TryBare(atStart, t).value;
            HoldsQuotedPath(Bare(atStart, t, PutJobs(decode)), quote)
            <==> HoldsQuotedPath(Bare(false, t[m.pre + m.path..], PutJobs(decode)), quote)
  {
    var m := TryBare(atStart, t).value;
    var rest := Bare(false, t[m.pre + m.path..], PutJobs(decode));
    var base := BasenameOf(t[m.pre..m.pre + m.path], decode);
    MatchIsPlain(atStart, t, base, quote);
    RestStops(atStart, t, PutJobs(decode));
    NoneIsHeldBefore(t[..m.pre] + (REDACTED + "/" + base), rest, quote);
    JobsMatchParts(atStart, t, decode);
  }

  lemma {:induction false} HoldsAfterBareIff(atStart: bool, t: string, quote: char, decode: string -> string)
    requires IsQuote(quote)
    ensures HoldsQuotedPath(Bare(atStart, t, PutJobs(decode)), quote) <==> LeftOpen(t, quote, PutJobs(decode))
    decreases |t|
  {
    var put := PutJobs(decode);
    JobsStartsOpen(decode);
    if t == "" {
    } else if TryBare(atStart, t).Some? {
      var m := TryBare(atStart, t).value;
      MatchHoldsIff(atStart, t, quote, decode);
      HoldsAfterBareIff(false, t[m.pre + m.path..], quote, decode);
      MatchHasNoQuote(atStart, t, quote);
      NoneIsLeftOpenBefore(t, m.pre + m.path, quote, put);
    } else {
      var rest := Bare(false, t[1..], put);
      HoldsAfterBareIff(false, t[1..], quote, decode);
      OpensQuotedIff(t[0], rest, quote);
      MarkerStaysIff(t[1..], put);
      assert ([t[0]] + rest)[1..] == rest;
    }
  }

  lemma JobsStartsOpen(decode: string -> string)
    ensures StartsOpen(PutJobs(decode))
  {
    forall p: string
      ensures PutJobs(decode)(p) != "" && PutJobs(decode)(p)[0] == '<'
    {
      assert PutJobs(decode)(p) == Redacted(p, decode);
      assert Redacted(p, decode)[0] == REDACTED[0];
    }
  }

  // ---------------------------------------------------------------- whole lines, twice

  /** Rule 2 fires: the whole line is one frame. */
  predicate IsFrameLine(line: string, put: string -> string) {
    var (working, found) := ParenFrames(line, put);
    !found && BareFrame(working).Some? && LooksAbsolute(BareFrame(working).value.1.path)
  }

  /** The line when the bare-path rule gets it. */
  function BeforeBare(line: string, put: string -> string): string {
    Quoted(Quoted(ParenFrames(line, put).0, '\'', put), '"', put)
  }

  lemma FrameLineHoldsNone(t: string, quote: char, decode: string -> string)
    requires BareFrame(t).Some? && IsQuote(quote)
    ensures var (prefix, f, suffix) := BareFrame(t).value;
            !HoldsQuotedPath(prefix + Redacted(f.path, decode) + ":" + f.line + ":" + f.col + suffix, quote)
  {
    var (prefix, f, suffix) := BareFrame(t).value;
    var tail := ":" + f.line + ":" + f.col + suffix;
    var base := BasenameOf(f.path, decode);
    FrameHasNoSep(t);
    FramePrefix(t, quote);
    RedactionIsPlain(base + tail, quote);
    var x := REDACTED + "/" + (base + tail);
    PlainBehind(prefix, x, quote);
    NoneIsHeldBefore(prefix + x, "", quote);
    FrameText(prefix, base, f.line, f.col, suffix);
  }

  lemma FrameText(prefix: string, base: string, line: string, col: string, suffix: string)
    ensures prefix + (REDACTED + "/" + (base + (":" + line + ":" + col + suffix))) + ""
         == prefix + (REDACTED + "/" + base) + ":" + line + ":" + col + suffix
  {
  }

  lemma FramePrefix(t: string, quote: char)
    requires BareFrame(t).Some? && IsQuote(quote)
    ensures quote !in BareFrame(t).value.0
  {
    var indent := |t| - |TrimLeft(t)|;
    LeadIsSpace(t);
    var tail := t[indent..];
    assert t[..indent + 3] == t[..indent] + tail[..3] && tail[..3] == "at ";
  }

  /** When redacting everything twice is redacting it once, for every line: when the whole line is one
      frame, or neither kind of quote is left open by the rules before the bare-path rule. */
  lemma LineTwiceIff(line: string, decode: string -> string)
    ensures var put := PutJobs(decode);
            Line(Line(line, put), put) == Line(line, put)
            <==> || IsFrameLine(line, put)
                 || (!LeftOpen(BeforeBare(line, put), '\'', put) && !LeftOpen(BeforeBare(line, put), '"', put))
  {
    var put := PutJobs(decode);
    JobsStartsOpen(decode);
    LinesAreClean(line, decode);
    PassOverClean(Line(line, put), put);
    if IsFrameLine(line, put) {
      FrameLineHoldsNone(ParenFrames(line, put).0, '\'', decode);
      FrameLineHoldsNone(ParenFrames(line, put).0, '"', decode);
    } else {
      assert Line(line, put) == Bare(true, BeforeBare(line, put), put);
      HoldsAfterBareIff(true, BeforeBare(line, put), '\'', decode);
      HoldsAfterBareIff(true, BeforeBare(line, put), '"', decode);
    }
  }

  // ---------------------------------------------------------------- one kind of quote

  /** No redaction brings a quote of this kind that its path did not have, as percent-decoding could. */
  ghost predicate AddsNo(put: string -> string, quote: char) {
    forall p: string :: quote in put(p) ==> quote in p
  }

  /** The closing quote of a quoted path has a marker behind it that the bare-path rule leaves, and
      another quote after that. */
  predicate SharesQuote(t: string, quote: char)
    decreases |t|
  {
    t != ""
    && if OpensQuoted(t, quote) then
         var rest := t[ToQuote(t[1..], quote) + 2..];
         (QuotedMarker(rest) && !GluedDrive(rest) && quote in rest) || SharesQuote(rest, quote)
       else SharesQuote(t[1..], quote)
  }

  lemma {:induction false} QuotedKeepsQuote(t: string, quote: char, put: string -> string)
    ensures quote in Quoted(t, quote, put) <==> quote in t
    decreases |t|
  {
    if t != "" && !OpensQuoted(t, quote) {
      QuotedKeepsQuote(t[1..], quote, put);
      assert t == [t[0]] + t[1..];
    }
  }

  lemma {:induction false} BareKeepsQuote(atStart: bool, t: string, quote: char, put: string -> string)
    requires IsQuote(quote)
    ensures quote in t ==> quote in Bare(atStart, t, put)
    ensures AddsNo(put, quote) && quote in Bare(atStart, t, put) ==> quote in t
    decreases |t|
  {
    if t != "" {
      if TryBare(atStart, t).Some? {
        var m := TryBare(atStart, t).value;
        var path, rest := t[m.pre..m.pre + m.path], t[m.pre + m.path..];
        BareKeepsQuote(false, rest, quote, put);
        MatchHasNoQuote(atStart, t, quote);
        MatchParts(atStart, t, put);
        assert t[..m.pre + m.path] == t[..m.pre] + path && quote !in path;
        assert t == t[..m.pre + m.path] + rest;
      } else {
        BareKeepsQuote(false, t[1..], quote, put);
        assert t == [t[0]] + t[1..];
      }
    }
  }

  lemma {:induction false} ToQuoteSplits(t: string, quote: char)
    ensures quote !in t[..ToQuote(t, quote)]
    ensures ToQuote(t, quote) < |t| ==> t[ToQuote(t, quote)] == quote
  {
    var n := ToQuote(t, quote);
    if n > 0 {
      ToQuoteSplits(t[1..], quote);
      assert t[..n] == [t[0]] + t[1..][..n - 1];
    }
  }

  lemma {:induction false} NoQuoteIsCopied(t: string, quote: char, o: string, put: string -> string)
    requires quote !in t
    ensures Quoted(t + o, quote, put) == t + Quoted(o, quote, put)
  {
    if t == "" {
      assert t + o == o;
    } else {
      assert (t + o)[1..] == t[1..] + o && t + o == [t[0]] + (t[1..] + o);
      NoQuoteIsCopied(t[1..], quote, o, put);
    }
  }

  /** Nothing a marker depends on differs. */
  predicate SameMarker(t: string, u: string) {
    MarkerLen(t) == MarkerLen(u) && (QuotedMarker(t) <==> QuotedMarker(u)) && (GluedDrive(t) <==> GluedDrive(u))
  }

  lemma MarkerEndsBefore(front: string, quote: char, o: string)
    requires IsQuote(quote) && (o == "" || o[0] == quote)
    ensures MarkerLen(front + o) <= |front|
  {
    assert o != "" ==> (front + o)[|front|] == quote && !MarkerChar(quote);
    if MarkerLen(front + o) > |front| {
      MarkerChars(front + o);
    }
  }

  lemma MarkerOfFront(a: string, b: string, n: nat)
    requires n <= |a| && n <= |b| && a[..n] == b[..n] && 0 < MarkerLen(a) <= n
    ensures MarkerLen(b) == MarkerLen(a) && (QuotedMarker(a) <==> QuotedMarker(b))
  {
    var k := MarkerLen(a);
    assert a[..k] == a[..n][..k] == b[..k];
    MarkerIsLocal(a, b);
  }

  lemma SameGlued(a: string, b: string)
    requires MarkerLen(a) == MarkerLen(b) == 3 && a[..3] == b[..3]
    requires |a| > 3 <==> |b| > 3
    requires |a| > 3 ==> a[3] == b[3]
    ensures GluedDrive(a) <==> GluedDrive(b)
  {
    assert a[2] == a[..3][2] == b[..3][2];
  }

  /** What stands behind a quote has no part in a marker before it. */
  lemma SameBeforeQuote(front: string, quote: char, o: string, u: string)
    requires IsQuote(quote) && (o == "" || o[0] == quote) && (u == "" || u[0] == quote) && (o == "" <==> u == "")
    ensures SameMarker(front + o, front + u)
  {
    var a, b := front + o, front + u;
    MarkerEndsBefore(front, quote, o);
    MarkerEndsBefore(front, quote, u);
    assert a[..|front|] == b[..|front|];
    assert |a| > 3 && |front| == 3 ==> a[3] == b[3];
    assert |front| >= 3 ==> a[..3] == front[..3] == b[..3];
    if MarkerLen(a) > 0 {
      MarkerOfFront(a, b, |front|);
    } else if MarkerLen(b) > 0 {
      MarkerOfFront(b, a, |front|);
    }
    if MarkerLen(a) == 3 {
      SameGlued(a, b);
    }
  }

  lemma QuotedFront(t: string, quote: char, put: string -> string)
    ensures t != "" && t[0] == quote ==> Quoted(t, quote, put) != "" && Quoted(t, quote, put)[0] == quote
    ensures t == "" ==> Quoted(t, quote, put) == ""
  {
  }

  lemma QuotedKeepsMarker(t: string, quote: char, put: string -> string)
    requires IsQuote(quote)
    ensures SameMarker(Quoted(t, quote, put), t)
  {
    var n := ToQuote(t, quote);
    ToQuoteSplits(t, quote);
    assert t == t[..n] + t[n..];
    NoQuoteIsCopied(t[..n], quote, t[n..], put);
    QuotedFront(t[n..], quote, put);
    SameBeforeQuote(t[..n], quote, Quoted(t[n..], quote, put), t[n..]);
  }

  lemma LeavesMarkerIff(t: string, quote: char, put: string -> string)
    requires IsQuote(quote) && AddsNo(put, quote)
    ensures LeavesMarker(Quoted(t, quote, put), quote, put) <==> QuotedMarker(t) && !GluedDrive(t) && quote in t
  {
    QuotedKeepsMarker(t, quote, put);
    QuotedKeepsQuote(t, quote, put);
    BareKeepsQuote(false, Quoted(t, quote, put), quote, put);
  }

  lemma LeftOpenStep(c: char, t: string, quote: char, put: string -> string)
    ensures LeftOpen([c] + t, quote, put) <==> (c == quote && LeavesMarker(t, quote, put)) || LeftOpen(t, quote, put)
  {
    assert ([c] + t)[1..] == t;
  }

  lemma NothingBehindBracket(t: string, quote: char, put: string -> string)
    requires t != "" && t[0] == '<'
    ensures !LeavesMarker(t, quote, put)
  {
    FileMarker(t);
  }

  /** A quoted path that was redacted: only its closing quote can be left open. */
  lemma RedactedLeftOpenIff(x: string, z: string, quote: char, put: string -> string)
    requires x != "" && x[0] == '<' && quote !in x
    ensures LeftOpen([quote] + x + [quote] + z, quote, put) <==> LeavesMarker(z, quote, put) || LeftOpen(z, quote, put)
  {
    var y := x + ([quote] + z);
    assert [quote] + x + [quote] + z == [quote] + y;
    LeftOpenStep(quote, y, quote, put);
    NothingBehindBracket(y, quote, put);
    assert y[..|x|] == x && y[|x|..] == [quote] + z;
    NoneIsLeftOpenBefore(y, |x|, quote, put);
    LeftOpenStep(quote, z, quote, put);
  }

  lemma {:induction false} LeftOpenIffShared(t: string, quote: char, put: string -> string)
    requires IsQuote(quote) && AddsNo(put, quote) && StartsOpen(put)
    ensures LeftOpen(Quoted(t, quote, put), quote, put) <==> SharesQuote(t, quote)
    decreases |t|
  {
    if OpensQuoted(t, quote) {
      var n := ToQuote(t[1..], quote);
      var path, rest := t[1..n + 1], t[n + 2..];
      LeftOpenIffShared(rest, quote, put);
      ToQuoteSplits(t[1..], quote);
      assert path == t[1..][..n];
      RedactedLeftOpenIff(put(path), Quoted(rest, quote, put), quote, put);
      LeavesMarkerIff(rest, quote, put);
    } else if t != "" {
      LeftOpenIffShared(t[1..], quote, put);
      LeftOpenStep(t[0], Quoted(t[1..], quote, put), quote, put);
      LeavesMarkerIff(t[1..], quote, put);
      assert [t[0]] + t[1..] == t;
      OpensQuotedIff(t[0], t[1..], quote);
    }
  }

  lemma {:induction false} NoneIsLeftOpen(t: string, quote: char, put: string -> string)
    requires quote !in t
    ensures !LeftOpen(t, quote, put)
  {
    if t != "" {
      NoneIsLeftOpen(t[1..], quote, put);
    }
  }

  lemma {:induction false} NoOtherQuote(t: string, quote: char, other: char, put: string -> string)
    requires other !in t && other != quote && AddsNo(put, other)
    ensures other !in Quoted(t, quote, put)
    decreases |t|
  {
    if OpensQuoted(t, quote) {
      var n := ToQuote(t[1..], quote);
      NoOtherQuote(t[n + 2..], quote, other, put);
      assert other !in t[1..n + 1];
    } else if t != "" {
      NoOtherQuote(t[1..], quote, other, put);
    }
  }

  lemma NoQuoteNoChange(t: string, quote: char, put: string -> string)
    requires quote !in t
    ensures Quoted(t, quote, put) == t
  {
    NoQuoteIsCopied(t, quote, "", put);
    assert t + "" == t;
  }

  function OtherQuote(quote: char): char {
    if quote == '\'' then '"' else '\''
  }

  lemma OneKindBeforeBare(line: string, quote: char, put: string -> string)
    requires IsQuote(quote) && AddsNo(put, OtherQuote(quote)) && OtherQuote(quote) !in ParenFrames(line, put).0
    ensures BeforeBare(line, put) == Quoted(ParenFrames(line, put).0, quote, put)
    ensures OtherQuote(quote) !in BeforeBare(line, put)
  {
    var t, other := ParenFrames(line, put).0, OtherQuote(quote);
    NoOtherQuote(t, quote, other, put);
    if quote == '\'' {
      NoQuoteNoChange(Quoted(t, quote, put), other, put);
    } else {
      NoQuoteNoChange(t, other, put);
    }
  }

  /** On a line with one kind of quote, where no redaction brings quotes in: a second pass changes
      nothing exactly when the line is one frame, or no quoted path shares its closing quote with a
      marker behind it. Stated on the line with its parenthesised frames redacted. */
  lemma OneKindTwiceIff(line: string, quote: char, decode: string -> string)
    requires IsQuote(quote) && AddsNo(PutJobs(decode), '\'') && AddsNo(PutJobs(decode), '"')
    requires OtherQuote(quote) !in ParenFrames(line, PutJobs(decode)).0
    ensures var put := PutJobs(decode);
            Line(Line(line, put), put) == Line(line, put)
            <==> IsFrameLine(line, put) || !SharesQuote(ParenFrames(line, put).0, quote)
  {
    var put := PutJobs(decode);
    JobsStartsOpen(decode);
    LineTwiceIff(line, decode);
    OneKindBeforeBare(line, quote, put);
    LeftOpenIffShared(ParenFrames(line, put).0, quote, put);
    NoneIsLeftOpen(BeforeBare(line, put), OtherQuote(quote), put);
  }

  // ---------------------------------------------------------------- two paths that share a quote

  lemma {:induction false} NoParenNoFrame(t: string, put: string -> string)
    requires '(' !in t
    ensures ParenFrames(t, put) == (t, false)
  {
    if t != "" {
      NoParenNoFrame(t[1..], put);
      assert t == [t[0]] + t[1..];
    }
  }

  lemma QuoteStartsNoFrame(t: string)
    requires t != "" && IsQuote(t[0])
    ensures BareFrame(t).None?
  {
    assert TrimLeft(t) == t && t[0..] == t;
    assert |t| >= 3 ==> t[..3][0] == t[0];
    assert "at "[0] == 'a';
  }

  lemma NameHasNoQuote(p: string, quote: char, decode: string -> string)
    requires MarkerLen(p) > 0 && MarkerLen(p) != 7 && quote !in p && IsQuote(quote)
    ensures quote !in PutJobs(decode)(p)
  {
    var slashed := NormalizeSlashes(p);
    assert StripFileUrlPrefix(p, decode) == p by {
      FileMarker(p);
    }
    assert forall i :: 0 <= i < |p| ==> p[i] in p;
    assert quote !in slashed;
    assert PutJobs(decode)(p) == REDACTED + "/" + BasenameOf(p, decode);
  }

  lemma OpenSlices(t: string, quote: char, p: string, z: string)
    requires t == [quote] + p + [quote] + z
    ensures t[0] == quote && t[1..] == p + ([quote] + z) && t[1..|p| + 1] == p && t[|p| + 2..] == z
  {
  }

  /** A quoted path goes to the next quote, and what follows is read afresh. */
  lemma QuotedGoesTo(t: string, quote: char, p: string, z: string, put: string -> string)
    requires IsQuote(quote) && quote !in p && QuotedMarker(p) && t == [quote] + p + [quote] + z
    ensures Quoted(t, quote, put) == [quote] + put(p) + [quote] + Quoted(z, quote, put)
  {
    OpenSlices(t, quote, p, z);
    SameFrontMarker(p, [quote] + z, quote);
    QuoteFound(p, quote, z);
    QuotedParts(t, quote, put);
    QuoteParts(quote, put(p), Quoted(z, quote, put));
  }

  lemma QuoteFound(p: string, quote: char, z: string)
    requires quote !in p
    ensures ToQuote(p + ([quote] + z), quote) == |p|
  {
    var u := p + ([quote] + z);
    assert u[..|p|] == p && u[|p|] == quote;
    ToQuoteIs(u, quote, |p|);
  }

  lemma QuoteParts(quote: char, r: string, rest: string)
    ensures [quote] + (r + ([quote] + rest)) == [quote] + r + [quote] + rest
  {
  }

  lemma TwoPaths(p: string, q: string, quote: char, put: string -> string)
    requires IsQuote(quote) && quote !in p && quote !in q && QuotedMarker(p)
    ensures Quoted([quote] + p + [quote] + (q + [quote]), quote, put) == [quote] + put(p) + [quote] + (q + [quote])
  {
    QuotedGoesTo([quote] + p + [quote] + (q + [quote]), quote, p, q + [quote], put);
    NoQuoteIsCopied(q, quote, [quote], put);
    LastQuote(quote, put);
  }

  lemma SameFrontMarker(p: string, o: string, quote: char)
    requires QuotedMarker(p) && IsQuote(quote)
    ensures QuotedMarker(p + o)
  {
    assert (p + o)[..|p|] == p == p[..|p|];
    MarkerOfFront(p, p + o, |p|);
  }

  lemma LastQuote(quote: char, put: string -> string)
    ensures Quoted([quote], quote, put) == [quote]
  {
    assert [quote][1..] == "" && Quoted("", quote, put) == "";
  }

  lemma {:induction false} ToQuoteIs(t: string, quote: char, n: nat)
    requires n < |t| && t[n] == quote && quote !in t[..n]
    ensures ToQuote(t, quote) == n
  {
    if n > 0 {
      assert t[..n] == [t[0]] + t[1..][..n - 1];
      ToQuoteIs(t[1..], quote, n - 1);
    }
  }

  lemma MarkerBeforeQuote(q: string, quote: char)
    requires IsQuote(quote) && QuotedMarker(q) && !GluedDrive(q)
    ensures QuotedMarker(q + [quote]) && !GluedDrive(q + [quote])
  {
    SameFrontMarker(q, [quote], quote);
    assert (q + [quote])[..|q|] == q == q[..|q|];
    MarkerOfFront(q, q + [quote], |q|);
    assert |q| > 3 ==> (q + [quote])[3] == q[3];
    assert forall i :: 0 <= i < |q| ==> (q + [quote])[i] == q[i];
  }

  /** Whole lines are not idempotent. Two paths that share a quote always take two passes: the closing
      quote of the first is free to open the second only once the first no longer looks like a path. */
  lemma SharedQuoteNeedsTwoPasses(p: string, q: string, decode: string -> string)
    requires MarkerLen(p) > 0 && MarkerLen(p) != 7 && QuotedMarker(q) && !GluedDrive(q)
    requires forall c :: c in p || c in q ==> !IsQuote(c) && c != '('
    ensures var put, line := PutJobs(decode), "'" + p + "'" + (q + "'");
            Line(Line(line, put), put) != Line(line, put)
  {
    var put := PutJobs(decode);
    var line := ['\''] + p + ['\''] + (q + ['\'']);
    JobsStartsOpen(decode);
    NoParenNoFrame(line, put);
    QuoteStartsNoFrame(line);
    TwoPaths(p, q, '\'', put);
    NameHasNoQuote(p, '\'', decode);
    NameHasNoQuote(p, '"', decode);
    var once := ['\''] + put(p) + ['\''] + (q + ['\'']);
    NoQuoteNoChange(once, '"', put);
    MarkerBeforeQuote(q, '\'');
    BareKeepsQuote(false, q + ['\''], '\'', put);
    RedactedLeftOpenIff(put(p), q + ['\''], '\'', put);
    LineTwiceIff(line, decode);
  }

  /** For one: `'/a'/q'`. */
  lemma OneLineNeedsTwoPasses(decode: string -> string)
    ensures var put, line := PutJobs(decode), "'/a'/q'"; Line(Line(line, put), put) != Line(line, put)
  {
    var p, q := "/a", "/q";
    FileMarker(p);
    FileMarker(q);
    assert "'" + p + "'" + (q + "'") == "'/a'/q'";
    SharedQuoteNeedsTwoPasses(p, q, decode);
  }
}
