/** What is left of a path in each of the forms the redaction knows (packages/shared/src/redact-paths.ts
    and packages/jobs/src/redact-paths.ts): its last name, whatever directories stood before it, with
    the text around it kept. */
module RedactForms {
  import opened Common
  import opened Text
  import opened RedactPaths
  import opened RedactTwice

  // ---------------------------------------------------------------- the last name

  predicate AllSeps(t: string) {
    forall i :: 0 <= i < |t| ==> IsSep(t[i])
  }

  /** Nothing, or anything that ends in a separator. */
  predicate IsFront(t: string) {
    t == "" || IsSep(t[|t| - 1])
  }

  lemma {:induction false} TailIsTrimmed(x: string, tail: string)
    requires forall i :: 0 <= i < |tail| ==> tail[i] == '/'
    requires x == "" || x[|x| - 1] != '/'
    ensures TrimSlashes(x + tail) == x
  {
    var t := x + tail;
    if tail == "" {
      assert t == x;
    } else {
      var shorter := tail[..|tail| - 1];
      assert t[..|t| - 1] == x + shorter;
      TailIsTrimmed(x, shorter);
    }
  }

  lemma {:induction false} FrontIsDropped(front: string, name: string)
    requires front == "" || front[|front| - 1] == '/'
    requires '/' !in name
    ensures AfterLastSlash(front + name) == name
  {
    var t := front + name;
    if name == "" {
      assert t == front;
    } else {
      var shorter := name[..|name| - 1];
      assert t[..|t| - 1] == front + shorter;
      FrontIsDropped(front, shorter);
      assert name == shorter + [name[|name| - 1]];
    }
  }

  lemma NormalizedParts(front: string, name: string, tail: string)
    requires NoSep(name)
    ensures NormalizeSlashes(front + name + tail) == NormalizeSlashes(front) + name + NormalizeSlashes(tail)
  {
    assert forall i :: 0 <= i < |name| ==> name[i] in name;
  }

  /** The basename of a path is its last name, whatever stands in front of that name's separator, slash
      or backslash, and however many separators end the path; a file URL is decoded first. */
  lemma BasenameIsLast(p: string, front: string, name: string, tail: string, decode: string -> string)
    requires IsFront(front) && NoSep(name) && AllSeps(tail) && (name != "" || front == "")
    requires (if |p| >= 7 && Lower(p[..7]) == "file://" then decode(p[7..]) else p) == front + name + tail
    ensures BasenameOf(p, decode) == name
  {
    var front', tail' := NormalizeSlashes(front), NormalizeSlashes(tail);
    NormalizedParts(front, name, tail);
    assert forall c :: c in name ==> !IsSep(c);
    assert name != "" ==> name[|name| - 1] in name;
    assert name == "" ==> front' + name == "";
    assert name != "" ==> (front' + name)[|front' + name| - 1] == name[|name| - 1];
    TailIsTrimmed(front' + name, tail');
    FrontIsDropped(front', name);
  }

  /** So nothing but the last name stands in the output: the jobs copy puts it for every path, and the
      shared copy for those its caller decides to redact. */
  lemma OnlyTheNameIsPut(p: string, front: string, name: string, tail: string, decide: string -> bool, decode: string -> string)
    requires IsFront(front) && NoSep(name) && AllSeps(tail) && (name != "" || front == "")
    requires (if |p| >= 7 && Lower(p[..7]) == "file://" then decode(p[7..]) else p) == front + name + tail
    ensures PutJobs(decode)(p) == "<redacted>/" + name
    ensures PutShared(decide, decode)(p) == if decide(p) then "<redacted>/" + name else p
  {
    BasenameIsLast(p, front, name, tail, decode);
    RedactedPrefix(name);
  }

  lemma RedactedPrefix(name: string)
    ensures REDACTED + "/" + name == "<redacted>/" + name
  {
  }

  // ---------------------------------------------------------------- how far a bare path goes

  /** A quote, a parenthesis or a square bracket. */
  predicate IsDelimiter(c: char) {
    c == '\'' || c == '"' || c == '(' || c == ')' || c == '[' || c == ']'
  }

  /** Neither space nor quote nor parenthesis nor square bracket. */
  predicate IsToken(t: string) {
    forall i :: 0 <= i < |t| ==> !IsSpace(t[i]) && !IsDelimiter(t[i])
  }

  lemma {:induction false} TokenIsBody(t: string, o: string)
    requires IsToken(t)
    ensures BodyLen(t + o) == |t| + BodyLen(o)
  {
    if t == "" {
      assert t + o == o;
    } else {
      assert (t + o)[0] == t[0] && (t + o)[1..] == t[1..] + o;
      TokenIsBody(t[1..], o);
    }
  }

  lemma {:induction false} TokenReaches(t: string, o: string)
    requires IsToken(t) && (NoSep(t) ==> o == "" || (!IsSep(o[0]) && !IsWord(o[0])))
    ensures Reaches(t + o) <==> !NoSep(t)
  {
    if t == "" {
      assert t + o == o;
    } else {
      assert (t + o)[0] == t[0] && (t + o)[1..] == t[1..] + o;
      assert t == [t[0]] + t[1..];
      if !IsSep(t[0]) {
        TokenReaches(t[1..], o);
      }
    }
  }

  lemma BodyFromBlanks(blanks: string, u: string)
    requires blanks != "" && (forall i :: 0 <= i < |blanks| ==> IsBlank(blanks[i])) && (u == "" || !IsBlank(u[0]))
    ensures BodyLen(blanks + u) == if Reaches(u) then |blanks| + BodyLen(u) else 0
  {
    var t := blanks + u;
    assert t[|blanks|..] == u && t[0] == blanks[0];
    BlankRunIs(t, |blanks|);
  }

  /** Blanks inside a path belong to it exactly when the token behind them holds a separator. */
  lemma BlanksAreKeptIff(blanks: string, token: string, o: string)
    requires blanks != "" && forall i :: 0 <= i < |blanks| ==> blanks[i] == ' ' || blanks[i] == '\t'
    requires token != "" && IsToken(token) && (o == "" || IsSpace(o[0]) || IsDelimiter(o[0]))
    ensures BodyLen(blanks + (token + o))
         == if exists i :: 0 <= i < |token| && (token[i] == '/' || token[i] == '\\')
            then |blanks| + |token| + BodyLen(o) else 0
  {
    assert forall i :: 0 <= i < |token| ==> token[i] in token;
    assert (token + o)[0] == token[0];
    BodyFromBlanks(blanks, token + o);
    TokenReaches(token, o);
    TokenIsBody(token, o);
  }

  // ---------------------------------------------------------------- a path in a line of text

  /** The whole of `p` is one bare path. */
  predicate IsBarePath(p: string) {
    MarkerLen(p) > 0 && BodyLen(p[MarkerLen(p)..]) + MarkerLen(p) == |p|
  }

  /** What may follow a bare path without going on with it. */
  predicate IsAfter(o: string) {
    o == "" || IsDelimiter(o[0]) || (IsSpace(o[0]) && (IsBlank(o[0]) ==> NoSep(o)))
  }

  lemma {:induction false} NoReach(o: string)
    requires NoSep(o)
    ensures !Reaches(o)
  {
    if o != "" {
      NoReach(o[1..]);
    }
  }

  lemma AfterEndsBody(o: string)
    requires IsAfter(o)
    ensures Ends(o) && BodyLen(o) == 0
  {
    if o != "" && IsBlank(o[0]) {
      var rest := o[BlankRun(o)..];
      assert forall c :: c in rest ==> c in o;
      NoReach(rest);
    }
  }

  lemma PathBefore(p: string, o: string)
    requires IsBarePath(p) && IsAfter(o)
    ensures MarkerLen(p + o) > 0 && PathLen(p + o) == |p|
  {
    AfterEndsBody(o);
    PathStays(p, o);
    assert p[..PathLen(p)] == p;
  }

  lemma BareMatch(atStart: bool, t: string, pre: string, p: string, o: string, put: string -> string)
    requires t == pre + p + o && TryBare(atStart, t) == Some(Match(|pre|, |p|))
    ensures Bare(atStart, t, put) == pre + put(p) + Bare(false, o, put)
  {
    assert t[..|pre|] == pre && t[|pre|..|pre| + |p|] == p && t[|pre| + |p|..] == o;
    MatchParts(atStart, t, put);
  }

  lemma BareAtStart(p: string, o: string, put: string -> string)
    requires IsBarePath(p) && IsAfter(o)
    ensures Bare(true, p + o, put) == put(p) + Bare(false, o, put)
  {
    PathBefore(p, o);
    EmptyFront(p, o);
    EmptyFront(put(p), Bare(false, o, put));
    BareMatch(true, p + o, "", p, o, put);
  }

  lemma EmptyFront(p: string, o: string)
    ensures "" + p + o == p + o
  {
  }

  lemma BareBehind(atStart: bool, c: char, p: string, o: string, t: string, put: string -> string)
    requires IsSpace(c) || c == '(' || c == '[' || c == '=' || c == ','
    requires IsBarePath(p) && IsAfter(o) && t == [c] + p + o
    ensures Bare(atStart, t, put) == [c] + put(p) + Bare(false, o, put)
  {
    PathBefore(p, o);
    assert t == [c] + (p + o);
    MatchBehind(atStart, c, p + o, |p|);
    BareMatch(atStart, t, [c], p, o, put);
  }

  lemma MatchBehind(atStart: bool, c: char, u: string, n: nat)
    requires IsSpace(c) || c == '(' || c == '[' || c == '=' || c == ','
    requires MarkerLen(u) > 0 && PathLen(u) == n
    ensures TryBare(atStart, [c] + u) == Some(Match(1, n))
  {
    assert ([c] + u)[1..] == u && ([c] + u)[0] == c;
    FileMarker([c] + u);
  }

  lemma PlainIsCopied(x: string, o: string, put: string -> string)
    requires NoSep(x) && Stops(o)
    ensures Bare(false, x + o, put) == x + Bare(false, o, put)
    ensures x != "" ==> Bare(true, x + o, put) == x + Bare(false, o, put)
  {
    if x == "" {
      assert x + o == o;
    } else {
      NoSepIsSkipped(false, x, o);
      SkippedIsCopied(false, x, o, put);
      NoSepIsSkipped(true, x, o);
      SkippedIsCopied(true, x, o, put);
    }
  }

  lemma PlainStays(x: string, put: string -> string)
    requires NoSep(x)
    ensures Bare(false, x, put) == x
  {
    PlainIsCopied(x, "", put);
    assert x + "" == x;
  }

  /** No rule but the bare-path rule has anything to do on such a line. */
  predicate OnlyBareRule(line: string) {
    ')' !in line && '\'' !in line && '"' !in line && !StartsWith(TrimLeft(line), "at ")
  }

  lemma {:induction false} NoCloseNoFrame(t: string, put: string -> string)
    requires ')' !in t
    ensures ParenFrames(t, put) == (t, false)
  {
    if t != "" {
      NoCloseNoFrame(t[1..], put);
      assert t == [t[0]] + t[1..];
      assert forall i :: 0 <= i < |t| ==> t[i] in t;
      NoHeadFrame(t, put);
    }
  }

  lemma NoFrameLine(line: string)
    requires !StartsWith(TrimLeft(line), "at ")
    ensures BareFrame(line).None?
  {
    LeadIsSpace(line);
  }

  lemma LineIsBare(line: string, put: string -> string)
    requires OnlyBareRule(line)
    ensures Line(line, put) == Bare(true, line, put)
  {
    NoCloseNoFrame(line, put);
    NoFrameLine(line);
    NoQuoteNoChange(line, '\'', put);
    NoQuoteNoChange(line, '"', put);
  }

  lemma AtIsTwoLetters(p: string)
    ensures StartsWith(p, "at ") ==> |p| >= 3 && p[0] == 'a' && p[1] == 't'
  {
    assert |p| >= 3 ==> p[..3][0] == p[0] && p[..3][1] == p[1];
  }

  lemma MarkerIsNoFrame(p: string)
    requires MarkerLen(p) > 0
    ensures !StartsWith(TrimLeft(p), "at ")
  {
    FileMarker(p);
    MarkerChars(p);
    assert !IsSpace(p[0]);
    assert TrimLeft(p) == p;
    AtIsTwoLetters(p);
  }

  /** A line that is one path is redacted whole. */
  lemma LonePath(p: string, put: string -> string)
    requires IsBarePath(p)
    ensures Line(p, put) == put(p)
  {
    PathHasNoBracket(p);
    MarkerIsNoFrame(p);
    LineIsBare(p, put);
    BareAtStart(p, "", put);
    assert p + "" == p && put(p) + "" == put(p);
  }

  /** A path without blanks, brackets or quotes is all one bare path. */
  lemma TokenIsBarePath(p: string)
    requires MarkerLen(p) > 0 && IsToken(p[MarkerLen(p)..])
    ensures IsBarePath(p)
  {
    var body := p[MarkerLen(p)..];
    TokenIsBody(body, "");
    assert body + "" == body;
  }

  /** What begins an absolute path: a slash, two backslashes, a drive letter of either case with a colon
      and either separator, and a file URL's scheme in any case. */
  lemma AbsoluteBeginnings(drive: char, rest: string)
    requires 'a' <= drive <= 'z' || 'A' <= drive <= 'Z'
    ensures MarkerLen("/" + rest) == 1
    ensures MarkerLen("\\\\" + rest) == 2
    ensures MarkerLen([drive] + ":/" + rest) == 3 && MarkerLen([drive] + ":\\" + rest) == 3
    ensures MarkerLen("file://" + rest) == 7 && MarkerLen("FILE://" + rest) == 7
  {
    FileMarker("/" + rest);
    FileMarker("\\\\" + rest);
    DriveBegins(drive, '/', rest);
    DriveBegins(drive, '\\', rest);
    FileMarker("file://" + rest);
    FileMarker("FILE://" + rest);
  }

  /** And nothing else does. */
  lemma NothingElseBegins(t: string)
    ensures MarkerLen(t) > 0
        ==> || t[0] == '/'
            || (|t| >= 2 && t[..2] == "\\\\")
            || (|t| >= 3 && ('a' <= t[0] <= 'z' || 'A' <= t[0] <= 'Z') && (t[1..3] == ":/" || t[1..3] == ":\\"))
            || (|t| >= 7 && Lower(t[..7]) == "file://")
  {
    assert |t| >= 2 ==> t[..2] == [t[0], t[1]];
    assert |t| >= 3 ==> t[1..3] == [t[1], t[2]];
    assert |t| >= 7 ==> |Lower(t[..7])| == 7 == |"file://"|;
  }

  lemma DriveBegins(drive: char, sep: char, rest: string)
    requires ('a' <= drive <= 'z' || 'A' <= drive <= 'Z') && IsSep(sep)
    ensures MarkerLen([drive] + [':', sep] + rest) == 3
  {
    var t := [drive] + [':', sep] + rest;
    FileMarker(t);
    assert t[0] == drive && t[1] == ':' && t[2] == sep;
  }

  /** A line that is one path keeps nothing of it but its last name. */
  lemma LonePathKeepsItsName(p: string, front: string, name: string, tail: string, decode: string -> string)
    requires IsBarePath(p) && IsFront(front) && NoSep(name) && AllSeps(tail) && (name != "" || front == "")
    requires (if |p| >= 7 && Lower(p[..7]) == "file://" then decode(p[7..]) else p) == front + name + tail
    ensures Line(p, PutJobs(decode)) == "<redacted>/" + name
  {
    OnlyTheNameIsPut(p, front, name, tail, _ => true, decode);
    LonePath(p, PutJobs(decode));
  }

  /** A path in the middle of a line, behind white space, an opening bracket, an equals sign or a comma:
      it alone is replaced. */
  lemma PathInText(before: string, c: char, p: string, o: string, put: string -> string)
    requires NoSep(before) && IsBarePath(p) && IsAfter(o) && NoSep(o)
    requires IsSpace(c) || c == '(' || c == '[' || c == '=' || c == ','
    requires OnlyBareRule(before + ([c] + p + o))
    ensures Line(before + ([c] + p + o), put) == before + ([c] + put(p) + o)
  {
    LineIsBare(before + ([c] + p + o), put);
    PlainStays(o, put);
    BoundaryIsNoMarker(c);
    if before == "" {
      BareBehind(true, c, p, o, [c] + p + o, put);
      assert before + ([c] + p + o) == [c] + p + o;
    } else {
      BareBehind(false, c, p, o, [c] + p + o, put);
      PlainIsCopied(before, [c] + p + o, put);
    }
  }

  lemma BoundaryIsNoMarker(c: char)
    requires IsSpace(c) || c == '(' || c == '[' || c == '=' || c == ','
    ensures !MarkerChar(c)
  {
  }

  /** Text in which no path follows a boundary, or white space, stays as it is. */
  lemma UnboundedIsKept(line: string, put: string -> string)
    requires MarkerLen(line) == 0 && OnlyBareRule(line)
    requires forall i :: 0 <= i < |line| ==> !IsSpace(line[i]) && line[i] != '(' && line[i] != '[' && line[i] != '='
                                             && line[i] != ',' && line[i] != ':'
    ensures Line(line, put) == line
  {
    LineIsBare(line, put);
    if line != "" {
      assert Inert(line[1..]) && Inert(line);
      InertIsSkipped(line[1..], "");
      assert line[1..] + "" == line[1..] && line + "" == line;
      assert TryBare(true, line).None?;
      assert Skips(true, line, "");
      SkippedIsCopied(true, line, "", put);
    }
  }

  // ---------------------------------------------------------------- quoted paths

  lemma QuotedPart(before: string, q: char, p: string, o: string, put: string -> string)
    requires IsQuote(q) && q !in before && q !in p && q !in o && QuotedMarker(p)
    ensures Quoted(before + ([q] + p + [q] + o), q, put) == before + ([q] + put(p) + [q] + o)
  {
    NoQuoteIsCopied(before, q, [q] + p + [q] + o, put);
    QuotedHead(q, p, o, [q] + p + [q] + o, put);
  }

  lemma QuotedHead(q: char, p: string, o: string, t: string, put: string -> string)
    requires IsQuote(q) && q !in p && q !in o && QuotedMarker(p) && t == [q] + p + [q] + o
    ensures Quoted(t, q, put) == [q] + put(p) + [q] + o
  {
    QuotedGoesTo(t, q, p, o, put);
    NoQuoteNoChange(o, q, put);
  }

  /** A quoted path may begin with whatever begins a bare one, but for a file URL's scheme in any other
      case than lower. */
  lemma QuotedBeginsIff(t: string)
    ensures QuotedMarker(t) <==> MarkerLen(t) > 0 && (|t| >= 7 && Lower(t[..7]) == "file://" ==> t[..7] == "file://")
  {
    FileMarker(t);
    assert |t| >= 7 ==> |Lower(t[..7])| == 7 == |"file://"|;
  }

  /** What a redaction leaves is passed over by the bare-path rule, plain text around it included. */
  lemma RedactionStays(before: string, name: string, after: string, put: string -> string)
    requires NoSep(before) && NoSep(name) && NoSep(after) && Ends(after)
    ensures Bare(true, before + (REDACTED + "/" + name + after), put) == before + (REDACTED + "/" + name + after)
  {
    var x := REDACTED + "/" + name;
    RedactionIsSkipped(true, name, after);
    RedactionIsSkipped(false, name, after);
    SkippedIsCopied(true, x, after, put);
    SkippedIsCopied(false, x, after, put);
    PlainStays(after, put);
    assert (x + after)[0] == '<';
    if before == "" {
      assert before + (x + after) == x + after;
    } else {
      PlainIsCopied(before, x + after, put);
    }
  }

  lemma QuotesAround(before: string, q: char, name: string, o: string)
    ensures before + ([q] + (REDACTED + "/" + name) + [q] + o) == (before + [q]) + (REDACTED + "/" + name + ([q] + o))
  {
  }

  lemma LineIsQuoted(line: string, q: char, mid: string, put: string -> string)
    requires ')' !in line && !StartsWith(TrimLeft(line), "at ")
    requires IsQuote(q) && OtherQuote(q) !in line && OtherQuote(q) !in mid && Quoted(line, q, put) == mid
    ensures Line(line, put) == Bare(true, mid, put)
  {
    NoCloseNoFrame(line, put);
    NoFrameLine(line);
    NoQuoteNoChange(line, OtherQuote(q), put);
    NoQuoteNoChange(mid, OtherQuote(q), put);
  }

  /** A path in quotes, blanks and brackets inside it and all: only the quoted path is replaced. */
  lemma QuotedPath(before: string, q: char, p: string, name: string, o: string, line: string, put: string -> string)
    requires IsQuote(q) && q !in before && q !in p && q !in o && QuotedMarker(p) && NoSep(before) && NoSep(o)
    requires put(p) == REDACTED + "/" + name && NoSep(name) && OtherQuote(q) !in put(p)
    requires line == before + ([q] + p + [q] + o)
    requires ')' !in line && OtherQuote(q) !in line && !StartsWith(TrimLeft(line), "at ")
    ensures Line(line, put) == before + ([q] + put(p) + [q] + o)
  {
    QuotedPart(before, q, p, o, put);
    NoOtherIn(before, q, p, put(p), o, OtherQuote(q));
    LineIsQuoted(line, q, before + ([q] + put(p) + [q] + o), put);
    StaysInQuotes(before, q, put(p), name, o, put);
  }

  lemma StaysInQuotes(before: string, q: char, r: string, name: string, o: string, put: string -> string)
    requires IsQuote(q) && NoSep(before) && NoSep(o) && NoSep(name) && r == REDACTED + "/" + name
    ensures var mid := before + ([q] + r + [q] + o); Bare(true, mid, put) == mid
  {
    QuotesAround(before, q, name, o);
    RedactionStays(before + [q], name, [q] + o, put);
  }

  lemma NoOtherIn(before: string, q: char, p: string, r: string, o: string, other: char)
    requires other !in before + ([q] + p + [q] + o) && other !in r
    ensures other !in before + ([q] + r + [q] + o)
  {
    assert forall c :: c in before || c in o ==> c in before + ([q] + p + [q] + o);
  }

  /** No boundary, and no colon but in front of two slashes. */
  predicate UngluedAt(x: string, i: nat)
    requires i < |x|
  {
    !IsBoundary(x[i]) && (x[i] == ':' ==> i + 2 < |x| && x[i + 1] == '/' && x[i + 2] == '/')
  }

  predicate NothingGlued(x: string) {
    forall i :: 0 <= i < |x| ==> UngluedAt(x, i)
  }

  lemma UngluedWithin(a: string, p: string, b: string)
    requires NothingGlued(p) && NothingGlued(a) && NothingGlued(b)
    ensures NothingGlued(a + p + b)
  {
    var x := a + p + b;
    forall i | 0 <= i < |x|
      ensures UngluedAt(x, i)
    {
      if i < |a| {
        assert UngluedAt(a, i);
      } else if i < |a| + |p| {
        assert UngluedAt(p, i - |a|);
      } else {
        assert UngluedAt(b, i - |a| - |p|);
      }
    }
  }

  lemma {:induction false} UngluedIsSkipped(x: string, o: string)
    requires NothingGlued(x)
    ensures Skips(false, x, o)
  {
    if x != "" {
      var t := x + o;
      assert t[0] == x[0] && (|x| > 2 ==> t[1] == x[1] && t[2] == x[2]);
      assert UngluedAt(x, 0);
      forall i | 0 <= i < |x| - 1
        ensures UngluedAt(x[1..], i)
      {
        assert UngluedAt(x, i + 1);
      }
      UngluedIsSkipped(x[1..], o);
    }
  }

  lemma OddSchemeStaysQuoted(q: char, p: string, o: string, t: string, put: string -> string)
    requires IsQuote(q) && q !in p && q !in o && |p| >= 7 && Lower(p[..7]) == "file://" && p[..7] != "file://"
    requires t == [q] + p + [q] + o
    ensures Quoted(t, q, put) == t
  {
    var u := p + ([q] + o);
    assert t[1..] == u && u[..7] == p[..7];
    QuotedBeginsIff(u);
    NoQuoteIsCopied(p, q, [q] + o, put);
    LoneQuoteStays(q, o, put);
    assert t == [q] + u;
  }

  lemma LoneQuoteStays(q: char, o: string, put: string -> string)
    requires q !in o
    ensures Quoted([q] + o, q, put) == [q] + o
  {
    NoneToQuote(o, q);
    assert ([q] + o)[1..] == o;
    NoQuoteNoChange(o, q, put);
  }

  lemma {:induction false} NoneToQuote(o: string, q: char)
    requires q !in o
    ensures ToQuote(o, q) == |o|
  {
    if o != "" {
      assert o[0] in o;
      NoneToQuote(o[1..], q);
    }
  }

  lemma QuoteIsUnglued(q: char)
    requires IsQuote(q)
    ensures NothingGlued([q])
  {
    assert !IsBoundary(q) && q != ':';
  }

  lemma QuotedSkips(q: char, p: string, o: string, x: string)
    requires IsQuote(q) && NothingGlued(p) && x == [q] + p + [q]
    ensures Skips(false, x, o) && Skips(true, x, o)
  {
    QuoteIsUnglued(q);
    UngluedWithin([q], p, [q]);
    UngluedIsSkipped(x, o);
    QuoteIsNoMarker(q, x + o);
  }

  lemma QuotedStaysBare(before: string, q: char, o: string, x: string, put: string -> string)
    requires IsQuote(q) && NoSep(before) && NoSep(o) && x != "" && x[0] == q && Skips(false, x, o) && Skips(true, x, o)
    ensures Bare(true, before + (x + o), put) == before + (x + o)
  {
    SkippedIsCopied(false, x, o, put);
    PlainStays(o, put);
    if before == "" {
      SkippedIsCopied(true, x, o, put);
      assert before + (x + o) == x + o;
    } else {
      QuoteStops(q, x + o);
      PlainIsCopied(before, x + o, put);
    }
  }

  lemma QuoteStops(q: char, t: string)
    requires IsQuote(q) && t != "" && t[0] == q
    ensures Stops(t)
  {
  }

  lemma QuoteIsNoMarker(q: char, t: string)
    requires IsQuote(q) && t != "" && t[0] == q
    ensures MarkerLen(t) == 0
  {
    FileMarker(t);
  }

  /** Where the claim that every path goes fails: a file URL in quotes whose scheme is not all lower-case
      is left as it stands, directories and all, since the quoted rule wants the scheme in lower case and
      the bare rule sees no boundary before it. */
  lemma OddSchemeIsKept(before: string, q: char, p: string, o: string, line: string, put: string -> string)
    requires IsQuote(q) && q !in before && q !in p && q !in o && NoSep(before) && NoSep(o) && NothingGlued(p)
    requires |p| >= 7 && Lower(p[..7]) == "file://" && p[..7] != "file://"
    requires line == before + ([q] + p + [q] + o)
    requires ')' !in line && OtherQuote(q) !in line && !StartsWith(TrimLeft(line), "at ")
    ensures Line(line, put) == line
  {
    OddSchemeStaysQuoted(q, p, o, [q] + p + [q] + o, put);
    NoQuoteIsCopied(before, q, [q] + p + [q] + o, put);
    LineIsQuoted(line, q, line, put);
    QuotedSkips(q, p, o, [q] + p + [q]);
    QuotedStaysBare(before, q, o, [q] + p + [q], put);
  }

  // ---------------------------------------------------------------- stack frames

  lemma FrameReadsBack(p: string, line: string, col: string, content: string)
    requires p != "" && IsNumber(line) && IsNumber(col) && content == p + ":" + line + ":" + col
    ensures FrameOf(content) == Some(Frame(p, line, col))
  {
    SplitConcat(p + ":" + line, col, ':');
    SplitConcat(p, line, ':');
    SplitFree(line, ':');
    SplitFree(col, ':');
    SplitPieces(p, ':');
    var parts := Split(content, ':');
    assert parts == Split(p, ':') + [line] + [col];
    assert parts[..|parts| - 2] == Split(p, ':');
  }

  /** A path that begins with a marker and does not end in white space. */
  predicate IsFramePath(p: string) {
    MarkerLen(p) > 0 && !IsSpace(p[|p| - 1]) && '(' !in p && ')' !in p
  }

  lemma FramePathLooksAbsolute(p: string)
    requires IsFramePath(p)
    ensures LooksAbsolute(p)
  {
    MarkerChars(p);
    assert !IsSpace(p[0]);
  }

  lemma {:induction false} NoOpenIsCopied(x: string, o: string, put: string -> string)
    requires '(' !in x
    ensures ParenFrames(x + o, put) == (x + ParenFrames(o, put).0, ParenFrames(o, put).1)
  {
    if x == "" {
      assert x + o == o && x + ParenFrames(o, put).0 == ParenFrames(o, put).0;
    } else {
      var t := x + o;
      assert t[0] == x[0] && t[1..] == x[1..] + o && x[0] in x;
      NoOpenIsCopied(x[1..], o, put);
      NoHeadFrame(t, put);
      HeadAndTail(x, ParenFrames(o, put).0);
    }
  }

  lemma {:induction false} NextIsOpen(x: string, o: string)
    requires ')' !in x && o != "" && o[0] == '('
    ensures var n := ToParen(x + o); n < |x + o| && (x + o)[n] == '('
  {
    if x == "" {
      assert x + o == o;
    } else {
      assert (x + o)[0] == x[0] && (x + o)[1..] == x[1..] + o && x[0] in x;
      if x[0] != '(' {
        NextIsOpen(x[1..], o);
      }
    }
  }

  lemma {:induction false} NoCloseIsCopied(x: string, o: string, put: string -> string)
    requires ')' !in x && o != "" && o[0] == '('
    ensures ParenFrames(x + o, put) == (x + ParenFrames(o, put).0, ParenFrames(o, put).1)
  {
    if x == "" {
      assert x + o == o && x + ParenFrames(o, put).0 == ParenFrames(o, put).0;
    } else {
      var t := x + o;
      assert t[0] == x[0] && t[1..] == x[1..] + o && x[0] in x;
      NextIsOpen(x[1..], o);
      NoCloseIsCopied(x[1..], o, put);
      NoHeadFrame(t, put);
      HeadAndTail(x, ParenFrames(o, put).0);
    }
  }

  lemma {:induction false} ToParenIs(t: string, n: nat)
    requires n < |t| && t[n] == ')' && forall i :: 0 <= i < n ==> t[i] != '(' && t[i] != ')'
    ensures ToParen(t) == n
  {
    if n > 0 {
      ToParenIs(t[1..], n - 1);
    }
  }

  lemma ContentEnds(content: string, o: string, t: string)
    requires '(' !in content && ')' !in content && t == "(" + content + ")" + o
    ensures var n := |content|;
            && ToParen(t[1..]) == n && t[n + 1] == ')' && t[1..n + 1] == content && t[n + 2..] == o
  {
    var n := |content|;
    assert t[1..] == content + (")" + o);
    assert forall i :: 0 <= i < n ==> t[1..][i] == content[i] && content[i] in content;
    ToParenIs(t[1..], n);
  }

  lemma FrameHead(content: string, f: Frame, o: string, t: string, put: string -> string)
    requires FrameOf(content) == Some(f) && LooksAbsolute(f.path)
    requires '(' !in content && ')' !in content && '(' !in o && t == "(" + content + ")" + o
    ensures ParenFrames(t, put) == ("(" + put(f.path) + ":" + f.line + ":" + f.col + ")" + o, true)
  {
    ContentEnds(content, o, t);
    assert t[0] == '(';
    NoParenNoFrame(o, put);
  }

  lemma NumbersAreNoParens(p: string, line: string, col: string)
    requires '(' !in p && ')' !in p && IsNumber(line) && IsNumber(col)
    ensures '(' !in p + ":" + line + ":" + col && ')' !in p + ":" + line + ":" + col
  {
  }

  lemma FrameInLine(before: string, p: string, line: string, col: string, o: string, t: string, put: string -> string)
    requires IsFramePath(p) && IsNumber(line) && IsNumber(col) && ('(' !in before || ')' !in before) && '(' !in o
    requires t == before + ("(" + (p + ":" + line + ":" + col) + ")" + o)
    ensures ParenFrames(t, put) == (before + ("(" + put(p) + ":" + line + ":" + col + ")" + o), true)
  {
    var content := p + ":" + line + ":" + col;
    FrameReadsBack(p, line, col, content);
    FramePathLooksAbsolute(p);
    NumbersAreNoParens(p, line, col);
    FrameHead(content, Frame(p, line, col), o, "(" + content + ")" + o, put);
    if '(' in before {
      NoCloseIsCopied(before, "(" + content + ")" + o, put);
    } else {
      NoOpenIsCopied(before, "(" + content + ")" + o, put);
    }
  }

  /** No quote of either kind. */
  predicate Unquoted(t: string) {
    '\'' !in t && '"' !in t
  }

  lemma FrameRegrouped(before: string, r: string, name: string, line: string, col: string, o: string)
    requires r == REDACTED + "/" + name
    ensures before + ("(" + r + ":" + line + ":" + col + ")" + o)
         == (before + "(") + (REDACTED + "/" + (name + ":" + line + ":" + col) + (")" + o))
  {
  }

  lemma FrameStays(before: string, r: string, name: string, line: string, col: string, o: string, t: string, put: string -> string)
    requires NoSep(before) && NoSep(name) && NoSep(o) && IsNumber(line) && IsNumber(col)
    requires r == REDACTED + "/" + name && t == before + ("(" + r + ":" + line + ":" + col + ")" + o)
    ensures Bare(true, t, put) == t
  {
    FrameRegrouped(before, r, name, line, col, o);
    RedactionStays(before + "(", name + ":" + line + ":" + col, ")" + o, put);
  }

  /** A parenthesised stack frame: its path is replaced, its position and the line around it kept; a
      parenthesis that opens before the frame and does not close changes nothing. */
  lemma ParenFramePath(before: string, p: string, name: string, line: string, col: string, o: string, t: string, put: string -> string)
    requires IsFramePath(p) && IsNumber(line) && IsNumber(col)
    requires NoSep(before) && NoSep(o) && ('(' !in before || ')' !in before) && '(' !in o && Unquoted(before) && Unquoted(o)
    requires put(p) == REDACTED + "/" + name && NoSep(name) && Unquoted(name)
    requires t == before + ("(" + (p + ":" + line + ":" + col) + ")" + o)
    ensures Line(t, put) == before + ("(" + put(p) + ":" + line + ":" + col + ")" + o)
  {
    var mid := before + ("(" + put(p) + ":" + line + ":" + col + ")" + o);
    FrameInLine(before, p, line, col, o, t, put);
    FrameIsUnquoted(before, put(p), name, line, col, o);
    NoQuoteNoChange(mid, '\'', put);
    NoQuoteNoChange(mid, '"', put);
    FrameStays(before, put(p), name, line, col, o, mid, put);
  }

  lemma FrameIsUnquoted(before: string, r: string, name: string, line: string, col: string, o: string)
    requires Unquoted(before) && Unquoted(o) && Unquoted(name) && IsNumber(line) && IsNumber(col)
    requires r == REDACTED + "/" + name
    ensures Unquoted(before + ("(" + r + ":" + line + ":" + col + ")" + o))
  {
    assert Unquoted(REDACTED + "/");
  }

  lemma BareFrameReads(t: string, k: nat, content: string, f: Frame)
    requires |t| - |TrimLeft(t)| == k && k + 3 <= |t| && StartsWith(t[k..], "at ")
    requires TrimRight(t[k + 3..]) == content && FrameOf(content) == Some(f)
    requires forall c :: c in f.path ==> !IsTerminator(c)
    ensures k + 3 + |content| <= |t| && BareFrame(t) == Some((t[..k + 3], f, t[k + 3 + |content|..]))
  {
  }

  lemma FrameLineReads(indent: string, p: string, line: string, col: string, trail: string, content: string, t: string)
    requires AllSpace(indent) && AllSpace(trail) && p != "" && IsNumber(line) && IsNumber(col)
    requires forall c :: c in p ==> !IsTerminator(c)
    requires content == p + ":" + line + ":" + col && t == indent + ("at " + (content + trail))
    ensures BareFrame(t) == Some((indent + "at ", Frame(p, line, col), trail))
  {
    var u := "at " + (content + trail);
    assert u[0] == 'a' && u[..3] == "at ";
    TrimLeftPast(indent, u);
    FrameSlices(indent, content, trail, t);
    FrameReadsBack(p, line, col, content);
    NumberEnds(p, line, col, content);
    TrimRightPast(content, trail);
    BareFrameReads(t, |indent|, content, Frame(p, line, col));
  }

  /** A line end of any kind inside what would be the path makes it no frame. */
  lemma BrokenFrameIsNone(indent: string, p: string, line: string, col: string, trail: string, t: string, k: nat)
    requires AllSpace(indent) && AllSpace(trail) && k < |p| && IsNumber(line) && IsNumber(col)
    requires p[k] as int == 10 || p[k] as int == 13 || p[k] as int == 0x2028 || p[k] as int == 0x2029
    requires t == indent + ("at " + ((p + ":" + line + ":" + col) + trail))
    ensures BareFrame(t).None?
  {
    var content := p + ":" + line + ":" + col;
    FrameContent(indent, content, trail, t);
    NumberEnds(p, line, col, content);
    TrimRightPast(content, trail);
    FrameReadsBack(p, line, col, content);
    assert p[k] in p && IsTerminator(p[k]);
  }

  lemma FrameContent(indent: string, content: string, trail: string, t: string)
    requires AllSpace(indent) && t == indent + ("at " + (content + trail))
    ensures |t| - |TrimLeft(t)| == |indent| && StartsWith(t[|indent|..], "at ") && t[|indent| + 3..] == content + trail
  {
    var u := "at " + (content + trail);
    assert u[0] == 'a' && u[..3] == "at ";
    TrimLeftPast(indent, u);
    FrameSlices(indent, content, trail, t);
  }

  lemma NumberEnds(p: string, line: string, col: string, content: string)
    requires IsNumber(col) && content == p + ":" + line + ":" + col
    ensures content != "" && !IsSpace(content[|content| - 1])
  {
    assert content[|content| - 1] == col[|col| - 1] && IsDigit(col[|col| - 1]);
  }

  lemma FrameSlices(indent: string, content: string, trail: string, t: string)
    requires t == indent + ("at " + (content + trail))
    ensures var k := |indent|;
            && t[k..] == "at " + (content + trail) && t[k + 3..] == content + trail && t[..k + 3] == indent + "at "
            && t[k + 3 + |content|..] == trail
  {
  }

  /** A line that is one bare stack frame: the same, whatever the path holds but parentheses and line
      ends. */
  lemma BareFramePath(indent: string, p: string, line: string, col: string, trail: string, t: string, put: string -> string)
    requires IsFramePath(p) && AllSpace(indent) && AllSpace(trail) && IsNumber(line) && IsNumber(col)
    requires forall i :: 0 <= i < |p| ==> p[i] as int != 10 && p[i] as int != 13 && p[i] as int != 0x2028 && p[i] as int != 0x2029
    requires t == indent + ("at " + ((p + ":" + line + ":" + col) + trail))
    ensures Line(t, put) == indent + "at " + put(p) + ":" + line + ":" + col + trail
  {
    FrameLineReads(indent, p, line, col, trail, p + ":" + line + ":" + col, t);
    FramePathLooksAbsolute(p);
    NumbersAreNoParens(p, line, col);
    SpaceIsNoParen(indent, trail);
    NoParenNoFrame(t, put);
  }

  lemma SpaceIsNoParen(indent: string, trail: string)
    requires AllSpace(indent) && AllSpace(trail)
    ensures '(' !in indent && '(' !in trail
  {
  }

  // ---------------------------------------------------------------- line by line

  predicate MappedBy(lines: seq<string>, out: seq<string>, f: string -> string) {
    |out| == |lines| && forall i :: 0 <= i < |lines| ==> out[i] == f(lines[i])
  }

  lemma MappedConcat(a: seq<string>, b: seq<string>, outA: seq<string>, outB: seq<string>, out: seq<string>, f: string -> string)
    requires MappedBy(a, outA, f) && MappedBy(b, outB, f) && MappedBy(a + b, out, f)
    ensures out == outA + outB
  {
    assert forall i :: 0 <= i < |a| ==> (a + b)[i] == a[i];
    assert forall i :: |a| <= i < |a| + |b| ==> (a + b)[i] == b[i - |a|];
  }

  lemma LinesAreMapped(lines: seq<string>, f: string -> string, put: string -> string)
    requires forall x: string :: f(x) == Line(x, put)
    ensures MappedBy(lines, Lines(lines, put), f)
  {
  }

  lemma LinesConcat(a: seq<string>, b: seq<string>, put: string -> string)
    ensures Lines(a + b, put) == Lines(a, put) + Lines(b, put)
  {
    var f := (x: string) => Line(x, put);
    LinesAreMapped(a, f, put);
    LinesAreMapped(b, f, put);
    LinesAreMapped(a + b, f, put);
    MappedConcat(a, b, Lines(a, put), Lines(b, put), Lines(a + b, put), f);
  }

  /** Every line is redacted for itself. */
  lemma LineByLine(a: string, b: string, decide: string -> bool, decode: string -> string)
    ensures RedactPathsInText(a + "\n" + b, decide, decode)
         == RedactPathsInText(a, decide, decode) + "\n" + RedactPathsInText(b, decide, decode)
    ensures RedactAllPaths(a + "\n" + b, decode) == RedactAllPaths(a, decode) + "\n" + RedactAllPaths(b, decode)
    ensures '\n' !in a ==> RedactPathsInText(a, decide, decode) == Line(a, PutShared(decide, decode))
                           && RedactAllPaths(a, decode) == Line(a, PutJobs(decode))
  {
    SplitConcat(a, b, '\n');
    var f, g := PutShared(decide, decode), PutJobs(decode);
    var p, q := Split(a, '\n'), Split(b, '\n');
    LinesConcat(p, q, f);
    LinesConcat(p, q, g);
    JoinAppend(Lines(p, f), Lines(q, f), '\n');
    JoinAppend(Lines(p, g), Lines(q, g), '\n');
    if '\n' !in a {
      SplitFree(a, '\n');
    }
  }
}
