/** Splitting, joining and reading numbers out of text. */
module Text {
  import opened Common

  function Split(s: string, c: char): (parts: seq<string>)
    ensures |parts| >= 1
  {
    if s == "" then [""]
    else
      var rest := Split(s[1..], c);
      if s[0] == c then [""] + rest else [[s[0]] + rest[0]] + rest[1..]
  }

  function Join(parts: seq<string>, c: char): string {
    if parts == [] then ""
    else if |parts| == 1 then parts[0]
    else parts[0] + [c] + Join(parts[1..], c)
  }

  predicate Free(s: string, c: char) {
    c !in s
  }

  predicate AllFree(parts: seq<string>, c: char) {
    forall i :: 0 <= i < |parts| ==> Free(parts[i], c)
  }

  lemma {:induction false} SplitFree(s: string, c: char)
    requires Free(s, c)
    ensures Split(s, c) == [s]
  {
    if s != "" {
      SplitFree(s[1..], c);
      assert s == [s[0]] + s[1..];
    }
  }

  lemma {:induction false} SplitPieces(s: string, c: char)
    ensures AllFree(Split(s, c), c) && Join(Split(s, c), c) == s
  {
    if s != "" {
      SplitPieces(s[1..], c);
      var rest := Split(s[1..], c);
      assert s == [s[0]] + s[1..];
      if s[0] == c {
        assert Split(s, c)[1..] == rest;
        assert Join(Split(s, c), c) == "" + [c] + Join(rest, c);
      } else {
        var whole := [[s[0]] + rest[0]] + rest[1..];
        assert whole[1..] == rest[1..];
        forall i | 0 <= i < |whole|
          ensures Free(whole[i], c)
        {
          assert i > 0 ==> whole[i] == rest[i];
          assert Free(rest[0], c);
        }
        if |rest| > 1 {
          assert Join(whole, c) == ([s[0]] + rest[0]) + [c] + Join(rest[1..], c);
          assert Join(rest, c) == rest[0] + [c] + Join(rest[1..], c);
        }
      }
    }
  }

  lemma {:induction false} SplitConcat(a: string, b: string, c: char)
    ensures Split(a + [c] + b, c) == Split(a, c) + Split(b, c)
  {
    var whole := a + [c] + b;
    if a == "" {
      assert whole[0] == c && whole[1..] == b;
    } else {
      SplitConcat(a[1..], b, c);
      assert whole[0] == a[0] && whole[1..] == a[1..] + [c] + b;
      HeadPiece(Split(a[1..], c), Split(b, c), a[0], c);
    }
  }

  /** Putting a character in front of the first piece, or an empty piece in front of all of them,
      leaves the later pieces alone. */
  lemma HeadPiece(a: seq<string>, b: seq<string>, x: char, c: char)
    requires a != []
    ensures [""] + (a + b) == ([""] + a) + b
    ensures [[x] + (a + b)[0]] + (a + b)[1..] == ([[x] + a[0]] + a[1..]) + b
  {
    assert (a + b)[1..] == a[1..] + b;
  }

  lemma {:induction false} SplitJoin(parts: seq<string>, c: char)
    requires parts != [] && AllFree(parts, c)
    ensures Split(Join(parts, c), c) == parts
  {
    SplitFree(parts[0], c);
    if |parts| > 1 {
      SplitJoin(parts[1..], c);
      SplitConcat(parts[0], Join(parts[1..], c), c);
    }
  }

  lemma {:induction false} JoinAppend(a: seq<string>, b: seq<string>, c: char)
    requires a != [] && b != []
    ensures Join(a + b, c) == Join(a, c) + [c] + Join(b, c)
  {
    if |a| == 1 {
      assert (a + b)[1..] == b;
    } else {
      assert (a + b)[1..] == a[1..] + b;
      JoinAppend(a[1..], b, c);
    }
  }

  lemma {:induction false} JoinFree(parts: seq<string>, c: char, d: char)
    requires AllFree(parts, d) && c != d
    ensures Free(Join(parts, c), d)
  {
    if |parts| > 1 {
      JoinFree(parts[1..], c, d);
      assert Free(parts[0], d);
    }
  }

  function Last(s: string, c: char): string {
    Split(s, c)[|Split(s, c)| - 1]
  }

  // ---------------------------------------------------------------- characters and numbers

  predicate IsDigit(c: char) {
    '0' <= c <= '9'
  }

  predicate IsHex(c: char) {
    IsDigit(c) || 'a' <= c <= 'f'
  }

  predicate AllDigits(s: string) {
    forall i :: 0 <= i < |s| ==> IsDigit(s[i])
  }

  predicate AllHex(s: string) {
    forall i :: 0 <= i < |s| ==> IsHex(s[i])
  }

  function HexDigit(c: char): (v: nat)
    requires IsHex(c)
    ensures v < 16
  {
    if IsDigit(c) then (c as int) - ('0' as int) else (c as int) - ('a' as int) + 10
  }

  function DecimalValue(s: string): nat
    requires AllDigits(s)
  {
    if s == "" then 0 else 10 * DecimalValue(s[..|s| - 1]) + (s[|s| - 1] as int - '0' as int)
  }

  function HexValue(s: string): nat
    requires AllHex(s)
  {
    if s == "" then 0 else 16 * HexValue(s[..|s| - 1]) + HexDigit(s[|s| - 1])
  }

  function Power(b: nat, e: nat): (p: nat)
    ensures b >= 1 ==> p >= 1
  {
    if e == 0 then 1 else b * Power(b, e - 1)
  }

  lemma {:induction false} HexValueBound(s: string)
    requires AllHex(s)
    ensures HexValue(s) < Power(16, |s|)
  {
    if s != "" {
      HexValueBound(s[..|s| - 1]);
    }
  }

  function HexChar(v: nat): (c: char)
    requires v < 16
    ensures IsHex(c) && HexDigit(c) == v
  {
    if v < 10 then (v + '0' as int) as char else (v - 10 + 'a' as int) as char
  }

  lemma HexAlphabet(v: nat)
    requires v < 16
    ensures HexChar(v) == "0123456789abcdef"[v] && HexDigit("0123456789abcdef"[v]) == v
  {
    var digits := "0123456789abcdef";
    assert forall i :: 0 <= i < 10 ==> digits[i] as int == i + '0' as int;
    assert forall i :: 10 <= i < 16 ==> digits[i] as int == i - 10 + 'a' as int;
  }

  /** `v` in exactly `n` hex digits. */
  function HexText(v: nat, n: nat): (s: string)
    requires v < Power(16, n)
    ensures |s| == n && AllHex(s)
  {
    if n == 0 then "" else HexText(v / 16, n - 1) + [HexChar(v % 16)]
  }

  lemma {:induction false} HexRoundTrip(v: nat, n: nat)
    requires v < Power(16, n)
    ensures HexValue(HexText(v, n)) == v
  {
    if n > 0 {
      var front := HexText(v / 16, n - 1);
      HexRoundTrip(v / 16, n - 1);
      assert (front + [HexChar(v % 16)])[..n - 1] == front;
    }
  }

  function LowerChar(c: char): char {
    if 'A' <= c <= 'Z' then (c as int + 32) as char else c
  }

  function Lower(s: string): (t: string)
    ensures |t| == |s| && forall i :: 0 <= i < |s| ==> t[i] == LowerChar(s[i])
  {
    seq(|s|, i requires 0 <= i < |s| => LowerChar(s[i]))
  }

  predicate IsSpace(c: char) {
    var n := c as int;
    || 9 <= n <= 13 || n == 0x20 || n == 0xA0 || n == 0x1680 || 0x2000 <= n <= 0x200A
    || n == 0x2028 || n == 0x2029 || n == 0x202F || n == 0x205F || n == 0x3000 || n == 0xFEFF
  }

  function TrimLeft(t: string): string {
    if t != "" && IsSpace(t[0]) then TrimLeft(t[1..]) else t
  }

  function TrimRight(t: string): (r: string)
    ensures |r| <= |t| && r == t[..|r|]
  {
    if t != "" && IsSpace(t[|t| - 1]) then TrimRight(t[..|t| - 1]) else t
  }

  function Trim(t: string): string {
    TrimRight(TrimLeft(t))
  }

  predicate SpaceFree(t: string) {
    forall i :: 0 <= i < |t| ==> !IsSpace(t[i])
  }

  lemma TrimKeeps(t: string)
    requires SpaceFree(t)
    ensures Trim(t) == t
  {
  }

  predicate AllSpace(t: string) {
    forall i :: 0 <= i < |t| ==> IsSpace(t[i])
  }

  lemma {:induction false} TrimLeftPast(spaces: string, t: string)
    requires AllSpace(spaces) && (t == "" || !IsSpace(t[0]))
    ensures TrimLeft(spaces + t) == t
  {
    if spaces == "" {
      assert spaces + t == t;
    } else {
      assert (spaces + t)[1..] == spaces[1..] + t && (spaces + t)[0] == spaces[0];
      TrimLeftPast(spaces[1..], t);
    }
  }

  lemma {:induction false} TrimRightPast(t: string, spaces: string)
    requires AllSpace(spaces) && (t == "" || !IsSpace(t[|t| - 1]))
    ensures TrimRight(t + spaces) == t
  {
    var n := |spaces|;
    if n == 0 {
      assert t + spaces == t;
    } else {
      assert (t + spaces)[..|t| + n - 1] == t + spaces[..n - 1];
      TrimRightPast(t, spaces[..n - 1]);
    }
  }

  /** White space around a text is taken off, and none inside it. */
  lemma TrimBetween(before: string, t: string, after: string)
    requires AllSpace(before) && AllSpace(after) && (t == "" || (!IsSpace(t[0]) && !IsSpace(t[|t| - 1])))
    ensures Trim(before + t + after) == t
  {
    if t == "" {
      assert before + t + after == (before + after) + "";
      TrimLeftPast(before + after, "");
    } else {
      assert before + t + after == before + (t + after) && (t + after)[0] == t[0];
      TrimLeftPast(before, t + after);
      TrimRightPast(t, after);
    }
  }

  // ---------------------------------------------------------------- decimal text

  function DigitChar(d: nat): (c: char)
    requires d < 10
    ensures IsDigit(c) && c as int - '0' as int == d
  {
    (d + '0' as int) as char
  }

  function Decimal(n: nat): (s: string)
    ensures s != "" && AllDigits(s)
  {
    if n < 10 then [DigitChar(n)] else Decimal(n / 10) + [DigitChar(n % 10)]
  }

  lemma {:induction false} DecimalRoundTrip(n: nat)
    ensures DecimalValue(Decimal(n)) == n
  {
    var s := Decimal(n);
    if n < 10 {
      assert s[..0] == "";
    } else {
      DecimalRoundTrip(n / 10);
      assert s[..|s| - 1] == Decimal(n / 10);
    }
  }
}
