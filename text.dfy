/** String primitives of JavaScript that the front end relies on:
    `String.prototype.trim`, the regular-expression class `\w`,
    `Array.prototype.join` and `String.prototype.split` on one character. */
module Text {

  /** The characters `trim` removes: WhiteSpace and LineTerminator of
      ECMAScript (ECMA-262, sections 12.2 and 12.3). */
  predicate IsWhitespace(c: char) {
    || c == ' ' || c == '\t' || c == '\n' || c == '\r'
    || c == '\U{000B}' || c == '\U{000C}' || c == '\U{00A0}' || c == '\U{1680}'
    || ('\U{2000}' <= c <= '\U{200A}')
    || c == '\U{2028}' || c == '\U{2029}' || c == '\U{202F}' || c == '\U{205F}'
    || c == '\U{3000}' || c == '\U{FEFF}'
  }

  /** A string whose `trim()` is the empty (falsy) string. */
  predicate IsBlank(s: string) {
    forall i :: 0 <= i < |s| ==> IsWhitespace(s[i])
  }

  /** The regular-expression class `\w`: `[A-Za-z0-9_]`. */
  predicate IsWordChar(c: char) {
    ('a' <= c <= 'z') || ('A' <= c <= 'Z') || ('0' <= c <= '9') || c == '_'
  }

  /** `s` holds the text `w` at position `p`. */
  predicate StartsWithAt(s: string, p: nat, w: string) {
    p + |w| <= |s| && s[p..p + |w|] == w
  }

  /** Holding `a + b` at `p` is holding `a` at `p` and then `b` right after it. */
  lemma StartsWithAtConcat(s: string, p: nat, a: string, b: string)
    ensures StartsWithAt(s, p, a + b) <==> StartsWithAt(s, p, a) && StartsWithAt(s, p + |a|, b)
  {
    if p + |a| + |b| <= |s| {
      var q := p + |a|;
      assert s[p..q + |b|] == s[p..q] + s[q..q + |b|];
      if s[p..q + |b|] == a + b {
        assert s[p..q] == (a + b)[..|a|] == a;
        assert s[q..q + |b|] == (a + b)[|a|..] == b;
      }
    }
  }

  /** Where `s` holds `a + b` at `p`, it holds `b` at `q`, right after `a`. */
  lemma StartsWithAtSplit(s: string, p: nat, a: string, b: string, q: nat)
    requires StartsWithAt(s, p, a + b) && q == p + |a|
    ensures StartsWithAt(s, q, b)
  {
    StartsWithAtConcat(s, p, a, b);
  }

  /** Inside a stretch of `s` that holds `t`, `s` holds `w` exactly where `t` does. */
  lemma StartsWithAtShift(s: string, b: nat, t: string, k: nat, w: string)
    requires StartsWithAt(s, b, t) && b <= k && k + |w| <= b + |t|
    ensures StartsWithAt(s, k, w) <==> StartsWithAt(t, k - b, w)
  {
    forall j | k <= j < k + |w| ensures s[j] == t[j - b] {
      assert s[j] == s[b..b + |t|][j - b];
    }
    assert s[k..k + |w|] == t[k - b..k - b + |w|];
  }

  /** A text that goes on as `a + b` from `p` holds `a` at `p`. */
  lemma StartsWithAtOfSuffix(s: string, p: nat, a: string, b: string)
    requires p <= |s| && s[p..] == a + b
    ensures StartsWithAt(s, p, a)
  {
    assert s[p..p + |a|] == s[p..][..|a|] == (a + b)[..|a|] == a;
  }

  /** `w` occurs somewhere in `s`. */
  ghost predicate Contains(s: string, w: string) {
    exists k: nat :: StartsWithAt(s, k, w)
  }

  /** Number of leading whitespace characters. */
  function LeadingBlanks(s: string): (n: nat)
    ensures n <= |s|
  {
    if |s| == 0 || !IsWhitespace(s[0]) then 0 else 1 + LeadingBlanks(s[1..])
  }

  /** Number of trailing whitespace characters. */
  function TrailingBlanks(s: string): (n: nat)
    ensures n <= |s|
  {
    if |s| == 0 || !IsWhitespace(s[|s| - 1]) then 0 else 1 + TrailingBlanks(s[..|s| - 1])
  }

  /** The leading blanks are whitespace, and what follows them is not. */
  lemma {:induction false} LeadingBlanksAreBlank(s: string)
    ensures IsBlank(s[..LeadingBlanks(s)])
    ensures LeadingBlanks(s) < |s| ==> !IsWhitespace(s[LeadingBlanks(s)])
  {
    if |s| > 0 && IsWhitespace(s[0]) {
      LeadingBlanksAreBlank(s[1..]);
      var n := LeadingBlanks(s[1..]);
      assert s[..n + 1] == [s[0]] + s[1..][..n];
    }
  }

  /** The trailing blanks are whitespace, and what precedes them is not. */
  lemma {:induction false} TrailingBlanksAreBlank(s: string)
    ensures IsBlank(s[|s| - TrailingBlanks(s)..])
    ensures TrailingBlanks(s) < |s| ==> !IsWhitespace(s[|s| - TrailingBlanks(s) - 1])
  {
    if |s| > 0 && IsWhitespace(s[|s| - 1]) {
      var t := s[..|s| - 1];
      TrailingBlanksAreBlank(t);
      var n := TrailingBlanks(t);
      assert s[|s| - (n + 1)..] == t[|t| - n..] + [s[|s| - 1]];
    }
  }

  /** `String.prototype.trim`: `s` without its leading and trailing whitespace. */
  function Trim(s: string): (r: string)
    ensures |r| <= |s|
  {
    var rest := s[LeadingBlanks(s)..];
    rest[..|rest| - TrailingBlanks(rest)]
  }

  /** What `trim` leaves: nothing exactly when the text is all whitespace;
      otherwise a stretch of the text that starts and ends with a
      non-whitespace character and has only whitespace around it. */
  lemma TrimSpec(s: string)
    ensures |Trim(s)| == 0 <==> IsBlank(s)
    ensures |Trim(s)| > 0 ==> !IsWhitespace(Trim(s)[0]) && !IsWhitespace(Trim(s)[|Trim(s)| - 1])
    ensures exists a: nat, b: nat :: a <= b <= |s| && Trim(s) == s[a..b] && IsBlank(s[..a]) && IsBlank(s[b..])
  {
    var a := LeadingBlanks(s);
    var rest := s[a..];
    LeadingBlanksAreBlank(s);
    TrailingBlanksAreBlank(rest);
    var r := Trim(s);
    var b := a + |rest| - TrailingBlanks(rest);
    assert r == rest[..|rest| - TrailingBlanks(rest)];
    assert s[a..b] == r;
    assert s[b..] == rest[|rest| - TrailingBlanks(rest)..];
    if |rest| == 0 {
      assert IsBlank(s) by {
        forall i | 0 <= i < |s| ensures IsWhitespace(s[i]) { assert s[i] == s[..a][i]; }
      }
    } else {
      assert !IsWhitespace(rest[0]);
      assert !IsBlank(s) by { assert s[a] == rest[0]; }
      assert TrailingBlanks(rest) < |rest|;
      assert r[0] == rest[0];
      assert r[|r| - 1] == rest[|rest| - TrailingBlanks(rest) - 1];
    }
  }

  /** A string that `trim` leaves as it is. */
  predicate IsTrimmed(s: string) {
    |s| == 0 || (!IsWhitespace(s[0]) && !IsWhitespace(s[|s| - 1]))
  }

  lemma {:induction false} LeadingBlanksOfPadded(a: string, s: string)
    requires IsBlank(a)
    requires |s| == 0 || !IsWhitespace(s[0])
    ensures LeadingBlanks(a + s) == |a| + LeadingBlanks(s)
    decreases |a|
  {
    if |a| == 0 {
      assert a + s == s;
    } else {
      assert (a + s)[1..] == a[1..] + s;
      LeadingBlanksOfPadded(a[1..], s);
    }
  }

  lemma {:induction false} TrailingBlanksOfPadded(s: string, b: string)
    requires IsBlank(b)
    requires |s| == 0 || !IsWhitespace(s[|s| - 1])
    ensures TrailingBlanks(s + b) == |b| + TrailingBlanks(s)
    decreases |b|
  {
    if |b| == 0 {
      assert s + b == s;
    } else {
      assert (s + b)[..|s + b| - 1] == s + b[..|b| - 1];
      TrailingBlanksOfPadded(s, b[..|b| - 1]);
    }
  }

  /** Trimming a trimmed text wrapped in whitespace gives that text back. */
  lemma TrimOfPadded(a: string, s: string, b: string)
    requires IsBlank(a) && IsBlank(b) && IsTrimmed(s)
    ensures Trim(a + s + b) == s
  {
    var t := a + s + b;
    if |s| == 0 {
      assert t == a + b;
      TrimSpec(t);
      assert IsBlank(t) by {
        forall i | 0 <= i < |t| ensures IsWhitespace(t[i]) {
          if i < |a| { assert t[i] == a[i]; } else { assert t[i] == b[i - |a|]; }
        }
      }
    } else {
      assert t == a + (s + b);
      LeadingBlanksOfPadded(a, s + b);
      assert (s + b)[0] == s[0];
      assert LeadingBlanks(s + b) == 0;
      var rest := t[|a|..];
      assert rest == s + b;
      TrailingBlanksOfPadded(s, b);
      assert TrailingBlanks(s) == 0;
    }
  }

  /** `trim` is idempotent. */
  lemma TrimIdempotent(s: string)
    ensures Trim(Trim(s)) == Trim(s)
  {
    var r := Trim(s);
    TrimSpec(s);
    if |r| > 0 {
      assert r == [] + r + [];
      TrimOfPadded([], r, []);
    }
  }

  /** `Array.prototype.join(sep)`. */
  function Join(parts: seq<string>, sep: string): string
    decreases |parts|
  {
    if |parts| == 0 then ""
    else if |parts| == 1 then parts[0]
    else parts[0] + sep + Join(parts[1..], sep)
  }

  /** `String.prototype.split(sep)` for a one-character separator: the
      pieces between occurrences of `sep`; never empty. */
  function Split(s: string, sep: char): (pieces: seq<string>)
    ensures |pieces| >= 1
    ensures forall i :: 0 <= i < |pieces| ==> sep !in pieces[i]
    ensures Join(pieces, [sep]) == s
    ensures |pieces| == 1 <==> sep !in s
    decreases |s|
  {
    if sep !in s then [s]
    else
      var i := FirstIndexOf(s, sep);
      var tail := Split(s[i + 1..], sep);
      assert s == s[..i] + [sep] + s[i + 1..];
      [s[..i]] + tail
  }

  /** Position of the first occurrence of `c` in `s`. */
  function FirstIndexOf(s: string, c: char): (i: nat)
    requires c in s
    ensures i < |s| && s[i] == c && c !in s[..i]
  {
    if s[0] == c then 0
    else
      assert s == [s[0]] + s[1..];
      var j := FirstIndexOf(s[1..], c);
      assert s[..j + 1] == [s[0]] + s[1..][..j];
      1 + j
  }
}
