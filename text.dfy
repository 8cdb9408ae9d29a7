/** Character classes and string helpers that script.js gets from JavaScript
    itself: the `\s` and `\d` regular-expression classes and `String.prototype.trim`. */
module Text {

  /** White space as ECMAScript defines it for both `\s` and `trim`: the
      WhiteSpace production (tab, vertical tab, form feed, space, no-break
      space, byte order mark and every space separator) and the
      LineTerminator production (line feed, carriage return, line and
      paragraph separators). */
  predicate IsSpace(c: char) {
    || c == '\t' || c == '\n' || c == '\U{000B}' || c == '\U{000C}' || c == '\r'
    || c == ' ' || c == '\U{00A0}' || c == '\U{1680}'
    || ('\U{2000}' <= c <= '\U{200A}')
    || c == '\U{2028}' || c == '\U{2029}' || c == '\U{202F}' || c == '\U{205F}'
    || c == '\U{3000}' || c == '\U{FEFF}'
  }

  /** `\d`: the ASCII decimal digits only. */
  predicate IsDigit(c: char) {
    '0' <= c <= '9'
  }

  predicate AllSpace(s: string) {
    forall k | 0 <= k < |s| :: IsSpace(s[k])
  }

  predicate NoSpace(s: string) {
    forall k | 0 <= k < |s| :: !IsSpace(s[k])
  }

  /** A string `trim` leaves alone: empty, or neither end is white space. */
  predicate Unpadded(s: string) {
    s == [] || (!IsSpace(s[0]) && !IsSpace(s[|s| - 1]))
  }

  /** The length of the run of white space at the start of `s`. */
  function LeadingSpaces(s: string): (n: nat)
    ensures n <= |s|
    ensures forall k | 0 <= k < n :: IsSpace(s[k])
    ensures n < |s| ==> !IsSpace(s[n])
  {
    if s == [] || !IsSpace(s[0]) then 0 else 1 + LeadingSpaces(s[1..])
  }

  /** The length of the run of white space at the end of `s`. */
  function TrailingSpaces(s: string): (n: nat)
    ensures n <= |s|
    ensures forall k | |s| - n <= k < |s| :: IsSpace(s[k])
    ensures n < |s| ==> !IsSpace(s[|s| - 1 - n])
  {
    if s == [] || !IsSpace(s[|s| - 1]) then 0 else 1 + TrailingSpaces(s[..|s| - 1])
  }

  /** `String.prototype.trim`: `s` without its leading and trailing white space. */
  function Trim(s: string): (r: string)
    ensures Unpadded(r)
    ensures r == [] <==> AllSpace(s)
    ensures exists lead | 0 <= lead <= |s| - |r| ::
              && s[lead..lead + |r|] == r
              && AllSpace(s[..lead]) && AllSpace(s[lead + |r|..])
  {
    var lead := LeadingSpaces(s);
    var rest := s[lead..];
    var r := rest[..|rest| - TrailingSpaces(rest)];
    assert s[lead..lead + |r|] == r;
    assert s[lead + |r|..] == rest[|r|..];
    assert AllSpace(s[..lead]);
    assert AllSpace(s[lead + |r|..]);
    r
  }

  /** Surrounding a string that `trim` leaves alone with white space on either
      side is undone by `trim`: it removes exactly the padding. */
  lemma {:induction false} TrimRemovesPadding(pre: string, core: string, post: string)
    requires AllSpace(pre) && AllSpace(post) && Unpadded(core)
    ensures Trim(pre + core + post) == core
  {
    var s := pre + core + post;
    if core == [] {
      assert AllSpace(s) by {
        forall k | 0 <= k < |s| ensures IsSpace(s[k]) {
          if k < |pre| { assert s[k] == pre[k]; } else { assert s[k] == post[k - |pre|]; }
        }
      }
    } else {
      LeadingSpacesOfPadded(pre, core + post);
      assert s == pre + (core + post);
      var rest := s[|pre|..];
      assert rest == core + post;
      TrailingSpacesOfPadded(core, post);
    }
  }

  lemma {:induction false} LeadingSpacesOfPadded(pre: string, t: string)
    requires AllSpace(pre) && t != [] && !IsSpace(t[0])
    ensures LeadingSpaces(pre + t) == |pre|
  {
    if pre != [] {
      assert (pre + t)[1..] == pre[1..] + t;
      LeadingSpacesOfPadded(pre[1..], t);
    }
  }

  lemma {:induction false} TrailingSpacesOfPadded(t: string, post: string)
    requires AllSpace(post) && t != [] && !IsSpace(t[|t| - 1])
    ensures TrailingSpaces(t + post) == |post|
  {
    if post != [] {
      assert (t + post)[..|t + post| - 1] == t + post[..|post| - 1];
      TrailingSpacesOfPadded(t, post[..|post| - 1]);
    }
  }

  /** `trim` leaves a string without padding as it is. */
  lemma TrimUnpadded(s: string)
    requires Unpadded(s)
    ensures Trim(s) == s
  {
    TrimRemovesPadding([], s, []);
    assert [] + s + [] == s;
  }

  /** Trimming twice is trimming once. */
  lemma TrimIdempotent(s: string)
    ensures Trim(Trim(s)) == Trim(s)
  {
    TrimUnpadded(Trim(s));
  }

  /** The number of occurrences of `c` in `s`. */
  function Count(s: string, c: char): (n: nat)
    ensures n <= |s|
    ensures n == 0 <==> c !in s
  {
    if s == [] then 0 else (if s[0] == c then 1 else 0) + Count(s[1..], c)
  }

  lemma {:induction false} CountAppend(a: string, b: string, c: char)
    ensures Count(a + b, c) == Count(a, c) + Count(b, c)
  {
    if a == [] {
      assert a + b == b;
    } else {
      assert (a + b)[1..] == a[1..] + b;
      CountAppend(a[1..], b, c);
    }
  }

  /** The index of the first `c` in `s` (`String.prototype.indexOf`, for a
      character that occurs). */
  function IndexOf(s: string, c: char): (i: nat)
    requires c in s
    ensures i < |s| && s[i] == c
    ensures c !in s[..i]
  {
    if s[0] == c then 0 else 1 + IndexOf(s[1..], c)
  }

  /** `c` occurs exactly once in `s` exactly when nothing after its first
      occurrence is another `c`. */
  lemma CountOneAfterFirst(s: string, c: char)
    requires c in s
    ensures Count(s, c) == 1 <==> c !in s[IndexOf(s, c) + 1..]
  {
    var i := IndexOf(s, c);
    assert s == s[..i] + [s[i]] + s[i + 1..];
    CountAppend(s[..i] + [s[i]], s[i + 1..], c);
    CountAppend(s[..i], [s[i]], c);
  }
}
