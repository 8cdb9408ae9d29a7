/** The fragment of JavaScript regular expressions that script.js uses:
    character classes, concatenation and `+`, always anchored by `^…$`, so a
    test succeeds exactly when the WHOLE string is in the pattern's language.
    `Matches` is that language, with every way of splitting the input allowed:
    this is what a backtracking matcher finds. */
module Pattern {

  datatype Regex =
    | Class(accepts: char -> bool)        // one character from a class: `[^\s@]`, `\.`, `@`
    | Concat(first: Regex, second: Regex) // `first` immediately followed by `second`
    | Plus(body: Regex)                   // one or more repetitions of `body`

  /** `s` as a whole is in the language of `r`. */
  ghost predicate Matches(r: Regex, s: string)
    decreases r, |s|
  {
    match r
    case Class(p) => |s| == 1 && p(s[0])
    case Concat(a, b) =>
      exists k | 0 <= k <= |s| :: Matches(a, s[..k]) && Matches(b, s[k..])
    case Plus(a) =>
      exists k | 0 < k <= |s| :: Matches(a, s[..k]) && (k == |s| || Matches(Plus(a), s[k..]))
  }

  /** A repeated class `[…]+` matches exactly the non-empty strings made of
      characters in the class. */
  lemma {:induction false} ClassPlusIff(p: char -> bool, s: string)
    ensures Matches(Plus(Class(p)), s) <==> s != [] && forall k | 0 <= k < |s| :: p(s[k])
    decreases |s|
  {
    var r := Plus(Class(p));
    if s != [] && forall k | 0 <= k < |s| :: p(s[k]) {
      assert Matches(Class(p), s[..1]);
      if |s| > 1 {
        ClassPlusIff(p, s[1..]);
        assert Matches(r, s[1..]);
      }
      assert Matches(Class(p), s[..1]) && (1 == |s| || Matches(r, s[1..]));
    }
    if Matches(r, s) {
      var k :| 0 < k <= |s| && Matches(Class(p), s[..k]) && (k == |s| || Matches(r, s[k..]));
      assert k == 1 && p(s[0]);
      if k < |s| {
        ClassPlusIff(p, s[1..]);
        forall i | 0 <= i < |s| ensures p(s[i]) {
          if i > 0 { assert s[i] == s[1..][i - 1]; }
        }
      }
    }
  }

  /** A pattern that starts with a one-character class matches `s` exactly
      when the first character is in the class and the pattern's rest
      matches the remainder. */
  lemma ClassThenIff(p: char -> bool, rest: Regex, s: string)
    ensures Matches(Concat(Class(p), rest), s) <==> s != [] && p(s[0]) && Matches(rest, s[1..])
  {
    if s != [] && p(s[0]) && Matches(rest, s[1..]) {
      assert Matches(Class(p), s[..1]);
    }
  }
}
