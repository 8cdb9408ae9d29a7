/** The two field rules of script.js: the e-mail pattern
    `/^[^\s@]+@[^\s@]+\.[^\s@]+$/` (used by both forms) and the phone pattern
    `/^[\d\s\-\+\(\)]+$/` (appointment form only). Each is given twice: as a
    pattern in the `Pattern` fragment, which is what the source writes, and
    as a direct rule on the characters of the string, which is what the
    validators run; the lemmas prove the two agree on every string. */
module Rules {
  import opened Text
  import opened Pattern

  /** `[^\s@]`: neither white space nor `@`. */
  predicate IsSegmentChar(c: char) {
    !IsSpace(c) && c != '@'
  }

  /** `[\d\s\-\+\(\)]`. */
  predicate IsPhoneChar(c: char) {
    IsDigit(c) || IsSpace(c) || c == '-' || c == '+' || c == '(' || c == ')'
  }

  function Segment(): Regex {
    Plus(Class(IsSegmentChar))
  }

  /** `[^\s@]+\.[^\s@]+`: what the e-mail pattern demands after the `@`. */
  function DomainPattern(): Regex {
    Concat(Segment(), Concat(Class(c => c == '.'), Segment()))
  }

  /** `^[^\s@]+@[^\s@]+\.[^\s@]+$` */
  function EmailPattern(): Regex {
    Concat(Segment(), Concat(Class(c => c == '@'), DomainPattern()))
  }

  /** `^[\d\s\-\+\(\)]+$` */
  function PhonePattern(): Regex {
    Plus(Class(IsPhoneChar))
  }

  predicate AllSegmentChars(s: string) {
    forall k | 0 <= k < |s| :: IsSegmentChar(s[k])
  }

  /** A `.` that is neither the first nor the last character. */
  predicate HasInnerDot(d: string) {
    exists j | 0 < j < |d| - 1 :: d[j] == '.'
  }

  /** The e-mail rule: no white space, exactly one `@`, something before it,
      and a `.` strictly inside the part after it. The shortest strings it
      accepts, such as "a@b.c", have five characters. */
  predicate EmailRule(s: string)
    ensures EmailRule(s) ==> 5 <= |s| && '@' in s
  {
    && NoSpace(s)
    && Count(s, '@') == 1
    && var at := IndexOf(s, '@');
       at > 0 && HasInnerDot(s[at + 1..])
  }

  /** The phone rule: non-empty, and every character a digit, white space,
      `-`, `+`, `(` or `)`. No digit is required, and no letter is let
      through. */
  predicate PhoneRule(s: string)
    ensures PhoneRule(s) ==> forall k | 0 <= k < |s| :: !('a' <= s[k] <= 'z') && !('A' <= s[k] <= 'Z')
  {
    s != [] && forall k | 0 <= k < |s| :: IsPhoneChar(s[k])
  }

  /** After the `@`, the pattern accepts exactly the strings free of white
      space and `@` that have an inner `.`; the `.` it splits on may be any
      of several, as backtracking allows. */
  lemma DomainPatternIff(d: string)
    ensures Matches(DomainPattern(), d) <==> AllSegmentChars(d) && HasInnerDot(d)
  {
    var dot := Class(c => c == '.');
    var tail := Concat(dot, Segment());
    if Matches(DomainPattern(), d) {
      var k :| 0 <= k <= |d| && Matches(Segment(), d[..k]) && Matches(tail, d[k..]);
      ClassPlusIff(IsSegmentChar, d[..k]);
      ClassThenIff(c => c == '.', Segment(), d[k..]);
      assert d[k..][1..] == d[k + 1..];
      ClassPlusIff(IsSegmentChar, d[k + 1..]);
      forall i | 0 <= i < |d| ensures IsSegmentChar(d[i]) {
        if i < k { assert d[i] == d[..k][i]; }
        else if i > k { assert d[i] == d[k + 1..][i - k - 1]; }
      }
      assert 0 < k < |d| - 1 && d[k] == '.';
    }
    if AllSegmentChars(d) && HasInnerDot(d) {
      var j :| 0 < j < |d| - 1 && d[j] == '.';
      ClassPlusIff(IsSegmentChar, d[..j]);
      ClassPlusIff(IsSegmentChar, d[j + 1..]);
      assert d[j..][1..] == d[j + 1..];
      ClassThenIff(c => c == '.', Segment(), d[j..]);
      assert Matches(Segment(), d[..j]) && Matches(tail, d[j..]);
    }
  }

  /** The whole pattern, split at its `@`. */
  lemma EmailPatternIff(s: string)
    ensures Matches(EmailPattern(), s) <==>
      exists at | 0 < at < |s| ::
        s[at] == '@' && AllSegmentChars(s[..at]) && Matches(DomainPattern(), s[at + 1..])
  {
    var tail := Concat(Class(c => c == '@'), DomainPattern());
    if Matches(EmailPattern(), s) {
      var k :| 0 <= k <= |s| && Matches(Segment(), s[..k]) && Matches(tail, s[k..]);
      ClassPlusIff(IsSegmentChar, s[..k]);
      ClassThenIff(c => c == '@', DomainPattern(), s[k..]);
      assert s[k..][1..] == s[k + 1..];
      assert s[k] == '@' && AllSegmentChars(s[..k]) && Matches(DomainPattern(), s[k + 1..]);
    }
    if exists at | 0 < at < |s| ::
         s[at] == '@' && AllSegmentChars(s[..at]) && Matches(DomainPattern(), s[at + 1..]) {
      var at :| 0 < at < |s| &&
        s[at] == '@' && AllSegmentChars(s[..at]) && Matches(DomainPattern(), s[at + 1..]);
      ClassPlusIff(IsSegmentChar, s[..at]);
      assert s[at..][1..] == s[at + 1..];
      ClassThenIff(c => c == '@', DomainPattern(), s[at..]);
      assert Matches(Segment(), s[..at]) && Matches(tail, s[at..]);
    }
  }

  /** The e-mail rule accepts exactly the strings the e-mail pattern accepts. */
  lemma EmailRuleMatchesPattern(s: string)
    ensures EmailRule(s) <==> Matches(EmailPattern(), s)
  {
    if EmailRule(s) {
      EmailRuleGivesMatch(s);
    }
    if Matches(EmailPattern(), s) {
      MatchGivesEmailRule(s);
    }
  }

  lemma EmailRuleGivesMatch(s: string)
    requires EmailRule(s)
    ensures Matches(EmailPattern(), s)
  {
    var at := IndexOf(s, '@');
    CountOneAfterFirst(s, '@');
    var d := s[at + 1..];
    assert AllSegmentChars(s[..at]) by {
      forall i | 0 <= i < at ensures IsSegmentChar(s[..at][i]) {
        assert s[..at][i] == s[i];
      }
    }
    assert AllSegmentChars(d) by {
      forall i | 0 <= i < |d| ensures IsSegmentChar(d[i]) {
        assert d[i] == s[at + 1 + i];
      }
    }
    DomainPatternIff(d);
    EmailPatternIff(s);
    assert s[at] == '@' && AllSegmentChars(s[..at]) && Matches(DomainPattern(), d);
  }

  lemma MatchGivesEmailRule(s: string)
    requires Matches(EmailPattern(), s)
    ensures EmailRule(s)
  {
    EmailPatternIff(s);
    var at :| 0 < at < |s| &&
      s[at] == '@' && AllSegmentChars(s[..at]) && Matches(DomainPattern(), s[at + 1..]);
    var d := s[at + 1..];
    DomainPatternIff(d);
    assert '@' !in s[..at] by {
      forall i | 0 <= i < at ensures s[..at][i] != '@' { assert IsSegmentChar(s[..at][i]); }
    }
    assert IndexOf(s, '@') == at;
    assert '@' !in d by {
      forall i | 0 <= i < |d| ensures d[i] != '@' { assert IsSegmentChar(d[i]); }
    }
    CountOneAfterFirst(s, '@');
    assert NoSpace(s) by {
      forall i | 0 <= i < |s| ensures !IsSpace(s[i]) {
        if i < at { assert IsSegmentChar(s[..at][i]); }
        else if i > at { assert IsSegmentChar(d[i - at - 1]); }
      }
    }
  }

  /** The phone rule accepts exactly the strings the phone pattern accepts. */
  lemma PhoneRuleMatchesPattern(s: string)
    ensures PhoneRule(s) <==> Matches(PhonePattern(), s)
  {
    ClassPlusIff(IsPhoneChar, s);
  }

  /** Read at its `@`, the rule asks for a non-empty local part and a domain
      with an inner `.`, neither holding white space or another `@`. */
  lemma EmailRuleAt(local: string, domain: string)
    ensures EmailRule(local + "@" + domain) <==>
      local != [] && AllSegmentChars(local) && AllSegmentChars(domain) && HasInnerDot(domain)
  {
    var s := local + "@" + domain;
    var n := |local|;
    assert s[..n] == local && s[n] == '@' && s[n + 1..] == domain;
    EmailRuleMatchesPattern(s);
    EmailPatternIff(s);
    if EmailRule(s) {
      var at :| 0 < at < |s| &&
        s[at] == '@' && AllSegmentChars(s[..at]) && Matches(DomainPattern(), s[at + 1..]);
      DomainPatternIff(s[at + 1..]);
      AtIsUnique(s, at, n);
    }
    if local != [] && AllSegmentChars(local) && AllSegmentChars(domain) && HasInnerDot(domain) {
      DomainPatternIff(domain);
    }
  }

  lemma AtIsUnique(s: string, at: nat, n: nat)
    requires at < |s| && n < |s| && s[n] == '@'
    requires AllSegmentChars(s[..at]) && AllSegmentChars(s[at + 1..])
    ensures at == n
  {
  }

  /** Two sample addresses: one without a dot after the `@` is refused and
      an ordinary one accepted. */
  lemma EmailWithoutDotRefused()
    ensures !EmailRule("foo@bar")
  {
    EmailRuleAt("foo", "bar");
    assert "foo" + "@" + "bar" == "foo@bar";
  }

  lemma EmailPlainAccepted()
    ensures EmailRule("foo@bar.com")
  {
    assert "bar.com"[3] == '.';
    assert HasInnerDot("bar.com");
    assert AllSegmentChars("foo");
    assert AllSegmentChars("bar.com");
    EmailRuleAt("foo", "bar.com");
    assert "foo" + "@" + "bar.com" == "foo@bar.com";
  }

  /** Because the pattern backtracks, the domain may hold several dots. */
  lemma EmailSeveralDots()
    ensures EmailRule("a@b.c.d")
  {
    assert "b.c.d"[1] == '.';
    assert HasInnerDot("b.c.d");
    assert AllSegmentChars("a");
    assert AllSegmentChars("b.c.d");
    EmailRuleAt("a", "b.c.d");
    assert "a" + "@" + "b.c.d" == "a@b.c.d";
  }

  /** A second `@` is refused. */
  lemma EmailTwoAts()
    ensures !EmailRule("a@@b.c")
  {
    assert !AllSegmentChars("@b.c") by { assert !IsSegmentChar("@b.c"[0]); }
    EmailRuleAt("a", "@b.c");
    assert "a" + "@" + "@b.c" == "a@@b.c";
  }

  /** An empty local part, inner white space and a trailing dot are each
      refused. */
  lemma EmailRejections()
    ensures !EmailRule("@b.c") && !EmailRule("a b@c.d") && !EmailRule("a@b.")
  {
    EmailRuleAt("", "b.c");
    assert "" + "@" + "b.c" == "@b.c";
    assert !AllSegmentChars("a b") by { assert !IsSegmentChar("a b"[1]); }
    EmailRuleAt("a b", "c.d");
    assert "a b" + "@" + "c.d" == "a b@c.d";
    assert !HasInnerDot("b.");
    EmailRuleAt("a", "b.");
    assert "a" + "@" + "b." == "a@b.";
  }

  /** The phone rule does not ask for a digit: `()` and a lone `-` pass, the
      empty string does not. */
  lemma PhoneExamples()
    ensures PhoneRule("()") && PhoneRule("-") && PhoneRule("+1 (555) 010-9999")
    ensures !PhoneRule("") && !PhoneRule("555-CALL")
  {
    assert "555-CALL"[4] == 'C';
  }
}
