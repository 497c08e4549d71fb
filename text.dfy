/** Strings as the contact form sees them: the whitespace class shared by
    `String.prototype.trim` and the regular-expression escape `\s`, trimming,
    and the e-mail pattern `^[^\s@]+@[^\s@]+\.[^\s@]+$`. */
module Text {

  /** ECMAScript WhiteSpace and LineTerminator code points: exactly the set that
      `\s` matches and that `trim` strips from both ends. */
  predicate IsWhitespace(c: char) {
    || c == '\t' || c == '\n' || c == '\U{000B}' || c == '\U{000C}' || c == '\r'
    || c == ' ' || c == '\U{00A0}' || c == '\U{1680}'
    || ('\U{2000}' <= c <= '\U{200A}')
    || c == '\U{2028}' || c == '\U{2029}' || c == '\U{202F}' || c == '\U{205F}'
    || c == '\U{3000}' || c == '\U{FEFF}'
  }

  ghost predicate AllWhitespace(s: string) {
    forall i :: 0 <= i < |s| ==> IsWhitespace(s[i])
  }

  /** `s` with its leading whitespace removed: a suffix of `s` that does not start
      with whitespace, everything cut off being whitespace. */
  function TrimStart(s: string): (r: string)
    ensures |r| <= |s| && r == s[|s| - |r|..]
    ensures forall i :: 0 <= i < |s| - |r| ==> IsWhitespace(s[i])
    ensures r == [] || !IsWhitespace(r[0])
  {
    if s != [] && IsWhitespace(s[0]) then TrimStart(s[1..]) else s
  }

  /** `s` with its trailing whitespace removed: a prefix of `s` that does not end
      with whitespace, everything cut off being whitespace. */
  function TrimEnd(s: string): (r: string)
    ensures |r| <= |s| && r == s[..|r|]
    ensures forall i :: |r| <= i < |s| ==> IsWhitespace(s[i])
    ensures r == [] || !IsWhitespace(r[|r| - 1])
  {
    if s != [] && IsWhitespace(s[|s| - 1]) then TrimEnd(s[..|s| - 1]) else s
  }

  /** `String.prototype.trim`. */
  function Trim(s: string): string {
    TrimEnd(TrimStart(s))
  }

  /** A trimmed field is empty (falsy) exactly when the field held only whitespace. */
  lemma TrimEmptyIff(s: string)
    ensures Trim(s) == [] <==> AllWhitespace(s)
  {
  }

  /** Trimming twice is trimming once. */
  lemma TrimIdempotent(s: string)
    ensures Trim(Trim(s)) == Trim(s)
  {
    var t := TrimStart(s);
    var r := TrimEnd(t);
    if r != [] {
      assert r[0] == t[0];
      assert TrimStart(r) == r;
    }
  }

  /** Trimming leaves a string that contains no whitespace at all unchanged. */
  lemma TrimNoWhitespace(s: string)
    requires forall i :: 0 <= i < |s| ==> !IsWhitespace(s[i])
    ensures Trim(s) == s
  {
    assert TrimStart(s) == s;
    assert TrimEnd(s) == s;
  }

  /** Leading blanks in front of a non-blank start are exactly what TrimStart removes. */
  lemma {:induction false} TrimStartAfterBlanks(pre: string, rest: string)
    requires AllWhitespace(pre)
    requires rest != [] && !IsWhitespace(rest[0])
    ensures TrimStart(pre + rest) == rest
    decreases |pre|
  {
    if pre == [] {
      assert pre + rest == rest;
    } else {
      assert (pre + rest)[0] == pre[0];
      assert (pre + rest)[1..] == pre[1..] + rest;
      TrimStartAfterBlanks(pre[1..], rest);
    }
  }

  /** Trailing blanks after a non-blank end are exactly what TrimEnd removes. */
  lemma {:induction false} TrimEndBeforeBlanks(rest: string, post: string)
    requires AllWhitespace(post)
    requires rest != [] && !IsWhitespace(rest[|rest| - 1])
    ensures TrimEnd(rest + post) == rest
    decreases |post|
  {
    if post == [] {
      assert rest + post == rest;
    } else {
      var s := rest + post;
      assert s[|s| - 1] == post[|post| - 1];
      assert s[..|s| - 1] == rest + post[..|post| - 1];
      TrimEndBeforeBlanks(rest, post[..|post| - 1]);
    }
  }

  /** Trimming strips exactly the blanks around a core that starts and ends
      with a non-whitespace character. */
  lemma TrimAround(pre: string, core: string, post: string)
    requires AllWhitespace(pre) && AllWhitespace(post)
    requires core != [] && !IsWhitespace(core[0]) && !IsWhitespace(core[|core| - 1])
    ensures Trim(pre + core + post) == core
  {
    assert pre + core + post == pre + (core + post);
    TrimStartAfterBlanks(pre, core + post);
    TrimEndBeforeBlanks(core, post);
  }

  /** A character that `[^\s@]` accepts. */
  predicate IsAddressChar(c: char) {
    !IsWhitespace(c) && c != '@'
  }

  /** A string that `[^\s@]+` matches as a whole. */
  predicate IsRun(s: string) {
    |s| > 0 && forall i :: 0 <= i < |s| ==> IsAddressChar(s[i])
  }

  /** The language of `^[^\s@]+@[^\s@]+\.[^\s@]+$`: a local part, "@", a domain,
      ".", a final label, the three parts non-empty runs without whitespace or "@". */
  ghost predicate MatchesEmailPattern(s: string) {
    exists local, domain, tld ::
      IsRun(local) && IsRun(domain) && IsRun(tld) && s == local + "@" + domain + "." + tld
  }

  /** Index of the first "@" in `s`, or `|s|` when there is none. */
  function FirstAt(s: string): (i: nat)
    ensures i <= |s|
    ensures forall k :: 0 <= k < i ==> s[k] != '@'
    ensures i < |s| ==> s[i] == '@'
  {
    if s == [] || s[0] == '@' then 0 else 1 + FirstAt(s[1..])
  }

  /** What may follow the "@": a run with a "." that is neither its first nor its
      last character (the regular expression backtracks to any such dot). */
  predicate IsHostPart(h: string) {
    IsRun(h) && exists j | 0 < j < |h| - 1 :: h[j] == '.'
  }

  /** `isValidEmail`, decided by locating the only possible "@". */
  predicate IsValidEmail(s: string) {
    var at := FirstAt(s);
    at < |s| && IsRun(s[..at]) && IsHostPart(s[at + 1..])
  }

  /** A non-empty slice of a run is a run. */
  lemma RunSlice(h: string, i: nat, j: nat)
    requires IsRun(h) && i < j <= |h|
    ensures IsRun(h[i..j])
  {
    forall k | 0 <= k < j - i ensures IsAddressChar(h[i..j][k]) {
      assert h[i..j][k] == h[i + k];
    }
  }

  /** Every address the decision procedure accepts is in the pattern's language. */
  lemma ValidEmailMatches(s: string)
    requires IsValidEmail(s)
    ensures MatchesEmailPattern(s)
  {
    var at := FirstAt(s);
    var h := s[at + 1..];
    var j :| 0 < j < |h| - 1 && h[j] == '.';
    var local, domain, tld := s[..at], h[..j], h[j + 1..];
    RunSlice(h, 0, j);
    RunSlice(h, j + 1, |h|);
    assert h == domain + [h[j]] + tld;
    assert s == local + [s[at]] + h;
    assert IsRun(local) && IsRun(domain) && IsRun(tld) && s == local + "@" + domain + "." + tld;
  }

  /** Every address in the pattern's language is accepted by the decision procedure. */
  lemma MatchesValidEmail(s: string, local: string, domain: string, tld: string)
    requires IsRun(local) && IsRun(domain) && IsRun(tld)
    requires s == local + "@" + domain + "." + tld
    ensures IsValidEmail(s)
  {
    var n := |local|;
    assert s[n] == '@';
    forall k | 0 <= k < n ensures s[k] != '@' {
      assert s[k] == local[k];
    }
    assert FirstAt(s) == n;
    assert s[..n] == local;
    var h := s[n + 1..];
    assert h == domain + "." + tld;
    assert IsRun(h) by {
      forall i | 0 <= i < |h| ensures IsAddressChar(h[i]) {
        if i < |domain| {
          assert h[i] == domain[i];
        } else if i > |domain| {
          assert h[i] == tld[i - |domain| - 1];
        }
      }
    }
    assert h[|domain|] == '.';
  }

  /** The decision procedure accepts exactly the language of the pattern. */
  lemma ValidEmailIff(s: string)
    ensures IsValidEmail(s) <==> MatchesEmailPattern(s)
  {
    if IsValidEmail(s) {
      ValidEmailMatches(s);
    }
    if MatchesEmailPattern(s) {
      var local, domain, tld :|
        IsRun(local) && IsRun(domain) && IsRun(tld) && s == local + "@" + domain + "." + tld;
      MatchesValidEmail(s, local, domain, tld);
    }
  }

  /** An address that passes contains no whitespace, and its only "@" is the first one. */
  lemma ValidEmailChars(s: string)
    requires IsValidEmail(s)
    ensures forall k :: 0 <= k < |s| ==> !IsWhitespace(s[k]) && (s[k] == '@' ==> k == FirstAt(s))
  {
    var at := FirstAt(s);
    var local, h := s[..at], s[at + 1..];
    assert IsRun(local) && IsRun(h);
    forall k | 0 <= k < |s| ensures !IsWhitespace(s[k]) && (s[k] == '@' ==> k == at) {
      if k < at {
        assert s[k] == local[k] && IsAddressChar(local[k]);
      } else if k > at {
        assert s[k] == h[k - at - 1] && IsAddressChar(h[k - at - 1]);
      } else {
        assert s[k] == '@';
      }
    }
  }

  /** An address that passes contains exactly one "@" and no whitespace, so the
      trimming done before the check never changes it. */
  lemma ValidEmailShape(s: string)
    requires IsValidEmail(s)
    ensures forall k :: 0 <= k < |s| && s[k] == '@' ==> k == FirstAt(s)
    ensures Trim(s) == s
  {
    ValidEmailChars(s);
    TrimNoWhitespace(s);
  }

  /** One dot and several dots after the "@" both pass. */
  lemma EmailExamplesAccepted()
    ensures IsValidEmail("a@b.co")
    ensures IsValidEmail("a@b.c.d")
  {
    assert "a@b.co" == "a" + "@" + "b" + "." + "co";
    MatchesValidEmail("a@b.co", "a", "b", "co");
    assert "a@b.c.d" == "a" + "@" + "b" + "." + "c.d";
    MatchesValidEmail("a@b.c.d", "a", "b", "c.d");
  }

  /** No dot after the "@", no "@" at all, and two "@"s all fail. */
  lemma EmailExamplesRejected()
    ensures !IsValidEmail("a@b")
    ensures !IsValidEmail("a.com")
    ensures !IsValidEmail("a@@b.co")
  {
    var noDot, noAt, twoAts := "a@b", "a.com", "a@@b.co";
    assert FirstAt(noDot) == 1 by {
      assert noDot[0] != '@' && noDot[1] == '@';
    }
    assert !IsHostPart(noDot[2..]) by {
      assert |noDot[2..]| == 1;
    }
    assert FirstAt(noAt) == |noAt| by {
      assert forall k :: 0 <= k < |noAt| ==> noAt[k] != '@';
    }
    assert FirstAt(twoAts) == 1 by {
      assert twoAts[0] != '@' && twoAts[1] == '@';
    }
    assert !IsRun(twoAts[2..]) by {
      assert twoAts[2..][0] == '@';
    }
  }
}
