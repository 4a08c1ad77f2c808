/**
 * The product-name clean-up of `clean_item_names`: the text of a cell loses
 * every occurrence of the case-insensitive pattern `\(sac\s*\d+\s*kg\)`
 * (ECMAScript `replace` with the `g` and `i` flags and an empty replacement)
 * and is then trimmed.
 */
module ItemNames {
  import opened Wrappers
  import opened Chars

  /** The number of whitespace characters in `s` from index `i` on, up to the first non-space. */
  function SpaceRun(s: string, i: nat): (n: nat)
    requires i <= |s|
    ensures i + n <= |s|
    decreases |s| - i
  {
    if i < |s| && IsJsSpace(s[i]) then 1 + SpaceRun(s, i + 1) else 0
  }

  /** The number of ASCII digits in `s` from index `i` on, up to the first non-digit. */
  function DigitRun(s: string, i: nat): (n: nat)
    requires i <= |s|
    ensures i + n <= |s|
    decreases |s| - i
  {
    if i < |s| && IsAsciiDigit(s[i]) then 1 + DigitRun(s, i + 1) else 0
  }

  /** A whitespace run ended by a non-space (or by the end) is exactly the run `SpaceRun` measures. */
  lemma {:induction false} SpaceRunExact(s: string, i: nat, j: nat)
    requires i <= j <= |s|
    requires forall k :: i <= k < j ==> IsJsSpace(s[k])
    requires j < |s| ==> !IsJsSpace(s[j])
    ensures SpaceRun(s, i) == j - i
    decreases j - i
  {
    if i < j {
      SpaceRunExact(s, i + 1, j);
    }
  }

  /** A digit run ended by a non-digit (or by the end) is exactly the run `DigitRun` measures. */
  lemma {:induction false} DigitRunExact(s: string, i: nat, j: nat)
    requires i <= j <= |s|
    requires forall k :: i <= k < j ==> IsAsciiDigit(s[k])
    requires j < |s| ==> !IsAsciiDigit(s[j])
    ensures DigitRun(s, i) == j - i
    decreases j - i
  {
    if i < j {
      DigitRunExact(s, i + 1, j);
    }
  }

  /** The measured whitespace run is whitespace and is not followed by whitespace. */
  lemma {:induction false} SpaceRunMaximal(s: string, i: nat)
    requires i <= |s|
    ensures forall k :: i <= k < i + SpaceRun(s, i) ==> IsJsSpace(s[k])
    ensures i + SpaceRun(s, i) < |s| ==> !IsJsSpace(s[i + SpaceRun(s, i)])
    decreases |s| - i
  {
    if i < |s| && IsJsSpace(s[i]) {
      SpaceRunMaximal(s, i + 1);
    }
  }

  /** The measured digit run is digits and is not followed by a digit. */
  lemma {:induction false} DigitRunMaximal(s: string, i: nat)
    requires i <= |s|
    ensures forall k :: i <= k < i + DigitRun(s, i) ==> IsAsciiDigit(s[k])
    ensures i + DigitRun(s, i) < |s| ==> !IsAsciiDigit(s[i + DigitRun(s, i)])
    decreases |s| - i
  {
    if i < |s| && IsAsciiDigit(s[i]) {
      DigitRunMaximal(s, i + 1);
    }
  }

  /** `t` is one occurrence of the pattern: `(`, `sac` in any ASCII case, optional
      whitespace, one or more digits, optional whitespace, `kg` in any ASCII case, `)`. */
  predicate IsSacKg(t: string) {
    7 <= |t| && t[0] == '('
    && MatchesIgnoringCase(t[1], 's') && MatchesIgnoringCase(t[2], 'a') && MatchesIgnoringCase(t[3], 'c')
    && MatchesIgnoringCase(t[|t| - 3], 'k') && MatchesIgnoringCase(t[|t| - 2], 'g') && t[|t| - 1] == ')'
    && exists a, b :: 4 <= a < b <= |t| - 3 && SpacesDigitsSpaces(t, a, b)
  }

  /** `t[4..a]` is whitespace, `t[a..b]` digits and `t[b..|t| - 3]` whitespace. */
  predicate SpacesDigitsSpaces(t: string, a: nat, b: nat)
    requires 4 <= a <= b <= |t| - 3
  {
    AllSpace(t[4..a]) && AllDigits(t[a..b]) && AllSpace(t[b..|t| - 3])
  }

  /** The length of the occurrence of the pattern at the start of `s`, if one starts there.
      The three runs are disjoint character classes, so the greedy reading is the only one. */
  function MatchLength(s: string): (r: Option<nat>)
    ensures r.Some? ==> 7 <= r.value <= |s|
  {
    if 4 <= |s| && s[0] == '('
       && MatchesIgnoringCase(s[1], 's') && MatchesIgnoringCase(s[2], 'a') && MatchesIgnoringCase(s[3], 'c')
    then
      var a := 4 + SpaceRun(s, 4);
      var b := a + DigitRun(s, a);
      var c := b + SpaceRun(s, b);
      if a < b && c + 3 <= |s|
         && MatchesIgnoringCase(s[c], 'k') && MatchesIgnoringCase(s[c + 1], 'g') && s[c + 2] == ')'
      then Some(c + 3)
      else None
    else None
  }

  /** What the matcher finds at the start of `s` is an occurrence of the pattern. */
  lemma MatchLengthSound(s: string)
    requires MatchLength(s).Some?
    ensures IsSacKg(s[..MatchLength(s).value])
  {
    var n := MatchLength(s).value;
    var t := s[..n];
    var a := 4 + SpaceRun(s, 4);
    var b := a + DigitRun(s, a);
    SpaceRunMaximal(s, 4);
    DigitRunMaximal(s, a);
    SpaceRunMaximal(s, b);
    assert SpacesDigitsSpaces(t, a, b);
  }

  /** The matcher's result once its three runs are known. */
  lemma MatchLengthOfRuns(s: string, a: nat, b: nat, c: nat)
    requires 4 <= a < b <= c && c + 3 <= |s|
    requires s[0] == '(' && MatchesIgnoringCase(s[1], 's') && MatchesIgnoringCase(s[2], 'a')
      && MatchesIgnoringCase(s[3], 'c')
    requires SpaceRun(s, 4) == a - 4 && DigitRun(s, a) == b - a && SpaceRun(s, b) == c - b
    requires MatchesIgnoringCase(s[c], 'k') && MatchesIgnoringCase(s[c + 1], 'g') && s[c + 2] == ')'
    ensures MatchLength(s) == Some(c + 3)
  {
  }

  /** A whitespace slice ended by a non-space is the run `SpaceRun` measures. */
  lemma SpaceRunOfSlice(s: string, i: nat, j: nat)
    requires i <= j <= |s| && AllSpace(s[i..j]) && (j < |s| ==> !IsJsSpace(s[j]))
    ensures SpaceRun(s, i) == j - i
  {
    forall k | i <= k < j ensures IsJsSpace(s[k]) { assert s[k] == s[i..j][k - i]; }
    SpaceRunExact(s, i, j);
  }

  /** A digit slice ended by a non-digit is the run `DigitRun` measures. */
  lemma DigitRunOfSlice(s: string, i: nat, j: nat)
    requires i <= j <= |s| && AllDigits(s[i..j]) && (j < |s| ==> !IsAsciiDigit(s[j]))
    ensures DigitRun(s, i) == j - i
  {
    forall k | i <= k < j ensures IsAsciiDigit(s[k]) { assert s[k] == s[i..j][k - i]; }
    DigitRunExact(s, i, j);
  }

  /** The matcher's result from the three slices of an occurrence at the start of `s`. */
  lemma MatchLengthOfSlices(s: string, a: nat, b: nat, c: nat)
    requires 4 <= a < b <= c && c + 3 <= |s|
    requires s[0] == '(' && MatchesIgnoringCase(s[1], 's') && MatchesIgnoringCase(s[2], 'a')
      && MatchesIgnoringCase(s[3], 'c')
    requires AllSpace(s[4..a]) && AllDigits(s[a..b]) && AllSpace(s[b..c])
    requires MatchesIgnoringCase(s[c], 'k') && MatchesIgnoringCase(s[c + 1], 'g') && s[c + 2] == ')'
    ensures MatchLength(s) == Some(c + 3)
  {
    assert s[a] == s[a..b][0];
    DigitIsNotSpace(s[a]);
    SpaceRunOfSlice(s, 4, a);
    if b < c {
      assert s[b] == s[b..c][0];
    }
    DigitRunOfSlice(s, a, b);
    SpaceRunOfSlice(s, b, c);
    MatchLengthOfRuns(s, a, b, c);
  }

  /** Every occurrence of the pattern at the start of `s` is what the matcher finds. */
  lemma MatchLengthComplete(s: string, n: nat)
    requires n <= |s| && IsSacKg(s[..n])
    ensures MatchLength(s) == Some(n)
  {
    var t := s[..n];
    var a, b :| 4 <= a < b <= |t| - 3 && SpacesDigitsSpaces(t, a, b);
    var c := n - 3;
    assert t[4..a] == s[4..a] && t[a..b] == s[a..b] && t[b..c] == s[b..c];
    assert s[c] == t[c] && s[c + 1] == t[c + 1] && s[c + 2] == t[c + 2];
    assert s[0] == t[0] && s[1] == t[1] && s[2] == t[2] && s[3] == t[3];
    MatchLengthOfSlices(s, a, b, c);
  }

  /** The matcher agrees with the pattern: it reports length `n` at the start
      of `s` exactly when `s[..n]` is an occurrence. */
  lemma MatchLengthCorrect(s: string, n: nat)
    requires n <= |s|
    ensures MatchLength(s) == Some(n) <==> IsSacKg(s[..n])
  {
    if MatchLength(s) == Some(n) {
      MatchLengthSound(s);
    }
    if IsSacKg(s[..n]) {
      MatchLengthComplete(s, n);
    }
  }

  /** `s.replace(/\(sac\s*\d+\s*kg\)/gi, "")`: one left-to-right pass that deletes
      each occurrence found and resumes after it, keeping every other character. */
  function RemoveSacKg(s: string): (r: string)
    ensures |r| <= |s|
    decreases |s|
  {
    if s == [] then []
    else
      match MatchLength(s)
      case Some(n) => RemoveSacKg(s[n..])
      case None => [s[0]] + RemoveSacKg(s[1..])
  }

  /** The whole update of one product-name cell. */
  function CleanName(s: string): string {
    Trim(RemoveSacKg(s))
  }

  /** A prefix without `(` cannot start an occurrence and passes through unchanged. */
  lemma {:induction false} KeepsParenFreePrefix(p: string, q: string)
    requires '(' !in p
    ensures RemoveSacKg(p + q) == p + RemoveSacKg(q)
  {
    if p != [] {
      var s := p + q;
      assert s[0] == p[0];
      KeepsFirst(s);
      assert s[1..] == p[1..] + q;
      assert '(' !in p[1..];
      KeepsParenFreePrefix(p[1..], q);
      assert p == [p[0]] + p[1..];
    } else {
      assert p + q == q;
    }
  }

  /** An occurrence at the front is deleted whole. */
  lemma DropsLeadingOccurrence(t: string, q: string)
    requires IsSacKg(t)
    ensures RemoveSacKg(t + q) == RemoveSacKg(q)
  {
    assert (t + q)[..|t|] == t;
    MatchLengthComplete(t + q, |t|);
    assert (t + q)[|t|..] == q;
  }

  /** An occurrence holds `(` only as its first character. */
  lemma OpenParenOnlyFirst(t: string, k: nat)
    requires IsSacKg(t) && 0 < k < |t|
    ensures t[k] != '('
  {
    var a, b :| 4 <= a < b <= |t| - 3 && SpacesDigitsSpaces(t, a, b);
    if 4 <= k < a {
      assert t[k] == t[4..a][k - 4];
    } else if a <= k < b {
      assert t[k] == t[a..b][k - a];
    } else if b <= k < |t| - 3 {
      assert t[k] == t[b..|t| - 3][k - b];
    }
  }

  /** An occurrence found at the start of `u + w`, where `w` begins with `(`,
      lies inside `u`: the matcher sees the same occurrence in `u` alone. */
  lemma MatchStaysInPrefix(u: string, w: string)
    requires u != [] && w != [] && w[0] == '('
    ensures MatchLength(u + w) == MatchLength(u)
  {
    var s := u + w;
    if MatchLength(s).Some? {
      var m := MatchLength(s).value;
      MatchLengthSound(s);
      if m > |u| {
        assert s[..m][|u|] == w[0];
        OpenParenOnlyFirst(s[..m], |u|);
      }
      assert s[..m] == u[..m];
      MatchLengthComplete(u, m);
    } else if MatchLength(u).Some? {
      var m := MatchLength(u).value;
      MatchLengthSound(u);
      assert s[..m] == u[..m];
      MatchLengthComplete(s, m);
    }
  }

  /** No occurrence reaches across a `(`: the replace over `u + w`, where `w`
      starts with `(`, is the replace over `u` followed by the replace over `w`. */
  lemma {:induction false} SplitsBeforeParen(u: string, w: string)
    requires w != [] && w[0] == '('
    ensures RemoveSacKg(u + w) == RemoveSacKg(u) + RemoveSacKg(w)
    decreases |u|
  {
    if u == [] {
      assert u + w == w;
    } else if MatchLength(u).Some? {
      var n := MatchLength(u).value;
      SplitsBeforeParen(u[n..], w);
      MatchStaysInPrefix(u, w);
      SkipsOccurrence(u, w, n);
    } else {
      SplitsBeforeParen(u[1..], w);
      MatchStaysInPrefix(u, w);
      KeepsCharacter(u, w);
    }
  }

  /** The replace deletes every occurrence, wherever it stands: with an
      occurrence `t` between `u` and `v`, the result is the results for `u`
      and `v` side by side. Together with `NoOccurrenceUnchanged` this is the
      whole law of the global replace. */
  lemma RemovesEveryOccurrence(u: string, t: string, v: string)
    requires IsSacKg(t)
    ensures RemoveSacKg(u + t + v) == RemoveSacKg(u) + RemoveSacKg(v)
  {
    assert u + t + v == u + (t + v);
    SplitsBeforeParen(u, t + v);
    DropsLeadingOccurrence(t, v);
  }

  /** The step of `SplitsBeforeParen` that deletes an occurrence of length `n` found in `u`. */
  lemma SkipsOccurrence(u: string, w: string, n: nat)
    requires u != [] && MatchLength(u) == Some(n) && MatchLength(u + w) == Some(n)
    requires RemoveSacKg(u[n..] + w) == RemoveSacKg(u[n..]) + RemoveSacKg(w)
    ensures RemoveSacKg(u + w) == RemoveSacKg(u) + RemoveSacKg(w)
  {
    SkipsMatch(u, n);
    SkipsMatchOfJoin(u, w, n);
  }

  lemma SkipsMatchOfJoin(u: string, w: string, n: nat)
    requires u != [] && MatchLength(u) == Some(n) && MatchLength(u + w) == Some(n)
    ensures RemoveSacKg(u + w) == RemoveSacKg(u[n..] + w)
  {
    SkipsMatch(u + w, n);
    assert (u + w)[n..] == u[n..] + w;
  }

  /** The step of `SplitsBeforeParen` that keeps the first character of `u`. */
  lemma KeepsCharacter(u: string, w: string)
    requires u != [] && MatchLength(u).None? && MatchLength(u + w).None?
    requires RemoveSacKg(u[1..] + w) == RemoveSacKg(u[1..]) + RemoveSacKg(w)
    ensures RemoveSacKg(u + w) == RemoveSacKg(u) + RemoveSacKg(w)
  {
    KeepsFirst(u);
    KeepsFirstOfJoin(u, w);
    PrependAssociates([u[0]], RemoveSacKg(u[1..]), RemoveSacKg(w));
  }

  lemma KeepsFirstOfJoin(u: string, w: string)
    requires u != [] && MatchLength(u + w).None?
    ensures RemoveSacKg(u + w) == [u[0]] + RemoveSacKg(u[1..] + w)
  {
    KeepsFirst(u + w);
    assert (u + w)[1..] == u[1..] + w;
  }

  /** A match of length `n` at the front is deleted and the replace resumes after it. */
  lemma SkipsMatch(s: string, n: nat)
    requires s != [] && MatchLength(s) == Some(n)
    ensures RemoveSacKg(s) == RemoveSacKg(s[n..])
  {
  }

  lemma PrependAssociates(a: string, b: string, c: string)
    ensures a + (b + c) == (a + b) + c
  {
  }

  /** A string containing no occurrence anywhere is not changed by the replace. */
  lemma {:induction false} NoOccurrenceUnchanged(s: string)
    requires forall i, j :: 0 <= i <= j <= |s| ==> !IsSacKg(s[i..j])
    ensures RemoveSacKg(s) == s
    decreases |s|
  {
    if s != [] {
      if MatchLength(s).Some? {
        var n := MatchLength(s).value;
        assert !IsSacKg(s[0..n]) && s[0..n] == s[..n];
        MatchLengthSound(s);
        assert false;
      }
      var t := s[1..];
      forall i, j | 0 <= i <= j <= |t| ensures !IsSacKg(t[i..j]) {
        assert t[i..j] == s[i + 1..j + 1];
      }
      NoOccurrenceUnchanged(t);
    }
  }

  /** `(sac 1 kg)` meets the premise of `SinglePass`, so `((sac 1 kg)sac 1 kg)`
      comes out of the replace as `(sac 1 kg)`. */
  lemma SinglePassApplies(t: string)
    requires t == "(sac 1 kg)"
    ensures IsSacKg(t) && '(' !in t[1..]
  {
    assert SpacesDigitsSpaces(t, 5, 6);
  }

  lemma NoMatchAtSecondParen(s: string)
    requires 2 <= |s| && s[1] == '('
    ensures MatchLength(s).None?
  {
  }

  /** A character that cannot start an occurrence is kept. */
  lemma KeepsFirst(s: string)
    requires s != [] && MatchLength(s).None?
    ensures RemoveSacKg(s) == [s[0]] + RemoveSacKg(s[1..])
  {
  }

  /** An occurrence followed by text without `(` leaves only that text. */
  lemma OccurrenceThenPlain(inner: string, rest: string)
    requires IsSacKg(inner) && '(' !in rest
    ensures RemoveSacKg(inner + rest) == rest
  {
    DropsLeadingOccurrence(inner, rest);
    Unchanged(rest);
  }

  /** A `(` followed by another `(` starts no occurrence and is kept. */
  lemma ParenBeforeParenKept(u: string)
    requires u != [] && u[0] == '('
    ensures RemoveSacKg("(" + u) == "(" + RemoveSacKg(u)
  {
  }

  /** The replace is a single pass: in `(` + t + t[1..], such as
      `((sac 1 kg)sac 1 kg)`, deleting the inner occurrence t leaves a new
      occurrence behind, and that one stays. */
  lemma SinglePass(t: string)
    requires IsSacKg(t) && '(' !in t[1..]
    ensures RemoveSacKg("(" + t + t[1..]) == t
    ensures IsSacKg(RemoveSacKg("(" + t + t[1..]))
  {
    var rest := t[1..];
    assert "(" + t + rest == "(" + (t + rest);
    ParenBeforeParenKept(t + rest);
    OccurrenceThenPlain(t, rest);
    assert "(" + rest == t by { assert t == [t[0]] + rest; }
  }

  lemma Occurrence25()
    ensures IsSacKg("(Sac 25 kg)")
  {
    assert SpacesDigitsSpaces("(Sac 25 kg)", 5, 7);
  }

  lemma Occurrence5()
    ensures IsSacKg("(SAC 5KG)")
  {
    assert SpacesDigitsSpaces("(SAC 5KG)", 5, 6);
  }

  /** A name without `(` followed by an occurrence keeps the name and loses the occurrence. */
  lemma SuffixRemoved(name: string, t: string)
    requires '(' !in name && IsSacKg(t)
    ensures RemoveSacKg(name + t) == name
  {
    KeepsParenFreePrefix(name, t);
    assert t == t + "";
    DropsLeadingOccurrence(t, "");
  }

  lemma TrimTrailingSpace()
    ensures Trim("Almonds ") == "Almonds"
  {
  }

  lemma Unchanged(s: string)
    requires '(' !in s
    ensures RemoveSacKg(s) == s
  {
  }

  /** The sample names: the suffix is removed in either spelling, and a name
      without it comes back unchanged. */
  lemma SampleMixedCase()
    ensures CleanName("Almonds (Sac 25 kg)") == "Almonds"
  {
    Occurrence25();
    assert "Almonds (Sac 25 kg)" == "Almonds " + "(Sac 25 kg)";
    SuffixRemoved("Almonds ", "(Sac 25 kg)");
    TrimTrailingSpace();
  }

  lemma SampleUpperCase()
    ensures CleanName("Almonds (SAC 5KG)") == "Almonds"
  {
    Occurrence5();
    assert "Almonds (SAC 5KG)" == "Almonds " + "(SAC 5KG)";
    SuffixRemoved("Almonds ", "(SAC 5KG)");
    TrimTrailingSpace();
  }

  lemma SampleWithoutSuffix(name: string)
    requires name == "Almonds"
    ensures CleanName(name) == name
  {
    Unchanged(name);
    TrimOfTrimmed(name);
  }

  /** The trim runs whether or not anything matched: a name without `(` is
      only trimmed, so one that starts with whitespace always changes. */
  lemma PlainNameTrimmed(name: string)
    requires '(' !in name
    ensures CleanName(name) == Trim(name)
    ensures name != [] && IsJsSpace(name[0]) ==> CleanName(name) != name
  {
    Unchanged(name);
    TrimSpec(name);
  }
}
