/**
 The whole-word search behind AI mentions (mentionsName in internal/ai/orchestrator.go), over
 bytes with ASCII case.
*/
module Mentions {
  import opened Strings
  import opened Messages

  predicate IsNameChar(c: char) {
    'a' <= c <= 'z' || '0' <= c <= '9' || c == '_'
  }

  /** Small letters, digits and the underscore, by their codes. */
  lemma NameCharCodes(c: char)
    ensures IsNameChar(c) <==> 97 <= c as int <= 122 || 48 <= c as int <= 57 || c as int == 95
  {
  }

  predicate MatchesAt(t: string, n: string, i: nat) {
    i + |n| <= |t| && t[i..i + |n|] == n
  }

  /** strings.Index from a position on. */
  function IndexFrom(t: string, n: string, i: nat): (r: Option<nat>)
    ensures r.Some? ==> i <= r.value && MatchesAt(t, n, r.value)
    ensures r.Some? ==> forall k: nat :: i <= k < r.value ==> !MatchesAt(t, n, k)
    ensures r.None? ==> forall k: nat :: i <= k ==> !MatchesAt(t, n, k)
    decreases |t| - i
  {
    if i + |n| > |t| then None
    else if MatchesAt(t, n, i) then Some(i)
    else IndexFrom(t, n, i + 1)
  }

  predicate LeftOk(t: string, i: nat)
    requires i <= |t|
  {
    i == 0 || !IsNameChar(t[i - 1])
  }

  predicate RightOk(t: string, i: nat)
    requires i <= |t|
  {
    i == |t| || !IsNameChar(t[i])
  }

  /** The name stands at `i` as a whole word. */
  predicate WordAt(t: string, n: string, i: nat) {
    MatchesAt(t, n, i) && LeftOk(t, i) && RightOk(t, i + |n|)
  }

  ghost predicate HasWord(t: string, n: string) {
    exists i: nat :: WordAt(t, n, i)
  }

  /** The search from `i` on: after a match that is no word, it goes on behind the match. */
  predicate Search(t: string, n: string, i: nat)
    requires n != "" && i <= |t|
    decreases |t| - i
  {
    var found := IndexFrom(t, n, i);
    found.Some? && (WordAt(t, n, found.value) || Search(t, n, found.value + |n|))
  }

  function Normal(name: string): string {
    Lower(Trim(name))
  }

  predicate Mentions(text: string, name: string) {
    Normal(name) != "" && Search(Lower(text), Normal(name), 0)
  }

  method MentionsName(text: string, name: string) returns (r: bool)
    ensures r == Mentions(text, name)
  {
    var trimmed := Trim(name);
    if trimmed == "" {
      return false;
    }
    r := SearchLoop(Lower(text), Lower(trimmed));
  }

  lemma SearchUnfolds(t: string, n: string, i: nat)
    requires n != "" && i <= |t|
    ensures var found := IndexFrom(t, n, i);
      if found.None? then !Search(t, n, i)
      else
        && found.value + |n| <= |t|
        && Search(t, n, i) ==
           ((LeftOk(t, found.value) && RightOk(t, found.value + |n|)) || Search(t, n, found.value + |n|))
  {
  }

  method IsBounded(t: string, start: nat, end: nat) returns (r: bool)
    requires start <= end <= |t|
    ensures r == (LeftOk(t, start) && RightOk(t, end))
  {
    var leftOk := start == 0 || !IsNameChar(t[start - 1]);
    var rightOk := end == |t| || !IsNameChar(t[end]);
    return leftOk && rightOk;
  }

  method SearchLoop(lowerText: string, lowerName: string) returns (r: bool)
    requires lowerName != ""
    ensures r == Search(lowerText, lowerName, 0)
  {
    var idx := 0;
    while true
      invariant idx <= |lowerText|
      invariant Search(lowerText, lowerName, 0) == Search(lowerText, lowerName, idx)
      decreases |lowerText| - idx
    {
      SearchUnfolds(lowerText, lowerName, idx);
      var found := IndexFrom(lowerText, lowerName, idx);
      if found.None? {
        return false;
      }
      var start := found.value;
      var end := start + |lowerName|;
      var bounded := IsBounded(lowerText, start, end);
      if bounded {
        return true;
      }
      idx := end;
    }
  }

  lemma {:induction false} SearchIsSound(t: string, n: string, i: nat)
    requires n != "" && i <= |t| && Search(t, n, i)
    ensures HasWord(t, n)
    decreases |t| - i
  {
    var found := IndexFrom(t, n, i).value;
    if !WordAt(t, n, found) {
      SearchIsSound(t, n, found + |n|);
    }
  }

  /** The name can overlap itself so that the second copy begins behind a character that is not part of names. */
  predicate Shadows(n: string) {
    exists d :: 0 < d < |n| && n[d..] == n[..|n| - d] && !IsNameChar(n[d - 1])
  }

  /** Two overlapping matches of which the second is a whole word make the name a shadowing one. */
  lemma OverlapShadows(t: string, n: string, i: nat, s: nat)
    requires MatchesAt(t, n, i) && WordAt(t, n, s) && i < s < i + |n|
    ensures Shadows(n)
  {
    var d := s - i;
    assert n[d - 1] == t[i..i + |n|][d - 1] == t[s - 1];
    assert n[d..] == t[s..i + |n|] by {
      assert t[i..i + |n|][d..] == t[s..i + |n|];
    }
    assert n[..|n| - d] == t[s..i + |n|] by {
      assert t[s..s + |n|][..|n| - d] == t[s..i + |n|];
    }
  }

  /** Jumping past a failed match skips no whole word, unless the name shadows itself. */
  lemma {:induction false} SearchIsComplete(t: string, n: string, i: nat, s: nat)
    requires n != "" && i <= s && WordAt(t, n, s) && !Shadows(n)
    ensures Search(t, n, i)
    decreases |t| - i
  {
    var start := IndexFrom(t, n, i).value;
    if !WordAt(t, n, start) {
      if s < start + |n| {
        OverlapShadows(t, n, start, s);
      }
      SearchIsComplete(t, n, start + |n|, s);
    }
  }

  // ---- Where it fails

  lemma {:induction false} ShiftedMeansConstant(n: string, x: char, k: nat)
    requires k < |n| && n == [x] + n[..|n| - 1]
    ensures n[k] == x
  {
    if k > 0 {
      ShiftedMeansConstant(n, x, k - 1);
      assert ([x] + n[..|n| - 1])[k] == n[..|n| - 1][k - 1];
    }
  }

  /** A text in which a shadowing name stands as a whole word and is not found. */
  function Blind(n: string, d: nat): string
    requires d <= |n|
  {
    "x" + n[..d] + n
  }

  lemma BlindHasWord(n: string, d: nat)
    requires 0 < d < |n| && !IsNameChar(n[d - 1])
    ensures WordAt(Blind(n, d), n, d + 1)
  {
    var t := Blind(n, d);
    assert t[d + 1..d + 1 + |n|] == n;
    assert t[d] == n[d - 1];
  }

  lemma BlindMatchesAtOne(n: string, d: nat)
    requires 0 < d < |n| && n[d..] == n[..|n| - d] && !IsNameChar(n[d - 1])
    ensures MatchesAt(Blind(n, d), n, 1) && !MatchesAt(Blind(n, d), n, 0)
  {
    var t := Blind(n, d);
    var rest := n[..d] + n;
    assert t == "x" + rest && n == n[..d] + n[d..];
    assert rest[..|n|] == n[..d] + n[..|n| - d];
    assert t[1..1 + |n|] == rest[..|n|];
    if MatchesAt(t, n, 0) {
      assert t[..|n|] == [t[0]] + t[1..1 + |n|][..|n| - 1];
      ShiftedMeansConstant(n, 'x', d - 1);
    }
  }

  lemma BlindIsNotFound(n: string, d: nat)
    requires 0 < d < |n| && n[d..] == n[..|n| - d] && !IsNameChar(n[d - 1])
    ensures !Search(Blind(n, d), n, 0)
  {
    var t := Blind(n, d);
    BlindMatchesAtOne(n, d);
    assert IndexFrom(t, n, 0) == Some(1);
    assert !LeftOk(t, 1);
    assert IndexFrom(t, n, 1 + |n|).None?;
  }

  lemma LowerBlind(n: string, d: nat)
    requires d <= |n| && Lower(n) == n
    ensures Lower(Blind(n, d)) == Blind(n, d)
  {
    var t := Blind(n, d);
    forall i | 0 <= i < |t| ensures LowerChar(t[i]) == t[i] {
      if 0 < i <= d {
        assert t[i] == n[i - 1] == Lower(n)[i - 1];
      } else if i > d {
        assert t[i] == n[i - d - 1] == Lower(n)[i - d - 1];
      }
    }
  }

  /**
   The search answers right on every text exactly when the name, trimmed and lowered, does not
   shadow itself.
  */
  lemma SearchIsRightIff(name: string)
    ensures (forall text :: Mentions(text, name) <==> Normal(name) != "" && HasWord(Lower(text), Normal(name)))
            <==> !Shadows(Normal(name))
  {
    var n := Normal(name);
    if !Shadows(n) {
      forall text ensures Mentions(text, name) <==> n != "" && HasWord(Lower(text), n) {
        var t := Lower(text);
        if n != "" && Search(t, n, 0) {
          SearchIsSound(t, n, 0);
        }
        if n != "" && HasWord(t, n) {
          var s: nat :| WordAt(t, n, s);
          SearchIsComplete(t, n, 0, s);
        }
      }
    } else {
      var d :| 0 < d < |n| && n[d..] == n[..|n| - d] && !IsNameChar(n[d - 1]);
      LowerIsIdempotent(Trim(name));
      LowerBlind(n, d);
      BlindHasWord(n, d);
      BlindIsNotFound(n, d);
      var text := Blind(n, d);
      assert !(Mentions(text, name) <==> n != "" && HasWord(Lower(text), n));
    }
  }

  /** One-word names are always searched right. */
  lemma NameCharsDoNotShadow(name: string)
    requires forall c :: c in Normal(name) ==> IsNameChar(c)
    ensures forall text :: Mentions(text, name) <==> Normal(name) != "" && HasWord(Lower(text), Normal(name))
  {
    SearchIsRightIff(name);
  }

  // ---- Case and spelling

  lemma TrimKeepsCase(s: string, t: string)
    requires SameButCase(s, t)
    ensures SameButCase(Trim(s), Trim(t))
  {
    TrimLeftKeepsCase(s, t);
    TrimRightKeepsCase(TrimLeft(s), TrimLeft(t));
  }

  lemma {:induction false} TrimLeftKeepsCase(s: string, t: string)
    requires SameButCase(s, t)
    ensures SameButCase(TrimLeft(s), TrimLeft(t))
  {
    if s != [] {
      assert SameLetter(s[0], t[0]);
      TrimLeftKeepsCase(s[1..], t[1..]);
    }
  }

  lemma {:induction false} TrimRightKeepsCase(s: string, t: string)
    requires SameButCase(s, t)
    ensures SameButCase(TrimRight(s), TrimRight(t))
  {
    if s != [] {
      var n := |s| - 1;
      assert SameLetter(s[n], t[n]);
      TrimRightKeepsCase(s[..n], t[..n]);
    }
  }

  /** The case of letters, in the text or in the name, makes no difference. */
  lemma CaseDoesNotMatter(text: string, other: string, name: string, alias: string)
    requires SameButCase(text, other) && SameButCase(name, alias)
    ensures Mentions(text, name) == Mentions(other, alias)
  {
    LowerMeaning(text, other);
    TrimKeepsCase(name, alias);
    LowerMeaning(Trim(name), Trim(alias));
  }
}
