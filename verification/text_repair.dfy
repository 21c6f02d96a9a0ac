/**
  `fix_xml_issues`: a three-step repair of assembled XMLTV text for players that
  choke on it.

    1. every doubly escaped ampersand `&amp;amp;` becomes `&amp;` (one pass of
       `str.replace`, left to right, matches not overlapping);
    2. every `</programme>` followed by whitespace (possibly none) and then
       `<programme` gets exactly one newline between the two tags (`re.sub`);
    3. every character outside printable ASCII, newline, carriage return and tab
       is deleted (`re.sub` with an empty replacement).
*/
module TextRepair {
  import opened Chars

  // ---------------------------------------------------------------------------
  // Subsequences
  // ---------------------------------------------------------------------------

  /** `a` is `b` with some characters deleted (decided greedily). */
  predicate IsSubsequence(a: string, b: string)
    decreases |a| + |b|
  {
    if |a| == 0 then true
    else if |b| == 0 then false
    else if a[0] == b[0] then IsSubsequence(a[1..], b[1..])
    else IsSubsequence(a, b[1..])
  }

  lemma {:induction false} SubsequenceDropHead(a: string, b: string)
    requires |a| > 0 && IsSubsequence(a, b)
    ensures IsSubsequence(a[1..], b)
    decreases |a| + |b|, 0
  {
    if a[0] == b[0] {
      SubsequenceSkip(b[0], a[1..], b[1..]);
      assert [b[0]] + b[1..] == b;
    } else {
      SubsequenceDropHead(a, b[1..]);
      SubsequenceSkip(b[0], a[1..], b[1..]);
      assert [b[0]] + b[1..] == b;
    }
  }

  lemma {:induction false} SubsequenceSkip(c: char, a: string, b: string)
    requires IsSubsequence(a, b)
    ensures IsSubsequence(a, [c] + b)
    decreases |a| + |b|, 1
  {
    assert ([c] + b)[1..] == b;
    if |a| > 0 && a[0] == c {
      SubsequenceDropHead(a, b);
    }
  }

  lemma {:induction false} SubsequenceSkipPrefix(x: string, a: string, b: string)
    requires IsSubsequence(a, b)
    ensures IsSubsequence(a, x + b)
    decreases |x|
  {
    if |x| > 0 {
      SubsequenceSkipPrefix(x[1..], a, b);
      SubsequenceSkip(x[0], a, x[1..] + b);
      assert [x[0]] + (x[1..] + b) == x + b;
    } else {
      assert x + b == b;
    }
  }

  lemma {:induction false} SubsequenceRefl(a: string)
    ensures IsSubsequence(a, a)
    decreases |a|
  {
    if |a| > 0 {
      SubsequenceRefl(a[1..]);
    }
  }

  lemma {:induction false} SubsequenceConcat(a1: string, a2: string, b1: string, b2: string)
    requires IsSubsequence(a1, b1) && IsSubsequence(a2, b2)
    ensures IsSubsequence(a1 + a2, b1 + b2)
    decreases |a1| + |b1|
  {
    if |a1| == 0 {
      SubsequenceSkipPrefix(b1, a2, b2);
      assert a1 + a2 == a2;
    } else {
      assert (a1 + a2)[0] == a1[0] && (b1 + b2)[0] == b1[0];
      assert (b1 + b2)[1..] == b1[1..] + b2;
      if a1[0] == b1[0] {
        SubsequenceConcat(a1[1..], a2, b1[1..], b2);
        assert (a1 + a2)[1..] == a1[1..] + a2;
      } else {
        SubsequenceConcat(a1, a2, b1[1..], b2);
      }
    }
  }

  lemma {:induction false} NotContainedWhenLonger(s: string, p: string)
    requires |p| > |s|
    ensures !Contains(s, p)
    decreases |s|
  {
    if |s| > 0 {
      NotContainedWhenLonger(s[1..], p);
    }
  }

  // ---------------------------------------------------------------------------
  // Step 1: collapse doubly escaped ampersands
  // ---------------------------------------------------------------------------

  /** Python's `s.replace(pat, rep)`: one left-to-right pass, matches not overlapping. */
  function ReplaceAll(s: string, pat: string, rep: string): string
    requires |pat| > 0
    decreases |s|
  {
    if |s| == 0 then ""
    else if pat <= s then rep + ReplaceAll(s[|pat|..], pat, rep)
    else [s[0]] + ReplaceAll(s[1..], pat, rep)
  }

  const DoubleEscapedAmp: string := "&amp;amp;"
  const EscapedAmp: string := "&amp;"

  function CollapseAmpersands(s: string): string {
    ReplaceAll(s, DoubleEscapedAmp, EscapedAmp)
  }

  /** A text without the pattern passes through `replace` unchanged. */
  lemma {:induction false} ReplaceAllAbsent(s: string, pat: string, rep: string)
    requires |pat| > 0 && !Contains(s, pat)
    ensures ReplaceAll(s, pat, rep) == s
    decreases |s|
  {
    if |s| > 0 {
      ReplaceAllAbsent(s[1..], pat, rep);
      assert [s[0]] + s[1..] == s;
    }
  }

  /** Text in which the pattern starts nowhere is copied as it is, and the pass goes on after it. */
  lemma {:induction false} ReplaceAllSkipsHead(head: string, rest: string, pat: string, rep: string)
    requires |pat| > 0
    requires forall i :: 0 <= i < |head| ==> !(pat <= (head + rest)[i..])
    ensures ReplaceAll(head + rest, pat, rep) == head + ReplaceAll(rest, pat, rep)
    decreases |head|
  {
    if |head| > 0 {
      var s := head + rest;
      assert s[0..] == s;
      assert !(pat <= s);
      assert s[1..] == head[1..] + rest;
      forall i | 0 <= i < |head[1..]| ensures !(pat <= (head[1..] + rest)[i..]) {
        assert (head[1..] + rest)[i..] == s[i + 1..];
      }
      ReplaceAllSkipsHead(head[1..], rest, pat, rep);
      assert [head[0]] + head[1..] == head;
    } else {
      assert head + rest == rest;
    }
  }

  /** An occurrence of the pattern at the scan position is replaced, and the pass goes on after it. */
  lemma ReplaceAllAtPattern(t: string, pat: string, rep: string)
    requires |pat| > 0
    ensures ReplaceAll(pat + t, pat, rep) == rep + ReplaceAll(t, pat, rep)
  {
    assert pat <= pat + t;
    assert (pat + t)[|pat|..] == t;
  }

  /** When the replacement is a subsequence of the pattern, `replace` only deletes. */
  lemma {:induction false} ReplaceAllDeletes(s: string, pat: string, rep: string)
    requires |pat| > 0 && IsSubsequence(rep, pat)
    ensures IsSubsequence(ReplaceAll(s, pat, rep), s)
    decreases |s|
  {
    if |s| == 0 {
    } else if pat <= s {
      ReplaceAllDeletes(s[|pat|..], pat, rep);
      SubsequenceConcat(rep, ReplaceAll(s[|pat|..], pat, rep), pat, s[|pat|..]);
      assert pat + s[|pat|..] == s;
    } else {
      ReplaceAllDeletes(s[1..], pat, rep);
      SubsequenceConcat([s[0]], ReplaceAll(s[1..], pat, rep), [s[0]], s[1..]);
      SubsequenceRefl([s[0]]);
      assert [s[0]] + s[1..] == s;
    }
  }

  /** Collapsing ampersands deletes characters and adds none. */
  lemma CollapseAmpersandsDeletes(s: string)
    ensures IsSubsequence(CollapseAmpersands(s), s)
  {
    SubsequenceRefl(EscapedAmp);
    SubsequenceSkipPrefix("amp;", [], []);
    SubsequenceConcat(EscapedAmp, [], EscapedAmp, "amp;");
    assert EscapedAmp + "amp;" == DoubleEscapedAmp;
    assert EscapedAmp + [] == EscapedAmp;
    ReplaceAllDeletes(s, DoubleEscapedAmp, EscapedAmp);
  }

  /** One pass only: a triply escaped ampersand comes out doubly escaped. */
  lemma CollapseIsSinglePass()
    ensures CollapseAmpersands("&amp;amp;amp;") == DoubleEscapedAmp
  {
    var s := "&amp;amp;amp;";
    assert DoubleEscapedAmp <= s;
    assert s[|DoubleEscapedAmp|..] == "amp;";
    NotContainedWhenLonger("amp;", DoubleEscapedAmp);
    ReplaceAllAbsent("amp;", DoubleEscapedAmp, EscapedAmp);
  }

  // ---------------------------------------------------------------------------
  // Step 2: one newline between adjacent programme elements
  // ---------------------------------------------------------------------------

  const CloseTag: string := "</programme>"
  const OpenTag: string := "<programme"
  const Separator: string := "</programme>\n<programme"

  /**
    Where `</programme>\s*<programme` matches at the start of `s`, the length of
    the match. The greedy `\s*` never needs to give characters back: `<` is not
    whitespace.
  */
  function SeparatorMatch(s: string): (n: nat)
    ensures n == 0 || (|CloseTag| + |OpenTag| <= n <= |s| && CloseTag <= s)
  {
    if CloseTag <= s then
      var ws := SpaceRun(s[|CloseTag|..]);
      if OpenTag <= s[|CloseTag| + ws..] then |CloseTag| + ws + |OpenTag| else 0
    else 0
  }

  /** `re.sub(r'</programme>\s*<programme', '</programme>\n<programme', s)` */
  function SeparateProgrammes(s: string): string
    decreases |s|
  {
    if |s| == 0 then ""
    else
      var n := SeparatorMatch(s);
      if n > 0 then Separator + SeparateProgrammes(s[n..])
      else [s[0]] + SeparateProgrammes(s[1..])
  }

  /** The characters of `s` that are not whitespace, in order. */
  function NonSpace(s: string): (r: string)
    decreases |s|
  {
    if |s| == 0 then "" else (if IsSpace(s[0]) then "" else [s[0]]) + NonSpace(s[1..])
  }

  lemma {:induction false} NonSpaceConcat(a: string, b: string)
    ensures NonSpace(a + b) == NonSpace(a) + NonSpace(b)
    decreases |a|
  {
    if |a| > 0 {
      NonSpaceConcat(a[1..], b);
      assert (a + b)[1..] == a[1..] + b;
    } else {
      assert a + b == b;
    }
  }

  lemma {:induction false} NonSpaceOfSpaces(s: string)
    requires forall k :: 0 <= k < |s| ==> IsSpace(s[k])
    ensures NonSpace(s) == ""
    decreases |s|
  {
    if |s| > 0 {
      NonSpaceOfSpaces(s[1..]);
    }
  }

  lemma {:induction false} NonSpaceOfNoSpaces(s: string)
    requires forall k :: 0 <= k < |s| ==> !IsSpace(s[k])
    ensures NonSpace(s) == s
    decreases |s|
  {
    if |s| > 0 {
      NonSpaceOfNoSpaces(s[1..]);
      assert [s[0]] + s[1..] == s;
    }
  }

  /** The tags hold no whitespace. */
  lemma TagsNonSpace()
    ensures NonSpace(CloseTag) == CloseTag && NonSpace(OpenTag) == OpenTag
  {
    assert forall k :: 0 <= k < |CloseTag| ==> !IsSpace(CloseTag[k]);
    assert forall k :: 0 <= k < |OpenTag| ==> !IsSpace(OpenTag[k]);
    NonSpaceOfNoSpaces(CloseTag);
    NonSpaceOfNoSpaces(OpenTag);
  }

  /** Without its whitespace, a matched separator is the two tags. */
  lemma {:induction false} NonSpaceOfMatch(s: string)
    requires SeparatorMatch(s) > 0
    ensures NonSpace(s) == CloseTag + OpenTag + NonSpace(s[SeparatorMatch(s)..])
  {
    var n := SeparatorMatch(s);
    var ws := SpaceRun(s[|CloseTag|..]);
    var spaces := s[|CloseTag|..|CloseTag| + ws];
    var rest := s[n..];
    assert s == CloseTag + spaces + OpenTag + rest by {
      assert s[..|CloseTag|] == CloseTag;
      assert s[|CloseTag| + ws..n] == OpenTag;
      assert s == s[..|CloseTag|] + s[|CloseTag|..|CloseTag| + ws] + s[|CloseTag| + ws..n] + s[n..];
    }
    assert forall k :: 0 <= k < |spaces| ==> spaces[k] == s[|CloseTag|..][k];
    NonSpaceOfSpaces(spaces);
    TagsNonSpace();
    NonSpaceConcat(CloseTag + spaces + OpenTag, rest);
    NonSpaceConcat(CloseTag + spaces, OpenTag);
    NonSpaceConcat(CloseTag, spaces);
    assert CloseTag + "" == CloseTag;
  }

  lemma {:induction false} NonSpaceAroundNewline(a: string, b: string, t: string)
    requires NonSpace(a) == a && NonSpace(b) == b
    ensures NonSpace(a + "\n" + b + t) == a + b + NonSpace(t)
  {
    assert NonSpace("\n") == "";
    NonSpaceConcat(a + "\n" + b, t);
    NonSpaceConcat(a + "\n", b);
    NonSpaceConcat(a, "\n");
    assert a + "" == a;
  }

  /** Without its whitespace, the written separator is the two tags. */
  lemma NonSpaceOfSeparator(t: string)
    ensures NonSpace(Separator + t) == CloseTag + OpenTag + NonSpace(t)
  {
    assert Separator == CloseTag + "\n" + OpenTag;
    TagsNonSpace();
    NonSpaceAroundNewline(CloseTag, OpenTag, t);
  }

  /** The separator rewrite changes whitespace only: the other characters stay, in order. */
  lemma {:induction false} SeparatePreservesNonSpace(s: string)
    ensures NonSpace(SeparateProgrammes(s)) == NonSpace(s)
    decreases |s|
  {
    if |s| == 0 {
      return;
    }
    var n := SeparatorMatch(s);
    if n > 0 {
      SeparatePreservesNonSpace(s[n..]);
      NonSpaceOfMatch(s);
      NonSpaceOfSeparator(SeparateProgrammes(s[n..]));
    } else {
      SeparatePreservesNonSpace(s[1..]);
      NonSpaceConcat([s[0]], SeparateProgrammes(s[1..]));
      NonSpaceConcat([s[0]], s[1..]);
      assert [s[0]] + s[1..] == s;
    }
  }

  /**
    Adjacent programme elements, with any run of whitespace (or none) between
    them, come out with exactly one newline between the tags, and the rewrite
    goes on after the opening tag.
  */
  lemma SeparateAdjacent(w: string, t: string)
    requires forall k :: 0 <= k < |w| ==> IsSpace(w[k])
    ensures SeparateProgrammes(CloseTag + w + OpenTag + t) == Separator + SeparateProgrammes(t)
  {
    var s := CloseTag + w + OpenTag + t;
    assert CloseTag <= s;
    assert s[|CloseTag|..] == w + (OpenTag + t);
    SpaceRunOfPadded(w, OpenTag + t);
    assert s[|CloseTag| + |w|..] == OpenTag + t;
    assert SeparatorMatch(s) == |CloseTag| + |w| + |OpenTag|;
    assert s[|CloseTag| + |w| + |OpenTag|..] == t;
  }

  /** Text in which no separator match starts is copied as it is, and the rewrite goes on after it. */
  lemma {:induction false} SeparateSkipsHead(head: string, rest: string)
    requires forall i :: 0 <= i < |head| ==> SeparatorMatch((head + rest)[i..]) == 0
    ensures SeparateProgrammes(head + rest) == head + SeparateProgrammes(rest)
    decreases |head|
  {
    if |head| > 0 {
      var s := head + rest;
      assert s[0..] == s;
      assert s[1..] == head[1..] + rest;
      forall i | 0 <= i < |head[1..]| ensures SeparatorMatch((head[1..] + rest)[i..]) == 0 {
        assert (head[1..] + rest)[i..] == s[i + 1..];
      }
      SeparateSkipsHead(head[1..], rest);
      SeparateCopiesChar(s);
      assert [head[0]] + (head[1..] + SeparateProgrammes(rest)) == head + SeparateProgrammes(rest);
    } else {
      assert head + rest == rest;
    }
  }

  lemma SeparateCopiesChar(s: string)
    requires |s| > 0 && SeparatorMatch(s) == 0
    ensures SeparateProgrammes(s) == [s[0]] + SeparateProgrammes(s[1..])
  {
  }

  /** A pair of adjacent programme tags after other text is rewritten as well. */
  lemma SeparateAfterText()
    ensures SeparateProgrammes("x" + CloseTag + " " + OpenTag) == "x" + Separator
  {
    var rest := CloseTag + " " + OpenTag;
    assert ("x" + rest)[0..] == "x" + rest;
    assert ("x" + rest)[0] != CloseTag[0];
    SeparateSkipsHead("x", rest);
    assert rest == CloseTag + " " + OpenTag + "";
    SeparateAdjacent(" ", "");
    assert "x" + CloseTag + " " + OpenTag == "x" + rest;
    assert SeparateProgrammes(rest) == Separator + "";
  }

  /** A text without any `</programme>` passes through unchanged. */
  lemma {:induction false} SeparateWithoutCloseTag(s: string)
    requires !Contains(s, CloseTag)
    ensures SeparateProgrammes(s) == s
    decreases |s|
  {
    if |s| > 0 {
      SeparateWithoutCloseTag(s[1..]);
      assert [s[0]] + s[1..] == s;
    }
  }

  // ---------------------------------------------------------------------------
  // Step 3: delete characters outside the safe alphabet
  // ---------------------------------------------------------------------------

  /** The characters `[\x20-\x7E\n\r\t]` the last step keeps. */
  predicate Allowed(c: char) {
    (' ' <= c <= '~') || c == '\n' || c == '\r' || c == '\t'
  }

  /** `re.sub(r'[^\x20-\x7E\n\r\t]', '', s)` */
  function StripDisallowed(s: string): (r: string)
    ensures forall i :: 0 <= i < |r| ==> Allowed(r[i])
    ensures |r| <= |s|
    decreases |s|
  {
    if |s| == 0 then ""
    else (if Allowed(s[0]) then [s[0]] else "") + StripDisallowed(s[1..])
  }

  /** The last step only deletes. */
  lemma {:induction false} StripDisallowedDeletes(s: string)
    ensures IsSubsequence(StripDisallowed(s), s)
    decreases |s|
  {
    if |s| > 0 {
      StripDisallowedDeletes(s[1..]);
      var rest := StripDisallowed(s[1..]);
      assert [s[0]] + s[1..] == s;
      if Allowed(s[0]) {
        assert ([s[0]] + rest)[1..] == rest;
      } else {
        assert "" + rest == rest;
        SubsequenceSkip(s[0], rest, s[1..]);
      }
    }
  }

  /** ...and it deletes exactly the disallowed characters: each allowed one keeps its count. */
  lemma {:induction false} StripDisallowedCounts(s: string)
    ensures forall c :: Allowed(c) ==> multiset(StripDisallowed(s))[c] == multiset(s)[c]
    ensures forall c :: !Allowed(c) ==> multiset(StripDisallowed(s))[c] == 0
    decreases |s|
  {
    if |s| > 0 {
      StripDisallowedCounts(s[1..]);
      assert s == [s[0]] + s[1..];
      assert multiset(s) == multiset([s[0]]) + multiset(s[1..]);
      var head: string := if Allowed(s[0]) then [s[0]] else "";
      assert multiset(StripDisallowed(s)) == multiset(head) + multiset(StripDisallowed(s[1..]));
    }
  }

  /** A text already within the alphabet passes through unchanged. */
  lemma {:induction false} StripDisallowedKeepsClean(s: string)
    requires forall i :: 0 <= i < |s| ==> Allowed(s[i])
    ensures StripDisallowed(s) == s
    decreases |s|
  {
    if |s| > 0 {
      StripDisallowedKeepsClean(s[1..]);
      assert [s[0]] + s[1..] == s;
    }
  }

  // ---------------------------------------------------------------------------
  // The whole repair
  // ---------------------------------------------------------------------------

  /** `fix_xml_issues` */
  function FixXmlIssues(s: string): (r: string)
    ensures forall i :: 0 <= i < |r| ==> Allowed(r[i])
  {
    StripDisallowed(SeparateProgrammes(CollapseAmpersands(s)))
  }

  /** The repair's last step only deletes: its result is a subsequence of what step 2 produced. */
  lemma FixXmlIssuesLastStepDeletes(s: string)
    ensures IsSubsequence(FixXmlIssues(s), SeparateProgrammes(CollapseAmpersands(s)))
  {
    StripDisallowedDeletes(SeparateProgrammes(CollapseAmpersands(s)));
  }

  /** Text with nothing to repair comes back unchanged. */
  lemma FixXmlIssuesKeepsCleanText(s: string)
    requires forall i :: 0 <= i < |s| ==> Allowed(s[i])
    requires !Contains(s, DoubleEscapedAmp) && !Contains(s, CloseTag)
    ensures FixXmlIssues(s) == s
  {
    ReplaceAllAbsent(s, DoubleEscapedAmp, EscapedAmp);
    SeparateWithoutCloseTag(s);
    StripDisallowedKeepsClean(s);
  }
}
