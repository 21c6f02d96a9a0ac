/**
  How the set of valid channel ids is assembled: the trimmed non-blank lines of the
  local id file, joined with every `tvg-id="..."` value found in the playlists.
  Reading the file and fetching the playlists are I/O; a file or playlist arrives
  here as the lines that were read from it.
*/
module AllowList {
  import opened Wrappers
  import opened Chars

  // ---------------------------------------------------------------------------
  // Lines of the id file
  // ---------------------------------------------------------------------------

  /** `str.strip()`: drops the leading and trailing whitespace and keeps the middle. */
  function Strip(s: string): (r: string)
    ensures SpaceRun(s) + |r| <= |s|
    ensures r == s[SpaceRun(s)..SpaceRun(s) + |r|]
    ensures forall k :: SpaceRun(s) + |r| <= k < |s| ==> IsSpace(s[k])
    ensures r != "" ==> !IsSpace(r[0]) && !IsSpace(r[|r| - 1])
    ensures r == "" <==> forall k :: 0 <= k < |s| ==> IsSpace(s[k])
  {
    var lead := SpaceRun(s);
    var rest := s[lead..];
    var trail := TrailingSpaceRun(rest);
    if lead == |s| then
      assert forall k :: 0 <= k < |s| ==> IsSpace(s[k]);
      ""
    else
      assert trail < |rest| by {
        assert !IsSpace(rest[0]);
      }
      var r := rest[..|rest| - trail];
      assert r == s[lead..lead + |r|];
      assert r[0] == s[lead];
      assert forall k :: lead + |r| <= k < |s| ==> s[k] == rest[k - lead];
      r
  }

  /** Stripping a text already bounded by non-space characters, padded with whitespace, recovers it. */
  lemma {:induction false} StripRemovesPadding(left: string, core: string, right: string)
    requires forall k :: 0 <= k < |left| ==> IsSpace(left[k])
    requires forall k :: 0 <= k < |right| ==> IsSpace(right[k])
    requires core != "" ==> !IsSpace(core[0]) && !IsSpace(core[|core| - 1])
    ensures Strip(left + core + right) == core
  {
    var s := left + core + right;
    var r := Strip(s);
    if core == "" {
      assert forall k :: 0 <= k < |s| ==> IsSpace(s[k]) by {
        assert s == left + right;
      }
    } else {
      SpaceRunOfPadded(left, core + right);
      assert s == left + (core + right);
      assert SpaceRun(s) == |left|;
      assert !IsSpace(s[|left| + |core| - 1]);
      assert |r| == |core|;
      assert r == s[|left|..|left| + |core|] == core;
    }
  }

  /** Stripping twice is stripping once. */
  lemma StripIdempotent(s: string)
    ensures Strip(Strip(s)) == Strip(s)
  {
    StripRemovesPadding("", Strip(s), "");
    assert "" + Strip(s) + "" == Strip(s);
  }

  /** `set(line.strip() for line in file if line.strip())` */
  function FileIds(lines: seq<string>): (ids: set<string>)
    ensures forall id :: id in ids ==> id != "" && !IsSpace(id[0]) && !IsSpace(id[|id| - 1])
    ensures forall l :: l in lines && Strip(l) != "" ==> Strip(l) in ids
    ensures forall id :: id in ids ==> exists l :: l in lines && Strip(l) == id
  {
    var ids := set l | l in lines && Strip(l) != "" :: Strip(l);
    assert forall id :: id in ids ==> exists l :: l in lines && Strip(l) != "" && Strip(l) == id;
    ids
  }

  // ---------------------------------------------------------------------------
  // tvg-id values of playlist lines
  // ---------------------------------------------------------------------------

  /** The literal part of `tvg-id="([^"]+)"`, matched ignoring case. */
  const TvgIdAttr: string := "tvg-id=\""

  /** The attribute opener occurs at the start of `s`, letters in either case. */
  predicate AttrAtStart(s: string) {
    |TvgIdAttr| <= |s| && AsciiLower(s[..|TvgIdAttr|]) == TvgIdAttr
  }

  /** The index of the first `"` at or after `j`, or `|s|` when there is none. */
  function QuoteFrom(s: string, j: nat): (k: nat)
    requires j <= |s|
    ensures j <= k <= |s|
    ensures forall m :: j <= m < k ==> s[m] != '"'
    ensures k < |s| ==> s[k] == '"'
    decreases |s| - j
  {
    if j == |s| || s[j] == '"' then j else QuoteFrom(s, j + 1)
  }

  /**
    `re.findall(r'tvg-id="([^"]+)"', s, re.IGNORECASE)`: scans left to right; where
    the opener matches, the greedy `[^"]+` runs to the next quote, which must exist
    and must not be the very next character; a match resumes the scan after its
    closing quote, a failed attempt one character further on.
  */
  function FindTvgIds(s: string): (ids: seq<string>)
    ensures forall v :: v in ids ==> v != "" && '"' !in v
    decreases |s|
  {
    if |s| == 0 then []
    else if AttrAtStart(s) then
      var j := |TvgIdAttr|;
      var k := QuoteFrom(s, j);
      if j < k < |s| then
        assert forall m :: 0 <= m < k - j ==> s[j..k][m] == s[j + m];
        [s[j..k]] + FindTvgIds(s[k + 1..])
      else FindTvgIds(s[1..])
    else FindTvgIds(s[1..])
  }

  /**
    A `tvg-id="v"` attribute at the scan position, its name in any mix of upper
    and lower case, yields `v`, and the scan goes on after the closing quote.
  */
  lemma {:induction false} FindTvgIdsReadsAttribute(opener: string, v: string, tail: string)
    requires |opener| == |TvgIdAttr| && AsciiLower(opener) == TvgIdAttr
    requires v != "" && '"' !in v
    ensures FindTvgIds(opener + v + "\"" + tail) == [v] + FindTvgIds(tail)
  {
    var s := opener + v + "\"" + tail;
    var j := |TvgIdAttr|;
    var k := j + |v|;
    assert s[..j] == opener;
    assert forall m :: j <= m < k ==> s[m] != '"' by {
      forall m | j <= m < k ensures s[m] != '"' {
        assert s[m] == v[m - j];
        assert v[m - j] in v;
      }
    }
    QuoteUpTo(s, j, k);
    assert AttrAtStart(s);
    assert s[j..k] == v;
    assert s[k + 1..] == tail;
  }

  lemma {:induction false} QuoteUpTo(s: string, j: nat, k: nat)
    requires j <= k < |s| && s[k] == '"'
    requires forall m :: j <= m < k ==> s[m] != '"'
    ensures QuoteFrom(s, j) == k
    decreases k - j
  {
    if j < k {
      QuoteUpTo(s, j + 1, k);
    }
  }

  /**
    An opener followed by an empty value (`tvg-id=""`) or by no closing quote is no
    match: the scan goes on one character further.
  */
  lemma FindTvgIdsSkipsEmptyValue(s: string)
    requires AttrAtStart(s)
    requires (|TvgIdAttr| < |s| && s[|TvgIdAttr|] == '"') || '"' !in s[|TvgIdAttr|..]
    ensures FindTvgIds(s) == FindTvgIds(s[1..])
  {
    var j := |TvgIdAttr|;
    if j < |s| && s[j] == '"' {
      QuoteUpTo(s, j, j);
    } else {
      QuoteFromNone(s, j);
    }
  }

  lemma {:induction false} QuoteFromNone(s: string, j: nat)
    requires j <= |s| && '"' !in s[j..]
    ensures QuoteFrom(s, j) == |s|
    decreases |s| - j
  {
    if j < |s| {
      assert s[j] == s[j..][0];
      assert s[j + 1..] == s[j..][1..];
      QuoteFromNone(s, j + 1);
    }
  }

  /** An empty value does not hide the attribute after it. */
  lemma EmptyValueThenValue()
    ensures FindTvgIds(TvgIdAttr + "\"" + TvgIdAttr + "x\"") == ["x"]
  {
    var head := TvgIdAttr[1..] + "\"";
    var rest := TvgIdAttr + "x" + "\"" + "";
    var s := [TvgIdAttr[0]] + (head + rest);
    assert s == TvgIdAttr + "\"" + TvgIdAttr + "x\"";
    LowerOpener();
    assert s[..|TvgIdAttr|] == TvgIdAttr;
    FindTvgIdsSkipsEmptyValue(s);
    NoOpenerWithoutT(head, rest);
    FindTvgIdsSkipsHead(head, rest);
    FindTvgIdsReadsAttribute(TvgIdAttr, "x", "");
  }

  /** An opener can start only at a `t` or `T`. */
  lemma NoOpenerWithoutT(head: string, rest: string)
    requires forall i :: 0 <= i < |head| ==> AsciiLowerChar(head[i]) != 't'
    ensures forall i :: 0 <= i < |head| ==> !AttrAtStart((head + rest)[i..])
  {
    forall i | 0 <= i < |head| ensures !AttrAtStart((head + rest)[i..]) {
      assert (head + rest)[i..][0] == head[i];
    }
  }

  lemma LowerOpener()
    ensures AsciiLower(TvgIdAttr) == TvgIdAttr
  {
    assert forall i :: 0 <= i < |TvgIdAttr| ==> AsciiLower(TvgIdAttr)[i] == TvgIdAttr[i];
  }

  /** Text in which no attribute opener starts contributes nothing before the rest of the line. */
  lemma {:induction false} FindTvgIdsSkipsHead(head: string, rest: string)
    requires forall i :: 0 <= i < |head| ==> !AttrAtStart((head + rest)[i..])
    ensures FindTvgIds(head + rest) == FindTvgIds(rest)
    decreases |head|
  {
    if |head| > 0 {
      var s := head + rest;
      assert !AttrAtStart(s[0..]);
      assert s[0..] == s;
      assert s[1..] == head[1..] + rest;
      forall i | 0 <= i < |head[1..]| ensures !AttrAtStart((head[1..] + rest)[i..]) {
        assert (head[1..] + rest)[i..] == s[i + 1..];
      }
      FindTvgIdsSkipsHead(head[1..], rest);
    } else {
      assert head + rest == rest;
    }
  }

  /** The ids of a playlist: every match on every non-empty line. */
  function PlaylistIds(lines: seq<string>): (ids: set<string>)
    ensures forall v :: v in ids ==> v != "" && '"' !in v
    ensures forall l, v :: l in lines && v in FindTvgIds(l) ==> v in ids
    ensures forall v :: v in ids ==> exists l :: l in lines && l != "" && v in FindTvgIds(l)
  {
    set l, v | l in lines && l != "" && v in FindTvgIds(l) :: v
  }

  /**
    `get_valid_tvg_ids`: the file's ids (an absent or unreadable file contributes
    nothing) joined with the ids of every playlist (a playlist that could not be
    fetched arrives with no lines; one whose scan failed part-way, with the lines
    read before the failure).
  */
  function ResolveAllowList(file: Option<seq<string>>, playlists: seq<seq<string>>): (ids: set<string>)
    ensures forall v :: v in ids ==> v != ""
    ensures file.Some? ==> FileIds(file.value) <= ids
    ensures forall p :: p in playlists ==> PlaylistIds(p) <= ids
    ensures forall v :: v in ids ==>
              (file.Some? && v in FileIds(file.value)) || exists p :: p in playlists && v in PlaylistIds(p)
    decreases |playlists|
  {
    if |playlists| == 0 then
      match file
      case None => {}
      case Some(lines) => FileIds(lines)
    else
      var last := playlists[|playlists| - 1];
      var r := ResolveAllowList(file, playlists[..|playlists| - 1]) + PlaylistIds(last);
      assert forall p :: p in playlists ==> p in playlists[..|playlists| - 1] || p == last;
      r
  }
}
