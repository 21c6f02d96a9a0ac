/**
  What the merge guarantees over whole runs. The central fact is that the fold of
  the step over all sources writes exactly the first passing occurrence of every
  identity among the elements that arrived, in arrival order; the statistics are
  counts over the same elements, except that a source cut short by an error other
  than a parse error contributes to the totals but not to the filter counters.
*/
module MergeProofs {
  import opened Wrappers
  import opened ProgrammeFilters
  import opened EpgMerge

  // ---------------------------------------------------------------------------
  // The elements a run looks at
  // ---------------------------------------------------------------------------

  /** Every element delivered by any source, sources in list order. */
  function AllElements(sources: seq<Source>): seq<Element>
    decreases |sources|
  {
    if sources == [] then []
    else AllElements(sources[..|sources| - 1]) + SourceElements(sources[|sources| - 1])
  }

  /** The elements whose filter verdicts reach the statistics. */
  function AllFlushed(sources: seq<Source>): seq<Element>
    decreases |sources|
  {
    if sources == [] then []
    else AllFlushed(sources[..|sources| - 1]) + FlushedElements(sources[|sources| - 1])
  }

  // ---------------------------------------------------------------------------
  // The reference: first passing occurrences
  // ---------------------------------------------------------------------------

  /** Element `i` passes the filters and no earlier passing element has its identity. */
  predicate FirstPassing(env: Env, es: seq<Element>, i: int)
    requires 0 <= i < |es|
  {
    Passes(env, es[i])
    && forall j :: 0 <= j < i ==> !(Passes(env, es[j]) && IdentityOf(es[j]) == IdentityOf(es[i]))
  }

  /** The first passing occurrences of `es`, in order. */
  function Kept(env: Env, es: seq<Element>): seq<Element>
    decreases |es|
  {
    if es == [] then []
    else Kept(env, es[..|es| - 1]) + (if FirstPassing(env, es, |es| - 1) then [es[|es| - 1]] else [])
  }

  /** Some passing element of `es` has identity `x`. */
  predicate PassedIn(env: Env, es: seq<Element>, x: Identity) {
    exists i :: 0 <= i < |es| && Passes(env, es[i]) && IdentityOf(es[i]) == x
  }

  /** Some element of `out` has identity `x`. */
  predicate InOutput(out: seq<Element>, x: Identity) {
    exists k :: 0 <= k < |out| && IdentityOf(out[k]) == x
  }

  /** The state has processed exactly `es`, as far as output and seen-sets go. */
  ghost predicate Tracks(env: Env, es: seq<Element>, st: MergeState) {
    st.output == Kept(env, es) && forall x :: Seen(st, x) <==> PassedIn(env, es, x)
  }

  lemma {:induction false} PassedInSnoc(env: Env, es: seq<Element>, e: Element, x: Identity)
    ensures PassedIn(env, es + [e], x) <==> PassedIn(env, es, x) || (Passes(env, e) && IdentityOf(e) == x)
  {
    var t := es + [e];
    if PassedIn(env, es, x) {
      var i :| 0 <= i < |es| && Passes(env, es[i]) && IdentityOf(es[i]) == x;
      assert t[i] == es[i];
    }
    if Passes(env, e) && IdentityOf(e) == x {
      assert t[|es|] == e;
    }
    if PassedIn(env, t, x) {
      var i :| 0 <= i < |t| && Passes(env, t[i]) && IdentityOf(t[i]) == x;
      if i < |es| {
        assert t[i] == es[i];
      }
    }
  }

  lemma {:induction false} InOutputSnoc(out: seq<Element>, tail: seq<Element>, x: Identity)
    requires |tail| <= 1
    ensures InOutput(out + tail, x) <==> InOutput(out, x) || (|tail| == 1 && IdentityOf(tail[0]) == x)
  {
    var t := out + tail;
    if InOutput(out, x) {
      var k :| 0 <= k < |out| && IdentityOf(out[k]) == x;
      assert t[k] == out[k];
    }
    if |tail| == 1 && IdentityOf(tail[0]) == x {
      assert t[|out|] == tail[0];
    }
    if InOutput(t, x) {
      var k :| 0 <= k < |t| && IdentityOf(t[k]) == x;
      if k < |out| {
        assert t[k] == out[k];
      }
    }
  }

  /** The last element is a first passing occurrence exactly when it passes and its identity is new. */
  lemma {:induction false} FirstPassingLast(env: Env, es: seq<Element>, e: Element)
    ensures FirstPassing(env, es + [e], |es|) <==> Passes(env, e) && !PassedIn(env, es, IdentityOf(e))
  {
    var t := es + [e];
    assert t[|es|] == e;
    if Passes(env, e) && PassedIn(env, es, IdentityOf(e)) {
      var j :| 0 <= j < |es| && Passes(env, es[j]) && IdentityOf(es[j]) == IdentityOf(e);
      assert t[j] == es[j];
    }
    if Passes(env, e) && !PassedIn(env, es, IdentityOf(e)) {
      forall j | 0 <= j < |es| ensures !(Passes(env, t[j]) && IdentityOf(t[j]) == IdentityOf(t[|es|])) {
        assert t[j] == es[j];
      }
    }
  }

  lemma KeptSnoc(env: Env, es: seq<Element>, e: Element)
    ensures Kept(env, es + [e]) == Kept(env, es) + (if FirstPassing(env, es + [e], |es|) then [e] else [])
  {
    assert (es + [e])[..|es|] == es;
  }

  /** The identities in the reference output are exactly those of the passing elements. */
  lemma {:induction false} KeptIdentities(env: Env, es: seq<Element>)
    ensures forall x :: InOutput(Kept(env, es), x) <==> PassedIn(env, es, x)
    decreases |es|
  {
    if es != [] {
      var init := es[..|es| - 1];
      var e := es[|es| - 1];
      assert es == init + [e];
      KeptIdentities(env, init);
      KeptSnoc(env, init, e);
      FirstPassingLast(env, init, e);
      var tail := if FirstPassing(env, es, |es| - 1) then [e] else [];
      forall x ensures InOutput(Kept(env, es), x) <==> PassedIn(env, es, x) {
        InOutputSnoc(Kept(env, init), tail, x);
        PassedInSnoc(env, init, e, x);
      }
    }
  }

  /** Every element of the reference output passes the filters and came from the input. */
  lemma {:induction false} KeptPasses(env: Env, es: seq<Element>)
    ensures forall e :: e in Kept(env, es) ==> Passes(env, e) && e in es
    decreases |es|
  {
    if es != [] {
      var init := es[..|es| - 1];
      KeptPasses(env, init);
      assert forall e :: e in init ==> e in es;
    }
  }

  /** No two elements of the reference output share an identity. */
  lemma {:induction false} KeptDistinct(env: Env, es: seq<Element>)
    ensures forall i, j :: 0 <= i < j < |Kept(env, es)| ==> IdentityOf(Kept(env, es)[i]) != IdentityOf(Kept(env, es)[j])
    decreases |es|
  {
    if es != [] {
      var init := es[..|es| - 1];
      var e := es[|es| - 1];
      assert es == init + [e];
      KeptDistinct(env, init);
      var k := Kept(env, init);
      if FirstPassing(env, es, |es| - 1) {
        FirstPassingLast(env, init, e);
        KeptIdentities(env, init);
        assert !InOutput(k, IdentityOf(e));
        var out := k + [e];
        forall i, j | 0 <= i < j < |out| ensures IdentityOf(out[i]) != IdentityOf(out[j]) {
          assert out[i] == k[i];
          if j < |k| {
            assert out[j] == k[j];
          }
        }
      }
    }
  }

  // ---------------------------------------------------------------------------
  // The fold follows the reference
  // ---------------------------------------------------------------------------

  lemma SeenAfterStep(env: Env, st: MergeState, e: Element, x: Identity)
    ensures Seen(Step(env, st, e), x) <==> Seen(st, x) || (Passes(env, e) && x == IdentityOf(e))
  {
    var r := Step(env, st, e);
    match x
    case ChannelId(id) =>
    case ProgrammeKeyed(k) =>
    case NoIdentity =>
  }

  lemma StepTracks(env: Env, es: seq<Element>, st: MergeState, e: Element)
    requires Tracks(env, es, st)
    ensures Tracks(env, es + [e], Step(env, st, e))
  {
    var r := Step(env, st, e);
    KeptSnoc(env, es, e);
    FirstPassingLast(env, es, e);
    assert r.output == Kept(env, es + [e]);
    forall x ensures Seen(r, x) <==> PassedIn(env, es + [e], x) {
      SeenAfterStep(env, st, e, x);
      PassedInSnoc(env, es, e, x);
    }
  }

  lemma TracksIgnoresCounters(env: Env, es: seq<Element>, a: MergeState, b: MergeState)
    requires Tracks(env, es, a)
    requires b.output == a.output && b.seenChannels == a.seenChannels && b.seenProgrammes == a.seenProgrammes
    ensures Tracks(env, es, b)
  {
    forall x ensures Seen(b, x) == Seen(a, x) {
    }
  }

  lemma {:induction false} ProcessElementsTracks(env: Env, prefix: seq<Element>, st: MergeState, es: seq<Element>)
    requires Tracks(env, prefix, st)
    ensures Tracks(env, prefix + es, ProcessElements(env, st, es))
    decreases |es|
  {
    if es == [] {
      assert prefix + es == prefix;
    } else {
      var init := es[..|es| - 1];
      ProcessElementsTracks(env, prefix, st, init);
      StepTracks(env, prefix + init, ProcessElements(env, st, init), es[|es| - 1]);
      assert prefix + init + [es[|es| - 1]] == prefix + es;
    }
  }

  lemma ProcessSourceTracks(env: Env, prefix: seq<Element>, st: MergeState, src: Source)
    requires Tracks(env, prefix, st)
    ensures Tracks(env, prefix + SourceElements(src), ProcessSource(env, st, src))
  {
    match src
    case FetchFailed =>
      assert prefix + SourceElements(src) == prefix;
    case Fetched(es, end) =>
      var st0 := st.(local := ZeroLocal);
      TracksIgnoresCounters(env, prefix, st, st0);
      ProcessElementsTracks(env, prefix, st0, es);
      var done := ProcessElements(env, st0, es);
      TracksIgnoresCounters(env, prefix + es, done, Flush(done));
  }

  lemma TracksRenamed(env: Env, a: seq<Element>, b: seq<Element>, st: MergeState)
    requires a == b && Tracks(env, a, st)
    ensures Tracks(env, b, st)
  {
  }

  lemma {:induction false} MergeFromTracks(env: Env, prefix: seq<Element>, st: MergeState, sources: seq<Source>)
    requires Tracks(env, prefix, st)
    ensures Tracks(env, prefix + AllElements(sources), MergeFrom(env, st, sources))
    decreases |sources|
  {
    if sources == [] {
      TracksRenamed(env, prefix, prefix + AllElements(sources), MergeFrom(env, st, sources));
    } else {
      MergeFromTracks(env, prefix, st, sources[..|sources| - 1]);
      MergeFromTracksLast(env, prefix, st, sources);
    }
  }

  lemma MergeFromTracksLast(env: Env, prefix: seq<Element>, st: MergeState, sources: seq<Source>)
    requires sources != []
    requires Tracks(env, prefix + AllElements(sources[..|sources| - 1]), MergeFrom(env, st, sources[..|sources| - 1]))
    ensures Tracks(env, prefix + AllElements(sources), MergeFrom(env, st, sources))
  {
    var init := sources[..|sources| - 1];
    var last := sources[|sources| - 1];
    AllElementsSnoc(prefix, sources);
    MergeFromSnoc(env, st, sources);
    ProcessSourceTracksAt(env, prefix + AllElements(init), MergeFrom(env, st, init), last,
                          prefix + AllElements(sources), MergeFrom(env, st, sources));
  }

  lemma AllElementsSnoc(prefix: seq<Element>, sources: seq<Source>)
    requires sources != []
    ensures prefix + AllElements(sources)
              == prefix + AllElements(sources[..|sources| - 1]) + SourceElements(sources[|sources| - 1])
  {
    ConcatAssoc(prefix, AllElements(sources[..|sources| - 1]), SourceElements(sources[|sources| - 1]));
  }

  lemma ConcatAssoc(a: seq<Element>, b: seq<Element>, c: seq<Element>)
    ensures a + (b + c) == a + b + c
  {
  }

  lemma MergeFromSnoc(env: Env, st: MergeState, sources: seq<Source>)
    requires sources != []
    ensures MergeFrom(env, st, sources)
              == ProcessSource(env, MergeFrom(env, st, sources[..|sources| - 1]), sources[|sources| - 1])
  {
  }

  lemma ProcessSourceTracksAt(env: Env, p: seq<Element>, mid: MergeState, last: Source,
                              full: seq<Element>, r: MergeState)
    requires Tracks(env, p, mid)
    requires full == p + SourceElements(last) && r == ProcessSource(env, mid, last)
    ensures Tracks(env, full, r)
  {
    ProcessSourceTracks(env, p, mid, last);
  }

  /**
    The merged output is the reference output of all delivered elements, and the
    seen-sets hold exactly the identities of the passing ones.
  */
  lemma MergeMatchesReference(env: Env, sources: seq<Source>)
    ensures Merge(env, sources).output == Kept(env, AllElements(sources))
    ensures forall x :: Seen(Merge(env, sources), x) <==> PassedIn(env, AllElements(sources), x)
  {
    assert Tracks(env, [], Initial);
    MergeFromTracks(env, [], Initial, sources);
    assert [] + AllElements(sources) == AllElements(sources);
  }

  /** No channel id and no programme key is written twice, across all sources. */
  lemma NoDuplicateWrites(env: Env, sources: seq<Source>)
    ensures var out := Merge(env, sources).output;
      forall i, j :: 0 <= i < j < |out| && out[i].Channel? && out[j].Channel? ==> out[i].id != out[j].id
    ensures var out := Merge(env, sources).output;
      forall i, j :: 0 <= i < j < |out| && out[i].Programme? && out[j].Programme? ==>
        ProgrammeKey(out[i].channel, out[i].start, out[i].stop) != ProgrammeKey(out[j].channel, out[j].start, out[j].stop)
  {
    MergeMatchesReference(env, sources);
    KeptDistinct(env, AllElements(sources));
  }

  /** A written channel is allowed: the allow-list is empty or holds its id. */
  lemma WrittenChannelsAllowed(env: Env, sources: seq<Source>)
    ensures forall e :: e in Merge(env, sources).output && e.Channel? ==>
              env.allow == {} || (e.id.Some? && e.id.value in env.allow)
  {
    MergeMatchesReference(env, sources);
    KeptPasses(env, AllElements(sources));
  }

  /** A written programme passed every filter: allow-list, dummy, future window and past window. */
  lemma WrittenProgrammesPassFilters(env: Env, sources: seq<Source>)
    ensures forall e :: e in Merge(env, sources).output && e.Programme? ==>
              !Rejected(env.allow, e.channel)
              && !IsDummyProgramme(env.config.skipDummy, e.channel)
              && !TooFarFuture(e.start, env.config.daysFuture, env.now)
              && !TooFarPast(e.stop, env.config.daysPast, env.now)
  {
    MergeMatchesReference(env, sources);
    KeptPasses(env, AllElements(sources));
  }

  /** Only channel and programme elements are ever written, and only ones a source delivered. */
  lemma WrittenElementsCameFromSources(env: Env, sources: seq<Source>)
    ensures forall e :: e in Merge(env, sources).output ==> (e.Channel? || e.Programme?) && e in AllElements(sources)
  {
    MergeMatchesReference(env, sources);
    KeptPasses(env, AllElements(sources));
  }

  /** The seen-sets name exactly the written channels and programmes. */
  lemma SeenSetsMatchOutput(env: Env, sources: seq<Source>)
    ensures forall x :: Seen(Merge(env, sources), x) <==> InOutput(Merge(env, sources).output, x)
  {
    MergeMatchesReference(env, sources);
    KeptIdentities(env, AllElements(sources));
  }

  // ---------------------------------------------------------------------------
  // Sizes of the seen-sets
  // ---------------------------------------------------------------------------

  /** The set sizes the summary reports agree with the lines written. */
  predicate Counted(st: MergeState) {
    |st.seenChannels| == ChannelCount(st.output) && |st.seenProgrammes| == ProgrammeCount(st.output)
  }

  lemma StepCounted(env: Env, st: MergeState, e: Element)
    requires Counted(st)
    ensures Counted(Step(env, st, e))
  {
    var r := Step(env, st, e);
    if Passes(env, e) && !Seen(st, IdentityOf(e)) {
      assert r.output[..|st.output|] == st.output;
      if e.Channel? {
        assert e.id !in st.seenChannels;
      } else {
        assert ProgrammeKey(e.channel, e.start, e.stop) !in st.seenProgrammes;
      }
    } else if Passes(env, e) {
      if e.Channel? {
        assert r.seenChannels == st.seenChannels;
      } else {
        assert r.seenProgrammes == st.seenProgrammes;
      }
    }
  }

  lemma {:induction false} ProcessElementsCounted(env: Env, st: MergeState, es: seq<Element>)
    requires Counted(st)
    ensures Counted(ProcessElements(env, st, es))
    decreases |es|
  {
    if es != [] {
      ProcessElementsCounted(env, st, es[..|es| - 1]);
      StepCounted(env, ProcessElements(env, st, es[..|es| - 1]), es[|es| - 1]);
    }
  }

  lemma {:induction false} MergeFromCounted(env: Env, st: MergeState, sources: seq<Source>)
    requires Counted(st)
    ensures Counted(MergeFrom(env, st, sources))
    decreases |sources|
  {
    if sources != [] {
      var init := sources[..|sources| - 1];
      MergeFromCounted(env, st, init);
      var mid := MergeFrom(env, st, init);
      match sources[|sources| - 1]
      case FetchFailed =>
      case Fetched(es, end) =>
        ProcessElementsCounted(env, mid.(local := ZeroLocal), es);
    }
  }

  /**
    The channel and programme totals the summary prints as "in output" (the sizes
    of the seen-sets) are the numbers of channel and programme lines written.
  */
  lemma SeenCountsMatchOutput(env: Env, sources: seq<Source>)
    ensures |Merge(env, sources).seenChannels| == ChannelCount(Merge(env, sources).output)
    ensures |Merge(env, sources).seenProgrammes| == ProgrammeCount(Merge(env, sources).output)
  {
    MergeFromCounted(env, Initial, sources);
  }

  // ---------------------------------------------------------------------------
  // Statistics
  // ---------------------------------------------------------------------------

  lemma {:induction false} ChannelCountConcat(a: seq<Element>, b: seq<Element>)
    ensures ChannelCount(a + b) == ChannelCount(a) + ChannelCount(b)
    decreases |b|
  {
    if b == [] {
      assert a + b == a;
    } else {
      ChannelCountConcat(a, b[..|b| - 1]);
      assert (a + b)[..|a + b| - 1] == a + b[..|b| - 1];
    }
  }

  lemma {:induction false} ProgrammeCountConcat(a: seq<Element>, b: seq<Element>)
    ensures ProgrammeCount(a + b) == ProgrammeCount(a) + ProgrammeCount(b)
    decreases |b|
  {
    if b == [] {
      assert a + b == a;
    } else {
      ProgrammeCountConcat(a, b[..|b| - 1]);
      assert (a + b)[..|a + b| - 1] == a + b[..|b| - 1];
    }
  }

  lemma {:induction false} TallyConcat(env: Env, a: seq<Element>, b: seq<Element>, v: Verdict)
    ensures Tally(env, a + b, v) == Tally(env, a, v) + Tally(env, b, v)
    decreases |b|
  {
    if b == [] {
      assert a + b == a;
    } else {
      TallyConcat(env, a, b[..|b| - 1], v);
      assert (a + b)[..|a + b| - 1] == a + b[..|b| - 1];
    }
  }

  /** The statistics an element stream accounts for: totals over `all`, filter counts over `flushed`. */
  function StatsOf(env: Env, all: seq<Element>, flushed: seq<Element>): Stats {
    Stats(ChannelCount(all), ProgrammeCount(all),
          Tally(env, flushed, ChannelRejected), Tally(env, flushed, ProgrammeRejected),
          Tally(env, flushed, ProgrammeFuture), Tally(env, flushed, ProgrammePast),
          Tally(env, flushed, ProgrammeDummy))
  }

  function Plus(a: Stats, b: Stats): Stats {
    Stats(a.totalChannels + b.totalChannels, a.totalProgrammes + b.totalProgrammes,
          a.channelsFilteredByTvgId + b.channelsFilteredByTvgId,
          a.programmesFilteredByTvgId + b.programmesFilteredByTvgId,
          a.programmesFilteredByFuture + b.programmesFilteredByFuture,
          a.programmesFilteredByPast + b.programmesFilteredByPast,
          a.programmesFilteredByDummy + b.programmesFilteredByDummy)
  }

  lemma PlusZero(s: Stats)
    ensures Plus(ZeroStats, s) == s
  {
  }

  lemma StatsOfConcat(env: Env, a1: seq<Element>, a2: seq<Element>, f1: seq<Element>, f2: seq<Element>)
    ensures StatsOf(env, a1 + a2, f1 + f2) == Plus(StatsOf(env, a1, f1), StatsOf(env, a2, f2))
  {
    StatsOfConcatTotals(env, a1, a2, f1, f2);
    StatsOfConcatFilters(env, a1, a2, f1, f2);
    PlusByFields(StatsOf(env, a1 + a2, f1 + f2), StatsOf(env, a1, f1), StatsOf(env, a2, f2));
  }

  lemma PlusByFields(x: Stats, a: Stats, b: Stats)
    requires x.totalChannels == a.totalChannels + b.totalChannels
    requires x.totalProgrammes == a.totalProgrammes + b.totalProgrammes
    requires x.channelsFilteredByTvgId == a.channelsFilteredByTvgId + b.channelsFilteredByTvgId
    requires x.programmesFilteredByTvgId == a.programmesFilteredByTvgId + b.programmesFilteredByTvgId
    requires x.programmesFilteredByFuture == a.programmesFilteredByFuture + b.programmesFilteredByFuture
    requires x.programmesFilteredByPast == a.programmesFilteredByPast + b.programmesFilteredByPast
    requires x.programmesFilteredByDummy == a.programmesFilteredByDummy + b.programmesFilteredByDummy
    ensures x == Plus(a, b)
  {
  }

  lemma StatsOfConcatTotals(env: Env, a1: seq<Element>, a2: seq<Element>, f1: seq<Element>, f2: seq<Element>)
    ensures var x, y, z := StatsOf(env, a1 + a2, f1 + f2), StatsOf(env, a1, f1), StatsOf(env, a2, f2);
      x.totalChannels == y.totalChannels + z.totalChannels
      && x.totalProgrammes == y.totalProgrammes + z.totalProgrammes
  {
    ChannelCountConcat(a1, a2);
    ProgrammeCountConcat(a1, a2);
  }

  lemma StatsOfConcatFilters(env: Env, a1: seq<Element>, a2: seq<Element>, f1: seq<Element>, f2: seq<Element>)
    ensures var x, y, z := StatsOf(env, a1 + a2, f1 + f2), StatsOf(env, a1, f1), StatsOf(env, a2, f2);
      x.channelsFilteredByTvgId == y.channelsFilteredByTvgId + z.channelsFilteredByTvgId
      && x.programmesFilteredByTvgId == y.programmesFilteredByTvgId + z.programmesFilteredByTvgId
      && x.programmesFilteredByFuture == y.programmesFilteredByFuture + z.programmesFilteredByFuture
      && x.programmesFilteredByPast == y.programmesFilteredByPast + z.programmesFilteredByPast
      && x.programmesFilteredByDummy == y.programmesFilteredByDummy + z.programmesFilteredByDummy
  {
    TallyConcat(env, f1, f2, ChannelRejected);
    TallyConcat(env, f1, f2, ProgrammeRejected);
    TallyConcat(env, f1, f2, ProgrammeFuture);
    TallyConcat(env, f1, f2, ProgrammePast);
    TallyConcat(env, f1, f2, ProgrammeDummy);
  }

  lemma {:induction false} MergeFromStats(env: Env, st: MergeState, sources: seq<Source>)
    ensures MergeFrom(env, st, sources).stats == Plus(st.stats, StatsOf(env, AllElements(sources), AllFlushed(sources)))
    decreases |sources|
  {
    if sources == [] {
    } else {
      var init := sources[..|sources| - 1];
      var last := sources[|sources| - 1];
      MergeFromStats(env, st, init);
      StatsOfConcat(env, AllElements(init), SourceElements(last), AllFlushed(init), FlushedElements(last));
    }
  }

  /**
    The statistics of a run: the channel and programme totals count every element
    any source delivered; each filter counter counts the elements the filter
    chain sent to it, among the sources not cut short by an error other than a
    parse error.
  */
  lemma StatsCountElements(env: Env, sources: seq<Source>)
    ensures Merge(env, sources).stats == StatsOf(env, AllElements(sources), AllFlushed(sources))
  {
    MergeFromStats(env, Initial, sources);
    PlusZero(StatsOf(env, AllElements(sources), AllFlushed(sources)));
  }

  /** Without other errors, every delivered element reaches the filter counters. */
  lemma {:induction false} FlushedWithoutOtherErrors(sources: seq<Source>)
    requires forall i :: 0 <= i < |sources| ==> !(sources[i].Fetched? && sources[i].end == OtherError)
    ensures AllFlushed(sources) == AllElements(sources)
    decreases |sources|
  {
    if sources != [] {
      FlushedWithoutOtherErrors(sources[..|sources| - 1]);
      assert !(sources[|sources| - 1].Fetched? && sources[|sources| - 1].end == OtherError);
    }
  }

  /** An empty allow-list sends nothing to the allow-list buckets. */
  lemma {:induction false} EmptyAllowListTally(env: Env, es: seq<Element>)
    requires env.allow == {}
    ensures Tally(env, es, ChannelRejected) == 0 && Tally(env, es, ProgrammeRejected) == 0
    decreases |es|
  {
    if es != [] {
      EmptyAllowListTally(env, es[..|es| - 1]);
    }
  }

  /** With an empty allow-list neither allow-list counter ever moves. */
  lemma EmptyAllowListFiltersNothing(env: Env, sources: seq<Source>)
    requires env.allow == {}
    ensures Merge(env, sources).stats.channelsFilteredByTvgId == 0
    ensures Merge(env, sources).stats.programmesFilteredByTvgId == 0
  {
    StatsCountElements(env, sources);
    EmptyAllowListTally(env, AllFlushed(sources));
  }

  lemma {:induction false} ShippedConfigTally(env: Env, es: seq<Element>)
    requires env.config == ShippedConfig
    ensures Tally(env, es, ProgrammeFuture) == 0 && Tally(env, es, ProgrammeDummy) == 0
    decreases |es|
  {
    if es != [] {
      ShippedConfigTally(env, es[..|es| - 1]);
      var e := es[|es| - 1];
      if e.Programme? {
        ShippedConfigKeepsFutureAndDummies(e.start, e.channel, env.now);
      }
    }
  }

  /** With the shipped settings the future and dummy counters stay at zero. */
  lemma ShippedConfigNeverCountsFutureOrDummy(env: Env, sources: seq<Source>)
    requires env.config == ShippedConfig
    ensures Merge(env, sources).stats.programmesFilteredByFuture == 0
    ensures Merge(env, sources).stats.programmesFilteredByDummy == 0
  {
    StatsCountElements(env, sources);
    ShippedConfigTally(env, AllFlushed(sources));
  }

  // ---------------------------------------------------------------------------
  // One bucket per element
  // ---------------------------------------------------------------------------

  /** The sum of the programme counters of a loop call. */
  function ProgrammeBuckets(l: Local): nat {
    l.programmesFilteredTvg + l.skippedDummy + l.skippedFuture + l.skippedPast + l.programmesAdded
  }

  /**
    One programme bumps the programme total once and exactly one outcome: one of
    the five programme counters, or none when it is a duplicate.
  */
  lemma StepOneBucketPerProgramme(env: Env, st: MergeState, e: Element)
    requires e.Programme?
    ensures var r := Step(env, st, e);
      var duplicate := Passes(env, e) && Seen(st, IdentityOf(e));
      r.stats.totalProgrammes == st.stats.totalProgrammes + 1
      && ProgrammeBuckets(r.local) + Ind(duplicate) == ProgrammeBuckets(st.local) + 1
      && r.local.channelsAdded == st.local.channelsAdded
      && r.local.channelsFiltered == st.local.channelsFiltered
  {
  }

  /** One channel bumps the channel total once and either the filtered or the added counter, unless it is a repeat. */
  lemma StepOneBucketPerChannel(env: Env, st: MergeState, e: Element)
    requires e.Channel?
    ensures var r := Step(env, st, e);
      var repeat := !Rejected(env.allow, e.id) && e.id in st.seenChannels;
      r.stats.totalChannels == st.stats.totalChannels + 1
      && r.local.channelsFiltered + r.local.channelsAdded + Ind(repeat)
           == st.local.channelsFiltered + st.local.channelsAdded + 1
      && ProgrammeBuckets(r.local) == ProgrammeBuckets(st.local)
  {
  }

  /** Every programme of a stream lands in exactly one of the five filter outcomes. */
  lemma {:induction false} ProgrammesPartition(env: Env, es: seq<Element>)
    ensures ProgrammeCount(es) == Tally(env, es, ProgrammeRejected) + Tally(env, es, ProgrammeDummy)
              + Tally(env, es, ProgrammeFuture) + Tally(env, es, ProgrammePast) + Tally(env, es, ProgrammePasses)
    ensures ChannelCount(es) == Tally(env, es, ChannelRejected) + Tally(env, es, ChannelPasses)
    decreases |es|
  {
    if es != [] {
      ProgrammesPartition(env, es[..|es| - 1]);
    }
  }

  /** Passing programmes that repeat an earlier passing programme's key. */
  function ProgrammeRepeats(env: Env, es: seq<Element>): nat
    decreases |es|
  {
    if es == [] then 0
    else
      var last := es[|es| - 1];
      ProgrammeRepeats(env, es[..|es| - 1])
        + Ind(last.Programme? && Passes(env, last) && !FirstPassing(env, es, |es| - 1))
  }

  /** Each passing programme is either written or a repeat. */
  lemma {:induction false} PassingProgrammesSplit(env: Env, es: seq<Element>)
    ensures Tally(env, es, ProgrammePasses) == ProgrammeCount(Kept(env, es)) + ProgrammeRepeats(env, es)
    decreases |es|
  {
    if es != [] {
      var init := es[..|es| - 1];
      var e := es[|es| - 1];
      PassingProgrammesSplit(env, init);
      var tail := if FirstPassing(env, es, |es| - 1) then [e] else [];
      ProgrammeCountConcat(Kept(env, init), tail);
      if tail != [] {
        assert ProgrammeCount(tail) == Ind(e.Programme?) by {
          assert tail[..0] == [];
        }
      } else {
        assert ProgrammeCount(tail) == 0;
      }
    }
  }

  /**
    When no source ends in an error other than a parse error, the programme total
    splits into the four filter counters, the programmes written and the repeats.
  */
  lemma ProgrammeStatisticsBalance(env: Env, sources: seq<Source>)
    requires forall i :: 0 <= i < |sources| ==> !(sources[i].Fetched? && sources[i].end == OtherError)
    ensures var st := Merge(env, sources);
      st.stats.totalProgrammes
        == st.stats.programmesFilteredByTvgId + st.stats.programmesFilteredByDummy
           + st.stats.programmesFilteredByFuture + st.stats.programmesFilteredByPast
           + |st.seenProgrammes| + ProgrammeRepeats(env, AllElements(sources))
  {
    var all := AllElements(sources);
    StatsCountElements(env, sources);
    FlushedWithoutOtherErrors(sources);
    ProgrammesPartition(env, all);
    PassingProgrammesSplit(env, all);
    MergeMatchesReference(env, sources);
    SeenCountsMatchOutput(env, sources);
  }

  // ---------------------------------------------------------------------------
  // How a source ends
  // ---------------------------------------------------------------------------

  /** A parse error ends the loop like the end of the document: everything so far is kept and counted. */
  lemma ParseErrorActsLikeCompletion(env: Env, st: MergeState, es: seq<Element>)
    ensures ProcessSource(env, st, Fetched(es, ParseError)) == ProcessSource(env, st, Fetched(es, Completed))
    ensures st.output <= ProcessSource(env, st, Fetched(es, ParseError)).output
  {
  }

  /**
    Any other error keeps what was written, remembered and totalled, but the
    source's filter counters never reach the statistics.
  */
  lemma OtherErrorSkipsFlush(env: Env, st: MergeState, es: seq<Element>)
    ensures var r := ProcessSource(env, st, Fetched(es, OtherError));
      var c := ProcessSource(env, st, Fetched(es, Completed));
      r.output == c.output && r.seenChannels == c.seenChannels && r.seenProgrammes == c.seenProgrammes
      && r.stats.totalChannels == c.stats.totalChannels && r.stats.totalProgrammes == c.stats.totalProgrammes
      && r.stats.(totalChannels := st.stats.totalChannels, totalProgrammes := st.stats.totalProgrammes) == st.stats
  {
  }

  /** Processing more sources never takes back a written line, a remembered identity or a counted element. */
  lemma {:induction false} MergeExtendsPrefix(env: Env, sources: seq<Source>, k: nat)
    requires k <= |sources|
    ensures var a := Merge(env, sources[..k]);
      var b := Merge(env, sources);
      a.output <= b.output && a.seenChannels <= b.seenChannels && a.seenProgrammes <= b.seenProgrammes
      && a.stats.totalChannels <= b.stats.totalChannels && a.stats.totalProgrammes <= b.stats.totalProgrammes
    decreases |sources| - k
  {
    if k == |sources| {
      assert sources[..k] == sources;
    } else {
      MergeExtendsPrefix(env, sources, k + 1);
      assert sources[..k + 1][..k] == sources[..k];
      var a := Merge(env, sources[..k]);
      var src := sources[k];
      assert Merge(env, sources[..k + 1]) == ProcessSource(env, a, src);
    }
  }

  // ---------------------------------------------------------------------------
  // The key
  // ---------------------------------------------------------------------------

  /**
    The key is not injective: an underscore inside an attribute, or an attribute
    whose text is `None`, makes different programmes share a key, and the later
    one is then dropped as a repeat.
  */
  lemma KeyCollisions()
    ensures ProgrammeKey(Some("a_b"), Some("c"), None) == ProgrammeKey(Some("a"), Some("b_c"), None)
    ensures ProgrammeKey(None, Some("c"), None) == ProgrammeKey(Some("None"), Some("c"), Some("None"))
  {
    assert ProgrammeKey(Some("a_b"), Some("c"), None) == "a_b_c_None";
    assert ProgrammeKey(Some("a"), Some("b_c"), None) == "a_b_c_None";
    assert ProgrammeKey(None, Some("c"), None) == "None_c_None";
    assert ProgrammeKey(Some("None"), Some("c"), Some("None")) == "None_c_None";
  }

  /**
    Without underscores in the channel and start texts the key is a faithful
    record: equal keys mean equal channel, start and stop texts.
  */
  lemma ProgrammeKeyInjective(c1: Option<string>, s1: Option<string>, p1: Option<string>,
                              c2: Option<string>, s2: Option<string>, p2: Option<string>)
    requires '_' !in KeyText(c1) && '_' !in KeyText(s1)
    requires '_' !in KeyText(c2) && '_' !in KeyText(s2)
    requires ProgrammeKey(c1, s1, p1) == ProgrammeKey(c2, s2, p2)
    ensures KeyText(c1) == KeyText(c2) && KeyText(s1) == KeyText(s2) && KeyText(p1) == KeyText(p2)
  {
    KeyFieldsInjective(KeyText(c1), KeyText(s1), KeyText(p1), KeyText(c2), KeyText(s2), KeyText(p2));
  }

  lemma KeyFieldsInjective(a1: string, b1: string, c1: string, a2: string, b2: string, c2: string)
    requires '_' !in a1 && '_' !in b1 && '_' !in a2 && '_' !in b2
    requires a1 + "_" + b1 + "_" + c1 == a2 + "_" + b2 + "_" + c2
    ensures a1 == a2 && b1 == b2 && c1 == c2
  {
    var k := a1 + "_" + b1 + "_" + c1;
    assert k[..|a1|] == a1 && k[|a1|] == '_';
    assert k[..|a2|] == a2 && k[|a2|] == '_';
    UnderscoreAfterField(k, 0, a1, a2);
    assert a1 == a2;
    var t := b1 + "_" + c1;
    assert k[|a1| + 1..] == t == b2 + "_" + c2;
    assert t[..|b1|] == b1 && t[|b1|] == '_';
    assert t[..|b2|] == b2 && t[|b2|] == '_';
    UnderscoreAfterField(t, 0, b1, b2);
    assert b1 == b2;
    assert t[|b1| + 1..] == c1 && t[|b2| + 1..] == c2;
  }

  /** Two underscore-free fields that start at `i` and are followed by `_` in `k` have the same length. */
  lemma UnderscoreAfterField(k: string, i: nat, x: string, y: string)
    requires i + |x| < |k| && i + |y| < |k|
    requires k[i..i + |x|] == x && k[i + |x|] == '_' && '_' !in x
    requires k[i..i + |y|] == y && k[i + |y|] == '_' && '_' !in y
    ensures |x| == |y|
  {
  }
}
