/**
  The merge of several XMLTV guides into one. Each source arrives as the sequence
  of elements the streaming parser closed, in document order, followed by the way
  the stream ended. One step decides the fate of one element: channels are
  filtered by the allow-list and de-duplicated by id; programmes pass the
  allow-list, dummy, future and past filters in that order and are then
  de-duplicated by a text key. Folding the step over every element of every
  source, in list order, yields the written elements and the statistics.
*/
module EpgMerge {
  import opened Wrappers
  import opened ProgrammeFilters

  // ---------------------------------------------------------------------------
  // Inputs
  // ---------------------------------------------------------------------------

  /**
    An element whose end tag the parser reported. `body` is its serialised text,
    kept opaque; only `channel` and `programme` elements are looked at, the rest
    (titles, display names, the `tv` root) pass by unnoticed. The `tag` of an
    `OtherElement` is never `channel` or `programme`: elements with those tags
    are always `Channel` or `Programme`.
  */
  datatype Element =
    | Channel(id: Option<string>, body: string)
    | Programme(channel: Option<string>, start: Option<string>, stop: Option<string>, body: string)
    | OtherElement(tag: string, body: string)

  /**
    How a source's element stream ended: at the end of the document, with an XML
    syntax error (caught inside the element loop), or with any other failure
    (caught one level up, so the loop's counters are never added to the totals).
  */
  datatype Termination = Completed | ParseError | OtherError

  /** A source either could not be fetched at all or delivered some elements. */
  datatype Source =
    | FetchFailed
    | Fetched(elements: seq<Element>, end: Termination)

  /** What every step consults: the allowed channel ids, the filter settings and the current time. */
  datatype Env = Env(allow: set<string>, config: FilterConfig, now: int)

  // ---------------------------------------------------------------------------
  // State
  // ---------------------------------------------------------------------------

  /** The shared `stats` dictionary. */
  datatype Stats = Stats(
    totalChannels: nat,
    totalProgrammes: nat,
    channelsFilteredByTvgId: nat,
    programmesFilteredByTvgId: nat,
    programmesFilteredByFuture: nat,
    programmesFilteredByPast: nat,
    programmesFilteredByDummy: nat)

  const ZeroStats: Stats := Stats(0, 0, 0, 0, 0, 0, 0)

  /** The counters local to one call of the element loop. */
  datatype Local = Local(
    channelsAdded: nat,
    channelsFiltered: nat,
    programmesAdded: nat,
    programmesFilteredTvg: nat,
    skippedFuture: nat,
    skippedPast: nat,
    skippedDummy: nat)

  const ZeroLocal: Local := Local(0, 0, 0, 0, 0, 0, 0)

  /**
    Everything one step reads and writes. `output` lists the written elements in
    the order their lines were written.
  */
  datatype MergeState = MergeState(
    seenChannels: set<Option<string>>,
    seenProgrammes: set<string>,
    stats: Stats,
    local: Local,
    output: seq<Element>)

  const Initial: MergeState := MergeState({}, {}, ZeroStats, ZeroLocal, [])

  // ---------------------------------------------------------------------------
  // Filtering
  // ---------------------------------------------------------------------------

  /** `valid_tvg_ids and tvg_id not in valid_tvg_ids`: an empty allow-list lets everything through. */
  function Rejected(allow: set<string>, id: Option<string>): (r: bool)
    ensures allow == {} ==> !r
    ensures id.Some? && id.value in allow ==> !r
    ensures allow != {} && id.None? ==> r
    ensures allow != {} && id.Some? && id.value !in allow ==> r
  {
    allow != {} && (id.None? || id.value !in allow)
  }

  /** What the f-string shows for an attribute: its text, or `None` when it is absent. */
  function KeyText(v: Option<string>): string {
    match v
    case None => "None"
    case Some(s) => s
  }

  /** The de-duplication key `{channel}_{start}_{stop}` of a programme. */
  function ProgrammeKey(channel: Option<string>, start: Option<string>, stop: Option<string>): string {
    KeyText(channel) + "_" + KeyText(start) + "_" + KeyText(stop)
  }

  /** Each attribute's text sits at its place in the key, the two underscores between them. */
  lemma ProgrammeKeyFields(channel: Option<string>, start: Option<string>, stop: Option<string>)
    ensures var k, a, b, c := ProgrammeKey(channel, start, stop), KeyText(channel), KeyText(start), KeyText(stop);
            && |k| == |a| + |b| + |c| + 2
            && k[..|a|] == a && k[|a|] == '_'
            && k[|a| + 1..|a| + 1 + |b|] == b && k[|a| + 1 + |b|] == '_'
            && k[|a| + |b| + 2..] == c
  {
    JoinedFields(KeyText(channel), KeyText(start), KeyText(stop));
  }

  lemma JoinedFields(a: string, b: string, c: string)
    ensures var k := a + "_" + b + "_" + c;
            && |k| == |a| + |b| + |c| + 2
            && k[..|a|] == a && k[|a|] == '_'
            && k[|a| + 1..|a| + 1 + |b|] == b && k[|a| + 1 + |b|] == '_'
            && k[|a| + |b| + 2..] == c
  {
    var ab := a + "_" + b;
    var k := ab + "_" + c;
    assert k[..|ab|] == ab;
    assert ab[..|a|] == a && ab[|a| + 1..] == b;
    assert k[|a| + 1..|a| + 1 + |b|] == ab[|a| + 1..];
    assert k[|a| + |b| + 2..] == c;
  }

  /** Where the filter chain sends an element, before de-duplication is considered. */
  datatype Verdict =
    | ChannelRejected
    | ChannelPasses
    | ProgrammeRejected
    | ProgrammeDummy
    | ProgrammeFuture
    | ProgrammePast
    | ProgrammePasses
    | Ignored

  /** The filter chain, in the program's order: allow-list, dummy, future window, past window. */
  function Classify(env: Env, e: Element): (v: Verdict)
    ensures e.OtherElement? <==> v == Ignored
    ensures e.Channel? <==> v == ChannelRejected || v == ChannelPasses
    ensures e.Programme? <==> v in {ProgrammeRejected, ProgrammeDummy, ProgrammeFuture, ProgrammePast, ProgrammePasses}
    ensures e.Channel? ==> (v == ChannelRejected <==> Rejected(env.allow, e.id))
    ensures e.Programme? ==> (v == ProgrammeRejected <==> Rejected(env.allow, e.channel))
    ensures e.Programme? ==>
              (v == ProgrammeDummy <==>
                 !Rejected(env.allow, e.channel) && IsDummyProgramme(env.config.skipDummy, e.channel))
    ensures e.Programme? ==>
              (v == ProgrammeFuture <==>
                 !Rejected(env.allow, e.channel) && !IsDummyProgramme(env.config.skipDummy, e.channel)
                 && TooFarFuture(e.start, env.config.daysFuture, env.now))
    ensures e.Programme? ==>
              (v == ProgrammePast <==>
                 !Rejected(env.allow, e.channel) && !IsDummyProgramme(env.config.skipDummy, e.channel)
                 && !TooFarFuture(e.start, env.config.daysFuture, env.now)
                 && TooFarPast(e.stop, env.config.daysPast, env.now))
    ensures e.Programme? ==>
              (v == ProgrammePasses <==>
                 !Rejected(env.allow, e.channel) && !IsDummyProgramme(env.config.skipDummy, e.channel)
                 && !TooFarFuture(e.start, env.config.daysFuture, env.now)
                 && !TooFarPast(e.stop, env.config.daysPast, env.now))
  {
    match e
    case OtherElement(_, _) => Ignored
    case Channel(id, _) =>
      if Rejected(env.allow, id) then ChannelRejected else ChannelPasses
    case Programme(ch, start, stop, _) =>
      if Rejected(env.allow, ch) then ProgrammeRejected
      else if IsDummyProgramme(env.config.skipDummy, ch) then ProgrammeDummy
      else if TooFarFuture(start, env.config.daysFuture, env.now) then ProgrammeFuture
      else if TooFarPast(stop, env.config.daysPast, env.now) then ProgrammePast
      else ProgrammePasses
  }

  /** The element survives every filter and is a candidate for writing. */
  predicate Passes(env: Env, e: Element) {
    Classify(env, e) == ChannelPasses || Classify(env, e) == ProgrammePasses
  }

  /** What de-duplication compares: a channel's id or a programme's key. */
  datatype Identity = ChannelId(id: Option<string>) | ProgrammeKeyed(key: string) | NoIdentity

  function IdentityOf(e: Element): Identity {
    match e
    case Channel(id, _) => ChannelId(id)
    case Programme(ch, start, stop, _) => ProgrammeKeyed(ProgrammeKey(ch, start, stop))
    case OtherElement(_, _) => NoIdentity
  }

  /** The identity is already in the matching seen-set. */
  predicate Seen(st: MergeState, x: Identity) {
    match x
    case ChannelId(id) => id in st.seenChannels
    case ProgrammeKeyed(k) => k in st.seenProgrammes
    case NoIdentity => false
  }

  function Ind(b: bool): nat {
    if b then 1 else 0
  }

  // ---------------------------------------------------------------------------
  // One element
  // ---------------------------------------------------------------------------

  /**
    The body of the element loop for one element. The element is written exactly
    when it passes the filters and its identity is new; its identity is remembered
    exactly when it passes; each channel and each programme bumps its total and at
    most one local counter.
  */
  function Step(env: Env, st: MergeState, e: Element): (r: MergeState)
    ensures r.output == st.output + (if Passes(env, e) && !Seen(st, IdentityOf(e)) then [e] else [])
    ensures r.seenChannels == st.seenChannels + (if e.Channel? && Passes(env, e) then {e.id} else {})
    ensures r.seenProgrammes == st.seenProgrammes
              + (if e.Programme? && Passes(env, e) then {ProgrammeKey(e.channel, e.start, e.stop)} else {})
    ensures r.stats == st.stats.(totalChannels := st.stats.totalChannels + Ind(e.Channel?),
                                 totalProgrammes := st.stats.totalProgrammes + Ind(e.Programme?))
    ensures r.local.channelsFiltered == st.local.channelsFiltered + Ind(Classify(env, e) == ChannelRejected)
    ensures r.local.programmesFilteredTvg == st.local.programmesFilteredTvg + Ind(Classify(env, e) == ProgrammeRejected)
    ensures r.local.skippedDummy == st.local.skippedDummy + Ind(Classify(env, e) == ProgrammeDummy)
    ensures r.local.skippedFuture == st.local.skippedFuture + Ind(Classify(env, e) == ProgrammeFuture)
    ensures r.local.skippedPast == st.local.skippedPast + Ind(Classify(env, e) == ProgrammePast)
    ensures r.local.channelsAdded == st.local.channelsAdded + Ind(e.Channel? && |r.output| > |st.output|)
    ensures r.local.programmesAdded == st.local.programmesAdded + Ind(e.Programme? && |r.output| > |st.output|)
  {
    match e
    case OtherElement(_, _) => st
    case Channel(id, _) =>
      var counted := st.(stats := st.stats.(totalChannels := st.stats.totalChannels + 1));
      var l := counted.local;
      if Classify(env, e) == ChannelRejected then
        counted.(local := l.(channelsFiltered := l.channelsFiltered + 1))
      else if id !in st.seenChannels then
        counted.(seenChannels := st.seenChannels + {id}, output := st.output + [e],
                 local := l.(channelsAdded := l.channelsAdded + 1))
      else
        counted
    case Programme(ch, start, stop, _) =>
      var counted := st.(stats := st.stats.(totalProgrammes := st.stats.totalProgrammes + 1));
      var l := counted.local;
      var v := Classify(env, e);
      if v == ProgrammeRejected then counted.(local := l.(programmesFilteredTvg := l.programmesFilteredTvg + 1))
      else if v == ProgrammeDummy then counted.(local := l.(skippedDummy := l.skippedDummy + 1))
      else if v == ProgrammeFuture then counted.(local := l.(skippedFuture := l.skippedFuture + 1))
      else if v == ProgrammePast then counted.(local := l.(skippedPast := l.skippedPast + 1))
      else
        var key := ProgrammeKey(ch, start, stop);
        if key !in st.seenProgrammes then
          counted.(seenProgrammes := st.seenProgrammes + {key}, output := st.output + [e],
                   local := l.(programmesAdded := l.programmesAdded + 1))
        else
          counted
  }

  // ---------------------------------------------------------------------------
  // Counting elements
  // ---------------------------------------------------------------------------

  function ChannelCount(es: seq<Element>): nat {
    if es == [] then 0 else ChannelCount(es[..|es| - 1]) + Ind(es[|es| - 1].Channel?)
  }

  function ProgrammeCount(es: seq<Element>): nat {
    if es == [] then 0 else ProgrammeCount(es[..|es| - 1]) + Ind(es[|es| - 1].Programme?)
  }

  /** How many elements of `es` the filter chain sends to `v`. */
  function Tally(env: Env, es: seq<Element>, v: Verdict): nat {
    if es == [] then 0 else Tally(env, es[..|es| - 1], v) + Ind(Classify(env, es[|es| - 1]) == v)
  }

  // ---------------------------------------------------------------------------
  // One source
  // ---------------------------------------------------------------------------

  /**
    The element loop over one source's elements. The totals grow by the number
    of channels and programmes seen; each local filter counter grows by the number
    of elements the chain sends to it; the added counters grow by what was
    written; nothing already written or remembered is lost.
  */
  function ProcessElements(env: Env, st: MergeState, es: seq<Element>): (r: MergeState)
    ensures r.stats.totalChannels == st.stats.totalChannels + ChannelCount(es)
    ensures r.stats.totalProgrammes == st.stats.totalProgrammes + ProgrammeCount(es)
    ensures r.stats.(totalChannels := st.stats.totalChannels, totalProgrammes := st.stats.totalProgrammes) == st.stats
    ensures r.local.channelsFiltered == st.local.channelsFiltered + Tally(env, es, ChannelRejected)
    ensures r.local.programmesFilteredTvg == st.local.programmesFilteredTvg + Tally(env, es, ProgrammeRejected)
    ensures r.local.skippedDummy == st.local.skippedDummy + Tally(env, es, ProgrammeDummy)
    ensures r.local.skippedFuture == st.local.skippedFuture + Tally(env, es, ProgrammeFuture)
    ensures r.local.skippedPast == st.local.skippedPast + Tally(env, es, ProgrammePast)
    ensures |st.output| <= |r.output| && r.output[..|st.output|] == st.output
    ensures r.local.channelsAdded == st.local.channelsAdded + ChannelCount(r.output[|st.output|..])
    ensures r.local.programmesAdded == st.local.programmesAdded + ProgrammeCount(r.output[|st.output|..])
    ensures st.seenChannels <= r.seenChannels && st.seenProgrammes <= r.seenProgrammes
    decreases |es|
  {
    if es == [] then st
    else
      var mid := ProcessElements(env, st, es[..|es| - 1]);
      var r := Step(env, mid, es[|es| - 1]);
      assert r.output[..|st.output|] == st.output by {
        assert r.output[..|mid.output|] == mid.output;
        assert r.output[..|st.output|] == mid.output[..|st.output|];
      }
      var added := r.output[|st.output|..];
      if |r.output| > |mid.output| then
        assert added == mid.output[|st.output|..] + [es[|es| - 1]];
        assert added[..|added| - 1] == mid.output[|st.output|..];
        r
      else
        assert added == mid.output[|st.output|..];
        r
  }

  /** The counters of one loop call added to the shared statistics. */
  function Flush(st: MergeState): (r: MergeState)
    ensures r.output == st.output && r.local == st.local
    ensures r.seenChannels == st.seenChannels && r.seenProgrammes == st.seenProgrammes
    ensures r.stats.totalChannels == st.stats.totalChannels
    ensures r.stats.totalProgrammes == st.stats.totalProgrammes
    ensures r.stats.channelsFilteredByTvgId == st.stats.channelsFilteredByTvgId + st.local.channelsFiltered
    ensures r.stats.programmesFilteredByTvgId == st.stats.programmesFilteredByTvgId + st.local.programmesFilteredTvg
    ensures r.stats.programmesFilteredByFuture == st.stats.programmesFilteredByFuture + st.local.skippedFuture
    ensures r.stats.programmesFilteredByPast == st.stats.programmesFilteredByPast + st.local.skippedPast
    ensures r.stats.programmesFilteredByDummy == st.stats.programmesFilteredByDummy + st.local.skippedDummy
  {
    var s := st.stats;
    var l := st.local;
    st.(stats := s.(channelsFilteredByTvgId := s.channelsFilteredByTvgId + l.channelsFiltered,
                    programmesFilteredByTvgId := s.programmesFilteredByTvgId + l.programmesFilteredTvg,
                    programmesFilteredByFuture := s.programmesFilteredByFuture + l.skippedFuture,
                    programmesFilteredByPast := s.programmesFilteredByPast + l.skippedPast,
                    programmesFilteredByDummy := s.programmesFilteredByDummy + l.skippedDummy))
  }

  /** Every element the parser delivered from a source, whatever ended it. */
  function SourceElements(src: Source): seq<Element> {
    if src.Fetched? then src.elements else []
  }

  /** The elements whose filter counts reach the statistics: all but those of a source that ended in another error. */
  function FlushedElements(src: Source): seq<Element> {
    if src.Fetched? && src.end != OtherError then src.elements else []
  }

  /**
    One source: a failed fetch changes nothing; otherwise the loop runs from
    fresh local counters over the elements that arrived, and its filter counters
    reach the statistics unless the stream ended in an error other than a parse
    error.
  */
  function ProcessSource(env: Env, st: MergeState, src: Source): (r: MergeState)
    ensures src.FetchFailed? ==> r == st
    ensures r.stats.totalChannels == st.stats.totalChannels + ChannelCount(SourceElements(src))
    ensures r.stats.totalProgrammes == st.stats.totalProgrammes + ProgrammeCount(SourceElements(src))
    ensures r.stats.channelsFilteredByTvgId
              == st.stats.channelsFilteredByTvgId + Tally(env, FlushedElements(src), ChannelRejected)
    ensures r.stats.programmesFilteredByTvgId
              == st.stats.programmesFilteredByTvgId + Tally(env, FlushedElements(src), ProgrammeRejected)
    ensures r.stats.programmesFilteredByDummy
              == st.stats.programmesFilteredByDummy + Tally(env, FlushedElements(src), ProgrammeDummy)
    ensures r.stats.programmesFilteredByFuture
              == st.stats.programmesFilteredByFuture + Tally(env, FlushedElements(src), ProgrammeFuture)
    ensures r.stats.programmesFilteredByPast
              == st.stats.programmesFilteredByPast + Tally(env, FlushedElements(src), ProgrammePast)
    ensures |st.output| <= |r.output| && r.output[..|st.output|] == st.output
    ensures st.seenChannels <= r.seenChannels && st.seenProgrammes <= r.seenProgrammes
  {
    match src
    case FetchFailed => st
    case Fetched(es, end) =>
      var done := ProcessElements(env, st.(local := ZeroLocal), es);
      if end == OtherError then done else Flush(done)
  }

  // ---------------------------------------------------------------------------
  // All sources and the document
  // ---------------------------------------------------------------------------

  /** The sources in list order, starting from `st`. */
  function MergeFrom(env: Env, st: MergeState, sources: seq<Source>): (r: MergeState)
    ensures |st.output| <= |r.output| && r.output[..|st.output|] == st.output
    ensures st.seenChannels <= r.seenChannels && st.seenProgrammes <= r.seenProgrammes
    decreases |sources|
  {
    if sources == [] then st
    else
      var mid := MergeFrom(env, st, sources[..|sources| - 1]);
      var r := ProcessSource(env, mid, sources[|sources| - 1]);
      assert r.output[..|st.output|] == mid.output[..|st.output|];
      r
  }

  function Merge(env: Env, sources: seq<Source>): MergeState {
    MergeFrom(env, Initial, sources)
  }

  const XmlDeclaration: string := "<?xml version=\"1.0\" encoding=\"utf-8\"?>\n"
  const Header: seq<string> := [XmlDeclaration, "<tv>\n"]
  const Footer: seq<string> := ["</tv>\n"]

  /** The line written for a kept element: two spaces of indent, its text, a newline. */
  function Render(e: Element): (line: string)
    ensures |line| == |e.body| + 3
    ensures line[..2] == "  " && line[|line| - 1] == '\n'
    ensures line[2..|line| - 1] == e.body
  {
    "  " + e.body + "\n"
  }

  function Lines(out: seq<Element>): (ls: seq<string>)
    ensures |ls| == |out|
    ensures forall i :: 0 <= i < |out| ==> ls[i] == Render(out[i])
  {
    seq(|out|, i requires 0 <= i < |out| => Render(out[i]))
  }

  /**
    The chunks written to the output file, in order: the declaration and the
    opening `tv` tag, one line per kept element, the closing tag.
  */
  function Document(env: Env, sources: seq<Source>): (doc: seq<string>)
    ensures |doc| == |Header| + |Merge(env, sources).output| + |Footer|
    ensures doc[..|Header|] == Header
    ensures doc[|doc| - |Footer|..] == Footer
    ensures forall i :: 0 <= i < |Merge(env, sources).output| ==>
              doc[|Header| + i] == Render(Merge(env, sources).output[i])
  {
    var body := Lines(Merge(env, sources).output);
    assert (Header + body + Footer)[..|Header|] == Header;
    assert (Header + body + Footer)[|Header| + |body|..] == Footer;
    Header + body + Footer
  }
}
