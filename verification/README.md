# XMLTV guide merger, modelled in Dafny

`getEpgs.py` builds one XMLTV programme guide out of several. It reads an
allow-list of channel ids from a local file and from `tvg-id="..."`
attributes of M3U playlists. Then it streams every guide source in list order
and keeps only the channels and programmes that pass its filters:

- the allow-list;
- a "dummy" id filter;
- a window on how far in the future a programme may start;
- a window on how far in the past it may have stopped.

It drops repeated channels (same id) and repeated programmes (same
`channel_start_stop` key). It writes the surviving elements between a fixed
header and footer, and keeps statistics of what it dropped and why.

This project models that core as pure functions over immutable data and
proves what the program promises about it.

- `Wrappers`: `Option`.
- `Chars`: the whitespace Python's `str.strip` and `\s` use, ASCII digits,
  ASCII lower-casing and substring search.
- `XmltvTime`:
  - `parse_xmltv_time`, which cuts the text to 14 characters and applies
    `strptime` with `%Y%m%d%H%M%S`;
  - the strptime model follows Python's own regular expression for those
    directives, including the order of alternatives, backtracking and the
    "unconverted data remains" rule;
  - then the calendar checks of `datetime`;
  - a valid date-time maps to microseconds on the proleptic Gregorian scale.
- `ProgrammeFilters`: `is_programme_too_far_future`,
  `is_programme_too_far_past`, `is_dummy_programme` and the three
  configuration constants.
- `TextRepair`: the three steps of `fix_xml_issues`.
- `AllowList`: the trim rule for the id file, the `tvg-id` `findall`, and
  the union built by `get_valid_tvg_ids`.
- `EpgMerge`:
  - the per-element step of `stream_parse_epg`;
  - its fold over a source's elements, including how the stream ended;
  - `process_epg_source`'s handling of a failed fetch or a failed stream;
  - the fold over all sources;
  - the written document.
- `EpgBuild`: `filter_and_build_epg`, from the id file and playlists to the
  document.
- `MergeProofs`: whole-run properties:
  - the output equals a reference definition, namely the first passing
    occurrence of each identity;
  - no channel id or programme key is written twice;
  - everything written passed every filter;
  - the statistics equal counts over the input elements;
  - every programme lands in exactly one bucket;
  - the behaviour under each way a stream can end.

`fix_xml_issues` is defined in the program but nothing in it calls it. It is
modelled as the standalone text repair it is.

## Model

| member | source | states |
|---|---|---|
| XmltvTime.ParseXmltvTime | getEpgs.py:27-35 | An absent or empty timestamp gives no time; a non-empty one gives the instant of the date-time strptime reads from its first 14 characters, and no time exactly when strptime rejects them |
| XmltvTime.ParseReadsOnlyDatePart | getEpgs.py:29-33 | Two timestamps with the same first 14 characters parse alike |
| XmltvTime.ParseIgnoresSuffix | getEpgs.py:32-33 | Anything after 14 characters, such as the `+0000` zone, has no effect on the parse |
| XmltvTime.Strptime | getEpgs.py:33 | Every date-time strptime accepts is a valid calendar date-time |
| XmltvTime.StrptimeFormat | getEpgs.py:33 | On the zero-padded 14-digit text of any date-time in the pattern's range, strptime returns it exactly when it is a valid date, and fails otherwise |
| XmltvTime.ParseCanonical | getEpgs.py:27-35 | A canonical XMLTV timestamp of a valid date-time, with any zone suffix, parses to that date-time's instant |
| XmltvTime.RejectsNonexistentDates | getEpgs.py:31-35 | 29 February of a common year, second 60 and year 0 are rejected, so the parse gives no time |
| XmltvTime.MatchCanonical | getEpgs.py:33 | The directive regex splits a canonical 14-digit text into the six zero-padded fields, taking the longest first alternative at each |
| XmltvTime.MatchTakesFirstAlternative | getEpgs.py:33 | When a directive's first alternative leads to a match of the rest, the whole match uses it (alternation order of the regex) |
| XmltvTime.Pad2Value | getEpgs.py:33 | Two zero-padded digits read back as the number they pad |
| XmltvTime.Pad4Value | getEpgs.py:33 | Four zero-padded digits read back as the number they pad |
| XmltvTime.ToMicrosOrder | getEpgs.py:47 | Between valid date-times, comparing instants agrees with chronological order, and equal instants mean equal date-times, so the filters' `>` and `<` compare times |
| ProgrammeFilters.TooFarFuture | getEpgs.py:37-47 | Never fires when the day limit is zero or negative or the start does not parse; otherwise fires exactly when the parsed start lies strictly after now plus the limit |
| ProgrammeFilters.TooFarPast | getEpgs.py:49-59 | Never fires when the day limit is zero or negative or the stop does not parse; otherwise fires exactly when the parsed stop lies strictly before now minus the limit |
| ProgrammeFilters.FutureFilterOnCanonicalStart | getEpgs.py:37-47 | For a canonical start timestamp, the future filter fires exactly when the limit is positive and the start's instant is past the cutoff |
| ProgrammeFilters.PastFilterOnCanonicalStop | getEpgs.py:49-59 | For a canonical stop timestamp, the past filter fires exactly when the limit is positive and the stop's instant is before the cutoff |
| ProgrammeFilters.FutureFilterUpwardClosed | getEpgs.py:37-47 | A start no earlier than one the future filter drops is dropped too |
| ProgrammeFilters.PastFilterDownwardClosed | getEpgs.py:49-59 | A stop no later than one the past filter drops is dropped too |
| ProgrammeFilters.IsDummyProgramme | getEpgs.py:61-69 | Never fires when suppression is off or the id is absent or empty |
| ProgrammeFilters.DummyIffMarkerOccurs | getEpgs.py:61-69 | With suppression on, a non-empty id is a dummy exactly when "dummy" occurs in it at some position, letters in either case |
| ProgrammeFilters.DummyIgnoresCase | getEpgs.py:69 | Ids that differ only in letter case are judged alike |
| ProgrammeFilters.DummyExample | getEpgs.py:61-69 | "Dummy1" and "DUMMY1" are dummies when suppression is on; "Dummy1" is kept when it is off |
| ProgrammeFilters.ShippedConfigKeepsFutureAndDummies | getEpgs.py:10-12 | With the shipped settings (0 future days, no dummy suppression) the future and dummy filters never fire |
| TextRepair.CollapseAmpersandsDeletes | getEpgs.py:22 | Collapsing `&amp;amp;` to `&amp;` only deletes characters |
| TextRepair.CollapseIsSinglePass | getEpgs.py:22 | The replacement is one left-to-right pass, so a triply escaped ampersand becomes a doubly escaped one, not `&amp;` |
| TextRepair.ReplaceAllAbsent | getEpgs.py:22 | A text without the pattern passes the replacement unchanged |
| TextRepair.ReplaceAllAtPattern | getEpgs.py:22 | An occurrence of the pattern at the scan position is replaced, and the pass resumes right after it |
| TextRepair.ReplaceAllSkipsHead | getEpgs.py:22 | Text where the pattern starts nowhere is copied unchanged, and the pass continues on what follows; with the previous row, every occurrence the scan reaches is replaced |
| TextRepair.SeparatePreservesNonSpace | getEpgs.py:23 | Separating adjacent programme tags changes only whitespace: the non-space characters are the same, in the same order |
| TextRepair.SeparateAdjacent | getEpgs.py:23 | A closing and an opening programme tag at the scan position, with any whitespace or none between them, are rewritten with exactly one newline between them, and the rewrite goes on after the opening tag |
| TextRepair.SeparateSkipsHead | getEpgs.py:23 | Text where no separator match starts is copied unchanged, and the rewrite continues on what follows; with the previous row, a tag pair anywhere in the text is rewritten |
| TextRepair.SeparateAfterText | getEpgs.py:23 | A tag pair after other text, `x</programme> <programme`, comes out as `x</programme>` followed by a newline and `<programme` |
| TextRepair.SeparateWithoutCloseTag | getEpgs.py:23 | A text with no `</programme>` passes the separation unchanged |
| TextRepair.NonSpaceOfMatch | getEpgs.py:23 | A separator match consists of the two tags with only whitespace between them |
| TextRepair.StripDisallowed | getEpgs.py:24 | Every character left is printable ASCII, newline, carriage return or tab |
| TextRepair.StripDisallowedDeletes | getEpgs.py:24 | The last step only deletes: its result is a subsequence of its input |
| TextRepair.StripDisallowedCounts | getEpgs.py:24 | Each allowed character occurs as often as in the input; no other character remains |
| TextRepair.StripDisallowedKeepsClean | getEpgs.py:24 | A text of allowed characters passes unchanged |
| TextRepair.FixXmlIssues | getEpgs.py:20-25 | Every character of the repaired text is in the safe alphabet |
| TextRepair.FixXmlIssuesLastStepDeletes | getEpgs.py:24-25 | The repaired text is a subsequence of the text after the first two steps |
| TextRepair.FixXmlIssuesKeepsCleanText | getEpgs.py:20-25 | Text with no disallowed character, no `&amp;amp;` and no `</programme>` comes back unchanged |
| AllowList.Strip | getEpgs.py:128 | The result is the input's middle slice after the leading whitespace; only whitespace follows it; it neither starts nor ends with whitespace; it is empty exactly when the input is all whitespace |
| AllowList.StripRemovesPadding | getEpgs.py:128 | Stripping a whitespace-padded text that has no whitespace at either end recovers that text |
| AllowList.StripIdempotent | getEpgs.py:128 | Stripping twice is stripping once |
| AllowList.FileIds | getEpgs.py:128 | The file's ids are exactly the stripped non-blank lines; none is empty or has whitespace at either end |
| AllowList.FindTvgIds | getEpgs.py:111 | Every value found is non-empty and free of quotes |
| AllowList.FindTvgIdsReadsAttribute | getEpgs.py:111 | A `tvg-id="v"` at the scan position, its attribute name in any mix of upper and lower case, yields `v`, and the scan resumes after the closing quote |
| AllowList.FindTvgIdsSkipsHead | getEpgs.py:111 | Text where no attribute opener starts contributes no values |
| AllowList.FindTvgIdsSkipsEmptyValue | getEpgs.py:111 | An opener followed by an empty value or by no closing quote yields nothing there, and the scan resumes one character on |
| AllowList.EmptyValueThenValue | getEpgs.py:111 | `tvg-id=""tvg-id="x"` yields just `x`: an empty value does not hide the attribute after it |
| AllowList.PlaylistIds | getEpgs.py:108-112 | A playlist's ids are exactly the values found on its non-empty lines; each is non-empty and quote-free |
| AllowList.ResolveAllowList | getEpgs.py:121-146 | The allow-list is exactly the union of the file's ids (when the file exists) and every playlist's ids |
| EpgMerge.Rejected | getEpgs.py:178 | An element is rejected by id exactly when the allow-list is non-empty and its id is absent or not in it; an empty allow-list rejects nothing |
| EpgMerge.ProgrammeKeyFields | getEpgs.py:210 | The key is the channel, start and stop texts (`None` for an absent attribute) joined by two underscores, each field recoverable at its position |
| EpgMerge.Classify | getEpgs.py:174-209 | Other elements are ignored; a channel is rejected exactly when the allow-list rejects its id and passes otherwise; a programme lands in the first of allow-list, dummy, future, past whose filter fires, and passes exactly when none fires |
| EpgMerge.Step | getEpgs.py:174-218 | One element is appended to the output exactly when it passes its filters and its identity is unseen; its id or key joins the seen sets whenever it passes; the source totals and the matching filter counter each grow by one; a written channel or programme increments its added counter |
| EpgMerge.ProcessElements | getEpgs.py:170-219 | Over a source's elements, the totals grow by the channel and programme counts and each filter counter by the number of elements with that verdict; earlier output is kept as a prefix; the added counters equal the channels and programmes in the new output |
| EpgMerge.Flush | getEpgs.py:224-228 | The five filter counters of a loop call are added to the matching statistics; the totals, output, seen sets and loop counters are unchanged |
| EpgMerge.ProcessSource | getEpgs.py:220-228 | A failed fetch changes nothing; the totals count every delivered element; the filter statistics count the elements of streams that completed or hit a parse error, but not those of a stream that failed otherwise |
| EpgMerge.MergeFrom | getEpgs.py:301-302 | Processing more sources only extends the output and the seen sets |
| EpgMerge.Render | getEpgs.py:183 | A written line is two spaces, the element's text and a newline |
| EpgMerge.Document | getEpgs.py:148-155 | The document is the declaration and `<tv>`, then one rendered line per kept element in order, then `</tv>` |
| EpgBuild.BuildEpg | getEpgs.py:270-304 | The document is the header, one rendered line per first passing occurrence of each channel id and programme key over all sources in order, and the footer; every written channel and programme names an id from the id file or a playlist unless the allow-list is empty |
| MergeProofs.MergeMatchesReference | getEpgs.py:178-215 | The merged output is the first passing occurrence of each channel id and programme key across all sources in order; an identity is seen exactly when some element with it passed |
| MergeProofs.KeptIdentities | getEpgs.py:180-181 | The reference output holds an identity exactly when some input element with it passes |
| MergeProofs.KeptDistinct | getEpgs.py:180-212 | The reference output holds each identity at most once |
| MergeProofs.KeptPasses | getEpgs.py:178-212 | Everything in the reference output passes the filters and comes from the input |
| MergeProofs.NoDuplicateWrites | getEpgs.py:180-212 | No two written channels share an id, and no two written programmes share a key |
| MergeProofs.WrittenChannelsAllowed | getEpgs.py:178 | Every written channel is in the allow-list, unless the allow-list is empty |
| MergeProofs.WrittenProgrammesPassFilters | getEpgs.py:201-209 | Every written programme passes the allow-list, dummy, future and past filters |
| MergeProofs.WrittenElementsCameFromSources | getEpgs.py:172-215 | Only channels and programmes delivered by some source are written |
| MergeProofs.SeenSetsMatchOutput | getEpgs.py:180-212 | An identity is in the seen sets exactly when an element with it was written |
| MergeProofs.SeenCountsMatchOutput | getEpgs.py:307 | The sizes of the seen sets, which the final report prints, equal the numbers of written channels and programmes |
| MergeProofs.StatsCountElements | getEpgs.py:176-228 | The run's statistics are the element counts of all sources, plus the filter verdict counts over streams that did not fail with another error |
| MergeProofs.MergeFromStats | getEpgs.py:301-302 | Statistics add up across sources |
| MergeProofs.StatsOfConcat | getEpgs.py:223-228 | Statistics of concatenated element lists are the sums of their parts |
| MergeProofs.FlushedWithoutOtherErrors | getEpgs.py:220-228 | When no stream failed with another error, the filter statistics count every element |
| MergeProofs.EmptyAllowListFiltersNothing | getEpgs.py:141-144 | With an empty allow-list, no channel or programme is counted as filtered by id |
| MergeProofs.ShippedConfigNeverCountsFutureOrDummy | getEpgs.py:10-12 | Under the shipped settings, the future and dummy statistics stay zero |
| MergeProofs.StepOneBucketPerProgramme | getEpgs.py:198-215 | A programme adds one to the total and exactly one to a filter or added counter, unless it is a passing repeat |
| MergeProofs.StepOneBucketPerChannel | getEpgs.py:176-184 | A channel adds one to the total and one to the filtered or added counter, unless it is an allowed repeat |
| MergeProofs.ProgrammesPartition | getEpgs.py:198-215 | Every programme gets exactly one of the five programme verdicts; every channel one of the two channel verdicts |
| MergeProofs.PassingProgrammesSplit | getEpgs.py:210-215 | The passing programmes split into those written and the repeats |
| MergeProofs.ProgrammeStatisticsBalance | getEpgs.py:316-322 | When no stream failed with another error, the programme total is the sum of the four filter statistics, the distinct programmes kept and the passing repeats |
| MergeProofs.ParseErrorActsLikeCompletion | getEpgs.py:220-228 | A stream cut short by a parse error leaves the same state as one that ended normally after the same elements |
| MergeProofs.OtherErrorSkipsFlush | getEpgs.py:262-265 | A stream that failed otherwise leaves the same output, seen sets and totals, but adds nothing to the filter statistics |
| MergeProofs.MergeExtendsPrefix | getEpgs.py:301-302 | Merging a prefix of the source list gives a prefix of the output, subsets of the seen sets and no larger totals |
| MergeProofs.KeyCollisions | getEpgs.py:210 | The text key is not injective: an underscore inside an attribute, or the literal text "None", lets distinct programmes share a key |
| MergeProofs.ProgrammeKeyInjective | getEpgs.py:210 | When the channel and start texts hold no underscore, equal keys mean equal channel, start and stop texts |

## Left out

- Fetching with retries, HTTP status codes and sleeping (getEpgs.py:71-97). These are network I/O. A source arrives either as a failed fetch or as the elements its stream delivered.
- Reading playlists line by line (getEpgs.py:99-119). This is network I/O. A playlist arrives as its lines. A playlist that failed part-way arrives with the lines read before the failure.
- Reading the id file (getEpgs.py:125-133). This is disk I/O. The file arrives as its lines, or as absent when it is missing or unreadable.
- gzip decompression of sources and compression of the output (getEpgs.py:252-260, 298). These are library streams. The document is modelled as the sequence of strings written.
- XML tokenizing and serialising with `iterparse` and `tostring` (getEpgs.py:172, 182, 213). These are library calls. An element is a record of the attributes read, and its serialised text is opaque.
- `elem.clear()` (getEpgs.py:187, 218). It releases memory and has no functional effect.
- Console output: the progress line every 50000 programmes, the per-source summaries and the final report with its percentage (getEpgs.py:190-192, 230-240, 306-338). These only print.
- The clock. `datetime.now()` is read at each call. The model takes one `now` for the whole run, so it does not cover a run whose cutoffs move while it runs.
- ProgrammeFilters.TooFarFuture: does not model the `OverflowError` that the cutoff arithmetic raises for a day limit beyond the supported date range. The cutoff is unbounded integer arithmetic.
- ProgrammeFilters.TooFarPast: does not model the `OverflowError` of the cutoff for huge day limits, for the same reason.
- XmltvTime.Strptime: accepts only ASCII digits. Python's `\d` also matches other Unicode decimal digits.
- AllowList.FindTvgIds: folds only ASCII letters when it ignores case. Python also folds a few non-ASCII letters, such as dotted capital I, to `i`.
- A failure other than a parse error is modelled only between elements, as how a stream ended. An element's handling is never split by one.
- Caught failures inside an element's handling are left out, for the same reason. A `tostring` error (getEpgs.py:182, 213) or a failed write to the output (getEpgs.py:183, 214) is caught by `process_epg_source` (getEpgs.py:262-265). By then the id or key was already added to its seen set (getEpgs.py:181, 212), but the line was not written and the counters are not flushed. In such a run MergeProofs.SeenSetsMatchOutput and MergeProofs.SeenCountsMatchOutput would not hold; the model does not cover such runs.
- Failures that no caller handles are not modelled: opening the output file and writing the header and footer (getEpgs.py:298-304).
