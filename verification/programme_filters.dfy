/**
  The per-programme filters: the future and past time windows and the suppression of
  "dummy" channels. The program reads its settings from module globals and the clock
  from `datetime.now()`; here both are parameters.
*/
module ProgrammeFilters {
  import opened Wrappers
  import opened Chars
  import opened XmltvTime

  /** The settings `days_future`, `days_past` and `skip_dummy_programs`. */
  datatype FilterConfig = FilterConfig(daysFuture: int, daysPast: int, skipDummy: bool)

  /** The values the program ships with: no future limit, one day of history, dummies kept. */
  const ShippedConfig: FilterConfig := FilterConfig(0, 1, false)

  /** `datetime.now() + timedelta(days=days)` on the microsecond scale. */
  function FutureCutoff(now: int, days: int): int {
    now + days * MicrosPerDay
  }

  /** `datetime.now() - timedelta(days=days)` on the microsecond scale. */
  function PastCutoff(now: int, days: int): int {
    now - days * MicrosPerDay
  }

  /** `is_programme_too_far_future`: the start lies strictly after the future cutoff. */
  function TooFarFuture(start: Option<string>, daysLimit: int, now: int): (r: bool)
    ensures daysLimit <= 0 ==> !r
    ensures ParseXmltvTime(start).None? ==> !r
    ensures r <==> daysLimit > 0 && ParseXmltvTime(start).Some?
                   && ParseXmltvTime(start).value > FutureCutoff(now, daysLimit)
  {
    if daysLimit <= 0 then false
    else
      match ParseXmltvTime(start)
      case None => false
      case Some(t) => t > FutureCutoff(now, daysLimit)
  }

  /** `is_programme_too_far_past`: the stop lies strictly before the past cutoff. */
  function TooFarPast(stop: Option<string>, daysLimit: int, now: int): (r: bool)
    ensures daysLimit <= 0 ==> !r
    ensures ParseXmltvTime(stop).None? ==> !r
    ensures r <==> daysLimit > 0 && ParseXmltvTime(stop).Some?
                   && ParseXmltvTime(stop).value < PastCutoff(now, daysLimit)
  {
    if daysLimit <= 0 then false
    else
      match ParseXmltvTime(stop)
      case None => false
      case Some(t) => t < PastCutoff(now, daysLimit)
  }

  const DummyMarker: string := "dummy"

  /**
    `is_dummy_programme`. Python lower-cases with `str.lower`; no character outside
    ASCII lower-cases to one of the letters of "dummy", so ASCII lower-casing decides
    the same substring test.
  */
  function IsDummyProgramme(skipDummy: bool, id: Option<string>): (r: bool)
    ensures !skipDummy ==> !r
    ensures (id.None? || id.value == "") ==> !r
  {
    if !skipDummy then false
    else
      match id
      case None => false
      case Some(s) => if s == "" then false else Contains(AsciiLower(s), DummyMarker)
  }

  // ---------------------------------------------------------------------------
  // Facts about the filters
  // ---------------------------------------------------------------------------

  /** With the shipped settings neither the future window nor the dummy filter ever fires. */
  lemma ShippedConfigKeepsFutureAndDummies(start: Option<string>, id: Option<string>, now: int)
    ensures !TooFarFuture(start, ShippedConfig.daysFuture, now)
    ensures !IsDummyProgramme(ShippedConfig.skipDummy, id)
  {
  }

  /**
    For a canonical start time `YYYYMMDDHHMMSS` plus any zone text, the future
    filter fires exactly when the datetime lies strictly after now plus the window:
    a programme starting exactly on the cutoff is kept.
  */
  lemma {:induction false} FutureFilterOnCanonicalStart(dt: DateTime, zone: string, days: int, now: int)
    requires Valid(dt)
    ensures TooFarFuture(Some(Format(dt) + zone), days, now)
            <==> days > 0 && ToMicros(dt) > FutureCutoff(now, days)
  {
    ParseCanonical(dt, zone);
  }

  /** The past-window counterpart: fires exactly when the stop is strictly before the cutoff. */
  lemma {:induction false} PastFilterOnCanonicalStop(dt: DateTime, zone: string, days: int, now: int)
    requires Valid(dt)
    ensures TooFarPast(Some(Format(dt) + zone), days, now)
            <==> days > 0 && ToMicros(dt) < PastCutoff(now, days)
  {
    ParseCanonical(dt, zone);
  }

  /** A later start than one the future window drops is dropped too (calendar order). */
  lemma {:induction false} FutureFilterUpwardClosed(a: DateTime, b: DateTime, za: string, zb: string, days: int, now: int)
    requires Valid(a) && Valid(b) && !Before(b, a)
    requires TooFarFuture(Some(Format(a) + za), days, now)
    ensures TooFarFuture(Some(Format(b) + zb), days, now)
  {
    FutureFilterOnCanonicalStart(a, za, days, now);
    FutureFilterOnCanonicalStart(b, zb, days, now);
    ToMicrosOrder(b, a);
  }

  /** An earlier stop than one the past window drops is dropped too (calendar order). */
  lemma {:induction false} PastFilterDownwardClosed(a: DateTime, b: DateTime, za: string, zb: string, days: int, now: int)
    requires Valid(a) && Valid(b) && !Before(a, b)
    requires TooFarPast(Some(Format(a) + za), days, now)
    ensures TooFarPast(Some(Format(b) + zb), days, now)
  {
    PastFilterOnCanonicalStop(a, za, days, now);
    PastFilterOnCanonicalStop(b, zb, days, now);
    ToMicrosOrder(a, b);
  }

  /** Five consecutive characters of `s`, starting at `i`, read "dummy" in some mix of cases. */
  ghost predicate MarkerAt(s: string, i: int) {
    0 <= i && i + 5 <= |s| && AsciiLower(s[i..i + 5]) == DummyMarker
  }

  /**
    The dummy filter, when on, fires exactly when some five consecutive characters
    of the id read "dummy" in any mix of upper and lower case.
  */
  lemma {:induction false} DummyIffMarkerOccurs(s: string)
    requires s != ""
    ensures IsDummyProgramme(true, Some(s)) <==> exists i :: MarkerAt(s, i)
  {
    var low := AsciiLower(s);
    ContainsIffOccurs(low, DummyMarker);
    if IsDummyProgramme(true, Some(s)) {
      var i :| OccursAt(low, DummyMarker, i);
      assert low[i..i + 5] == AsciiLower(s[i..i + 5]);
      assert MarkerAt(s, i);
    }
    if exists i :: MarkerAt(s, i) {
      var i :| MarkerAt(s, i);
      assert low[i..i + 5] == AsciiLower(s[i..i + 5]);
      assert OccursAt(low, DummyMarker, i);
    }
  }

  /** Ids that agree up to ASCII case are treated alike. */
  lemma DummyIgnoresCase(skipDummy: bool, s: string, t: string)
    requires AsciiLower(s) == AsciiLower(t)
    ensures IsDummyProgramme(skipDummy, Some(s)) == IsDummyProgramme(skipDummy, Some(t))
  {
  }

  /** "Dummy1" is dropped when suppression is on and kept when it is off, whatever its case. */
  lemma DummyExample()
    ensures IsDummyProgramme(true, Some("Dummy1"))
    ensures IsDummyProgramme(true, Some("DUMMY1"))
    ensures !IsDummyProgramme(false, Some("Dummy1"))
  {
    assert AsciiLower("Dummy1") == "dummy1";
    assert AsciiLower("DUMMY1") == "dummy1";
    assert DummyMarker <= "dummy1";
  }
}
