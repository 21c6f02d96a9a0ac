/**
  `filter_and_build_epg`: the allow-list is assembled from the id file and the
  playlists, then every source is merged, in list order, into one document.
*/
module EpgBuild {
  import opened Wrappers
  import opened ProgrammeFilters
  import opened EpgMerge
  import opened MergeProofs
  import AllowList

  /**
    The written document: the header, one line per first passing occurrence of
    each channel id and programme key across all sources, the footer. Every
    written channel and programme names an id from the id file or from some
    playlist, unless neither contributed any id, when nothing is filtered by id.
  */
  function BuildEpg(idFile: Option<seq<string>>, playlists: seq<seq<string>>, config: FilterConfig,
                    now: int, sources: seq<Source>): (doc: seq<string>)
    ensures var kept := Kept(Env(AllowList.ResolveAllowList(idFile, playlists), config, now), AllElements(sources));
            && |doc| == |Header| + |kept| + |Footer|
            && doc[..|Header|] == Header
            && doc[|doc| - |Footer|..] == Footer
            && forall i :: 0 <= i < |kept| ==> doc[|Header| + i] == Render(kept[i])
    ensures var allow := AllowList.ResolveAllowList(idFile, playlists);
            forall e :: e in Merge(Env(allow, config, now), sources).output && e.Channel? && allow != {} ==>
              e.id.Some? && FromIdSources(idFile, playlists, e.id.value)
    ensures var allow := AllowList.ResolveAllowList(idFile, playlists);
            forall e :: e in Merge(Env(allow, config, now), sources).output && e.Programme? && allow != {} ==>
              e.channel.Some? && FromIdSources(idFile, playlists, e.channel.value)
  {
    var env := Env(AllowList.ResolveAllowList(idFile, playlists), config, now);
    MergeMatchesReference(env, sources);
    WrittenChannelsAllowed(env, sources);
    WrittenProgrammesPassFilters(env, sources);
    Document(env, sources)
  }

  /** The id was read from the id file or found in one of the playlists. */
  predicate FromIdSources(idFile: Option<seq<string>>, playlists: seq<seq<string>>, id: string) {
    (idFile.Some? && id in AllowList.FileIds(idFile.value))
    || exists p :: p in playlists && id in AllowList.PlaylistIds(p)
  }
}
