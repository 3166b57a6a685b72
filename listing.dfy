/**
 * A directory as the scripts see it through `os.listdir`: the names it
 * holds in listing order. A show folder under `podcast_downloads` is a
 * directory entry with its own listing.
 */
module Listing {
  import opened Wrappers
  import opened Seqs
  import opened PyPath
  import opened Menu

  /** One step of `os.walk`: a folder and the names of the files directly in it. */
  datatype WalkStep = WalkStep(root: string, files: seq<string>)

  datatype Entry = File(name: string) | Dir(name: string, files: seq<string>)

  /** `[d for d in os.listdir(base) if os.path.isdir(join(base, d))]`, as entries. */
  function Shows(listing: seq<Entry>): (r: seq<Entry>)
    ensures forall e :: e in r <==> e in listing && e.Dir?
  {
    Filter(listing, (e: Entry) => e.Dir?)
  }

  /**
   * The two menus of the transcription scripts: `base` is
   * `os.listdir(base_dir)` (`None` when the folder is missing); the user
   * picks a show folder, then one of the names `candidates` offers from that
   * folder's listing. Both picks index with Python's wraparound.
   */
  function PickEpisode(baseDir: string, base: Option<seq<Entry>>, showChoice: Option<int>,
                       candidates: seq<string> -> seq<string>, fileChoice: Option<int>): (r: Option<string>)
    ensures (base.None? || base.value == [] || Shows(base.value) == []) ==> r.None?
    ensures r.Some? ==>
              base.Some? &&
              exists show, f :: show in base.value && show.Dir? && f in candidates(show.files) &&
                                r.value == Join(Join(baseDir, show.name), f)
    ensures (base.Some? && PickOneBased(Shows(base.value), showChoice).Some? &&
             candidates(PickOneBased(Shows(base.value), showChoice).value.files) == []) ==> r.None?
    ensures r.Some? <==>
              base.Some? && PickOneBased(Shows(base.value), showChoice).Some? &&
              PickOneBased(candidates(PickOneBased(Shows(base.value), showChoice).value.files), fileChoice).Some?
    ensures r.Some? ==>
              r.value == Join(Join(baseDir, PickOneBased(Shows(base.value), showChoice).value.name),
                              PickOneBased(candidates(PickOneBased(Shows(base.value), showChoice).value.files),
                                           fileChoice).value)
  {
    if base.None? || base.value == [] then None
    else
      var shows := Shows(base.value);
      if shows == [] then None
      else match PickOneBased(shows, showChoice)
        case None => None
        case Some(show) =>
          var offered := candidates(show.files);
          if offered == [] then None
          else match PickOneBased(offered, fileChoice)
            case None => None
            case Some(f) => Some(Join(Join(baseDir, show.name), f))
  }
}
