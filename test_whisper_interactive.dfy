/**
 * Upload to the OpenAI transcription API with a size guard: a file above
 * the limit is first re-encoded to `compressed_<name>` in the same folder;
 * if that fails, nothing is uploaded.
 */
module WhisperInteractive {
  import opened Wrappers
  import opened Text
  import opened PyPath
  import opened Seqs
  import opened Menu
  import opened Listing

  /** `size_limit_mb=25` megabytes. */
  const DefaultLimitBytes := 25 * 1024 * 1024

  lemma DefaultLimit()
    ensures DefaultLimitBytes == 26214400
  {
  }

  /** `os.path.join(os.path.dirname(p), "compressed_" + os.path.basename(p))`. */
  function CompressedPath(p: string): string {
    Join(DirName(p), "compressed_" + BaseName(p))
  }

  /** One slash-free name after a prefix that is empty or ends in `/` is the base name. */
  lemma BaseNameUnder(a: string, f: string)
    requires a == [] || a[|a| - 1] == '/'
    requires '/' !in f
    ensures BaseName(a + f) == f
  {
    LastIndexOfAbsent(f, '/');
    LastIndexOfAppend(a, f, '/');
    assert (a + f)[|a|..] == f;
  }

  /** The compressed file's name is the original's with `compressed_` in front. */
  lemma CompressedBaseName(p: string)
    ensures BaseName(CompressedPath(p)) == "compressed_" + BaseName(p)
  {
    var name := "compressed_" + BaseName(p);
    assert '/' !in BaseName(p);
    assert '/' !in name by {
      assert forall c :: c in name ==> c in "compressed_" || c in BaseName(p);
    }
    JoinRelative(DirName(p), name);
    BaseNameUnder(DirPrefix(DirName(p)), name);
  }

  /** The compressed copy never overwrites the file it is made from. */
  lemma CompressedPathDiffers(p: string)
    ensures CompressedPath(p) != p
  {
    CompressedBaseName(p);
    assert |BaseName(CompressedPath(p))| != |BaseName(p)|;
  }

  /**
   * `compress_audio_if_needed`: the input itself when it is within the
   * limit, else the compressed copy if exporting it succeeds, else `None`.
   */
  function CompressIfNeeded(p: string, sizeBytes: nat, limitBytes: nat, exportOk: bool): (r: Option<string>)
    ensures sizeBytes <= limitBytes ==> r == Some(p)
    ensures sizeBytes > limitBytes ==> r == (if exportOk then Some(CompressedPath(p)) else None)
    ensures r.Some? ==> (r.value == p <==> sizeBytes <= limitBytes)
  {
    if sizeBytes <= limitBytes then Some(p)
    else
      CompressedPathDiffers(p);
      if exportOk then Some(CompressedPath(p)) else None
  }

  datatype UploadOutcome = NoInput | NothingToUpload | Upload(path: string)

  /** Lines 44-53: transcription uploads whatever the guard returned, and stops on `None`. */
  function TranscribeAudioWithApi(p: string, sizeBytes: nat, limitBytes: nat, exportOk: bool): (r: UploadOutcome)
    ensures r.Upload? <==> p != [] && (sizeBytes <= limitBytes || exportOk)
    ensures r.Upload? ==> r.path == p || r.path == CompressedPath(p)
    ensures r.Upload? && sizeBytes > limitBytes ==> r.path == CompressedPath(p)
  {
    if p == [] then NoInput
    else match CompressIfNeeded(p, sizeBytes, limitBytes, exportOk)
      case None => NothingToUpload
      case Some(q) => Upload(q)
  }

  // ---- select_audio_file (lines 77-109) -----------------------------------------------

  function Episodes(listing: seq<string>): (r: seq<string>)
    ensures forall f :: f in r <==> f in listing && EndsWith(f, ".mp3")
  {
    Filter(listing, f => EndsWith(f, ".mp3"))
  }

  function SelectAudioFile(baseDir: string, base: Option<seq<Entry>>, showChoice: Option<int>,
                           fileChoice: Option<int>): (r: Option<string>)
    ensures base.None? || base.value == [] ==> r.None?
    ensures r.Some? ==>
              base.Some? &&
              exists show, f :: show in base.value && show.Dir? && f in Episodes(show.files) &&
                                r.value == Join(Join(baseDir, show.name), f)
    ensures r.Some? <==>
              base.Some? && PickOneBased(Shows(base.value), showChoice).Some? &&
              PickOneBased(Episodes(PickOneBased(Shows(base.value), showChoice).value.files), fileChoice).Some?
    ensures r.Some? ==>
              r.value == Join(Join(baseDir, PickOneBased(Shows(base.value), showChoice).value.name),
                              PickOneBased(Episodes(PickOneBased(Shows(base.value), showChoice).value.files), fileChoice).value)
  {
    PickEpisode(baseDir, base, showChoice, Episodes, fileChoice)
  }

  /**
   * The episode menu shows the first 20 episodes (line 101), yet choice 21
   * picks the 21st of the full list, and 0 picks the last.
   */
  lemma UnlistedEpisodePickable(baseDir: string, base: seq<Entry>, showChoice: int)
    requires PickOneBased(Shows(base), Some(showChoice)).Some?
    requires |Episodes(PickOneBased(Shows(base), Some(showChoice)).value.files)| > 20
    ensures SelectAudioFile(baseDir, Some(base), Some(showChoice), Some(21)) ==
            Some(Join(Join(baseDir, PickOneBased(Shows(base), Some(showChoice)).value.name),
                      Episodes(PickOneBased(Shows(base), Some(showChoice)).value.files)[20]))
    ensures SelectAudioFile(baseDir, Some(base), Some(showChoice), Some(0)) ==
            Some(Join(Join(baseDir, PickOneBased(Shows(base), Some(showChoice)).value.name),
                      Episodes(PickOneBased(Shows(base), Some(showChoice)).value.files)[
                        |Episodes(PickOneBased(Shows(base), Some(showChoice)).value.files)| - 1]))
  {
  }
}
