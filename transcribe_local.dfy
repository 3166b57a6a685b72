/**
 * Transcription with the local Whisper model: the mp3 `<stem>.mp3` is
 * pending until `<stem>.json` exists; a run writes the full text to
 * `<stem>.txt` and the segments, reduced to start, end and text, to
 * `<stem>.json`.
 */
module TranscribeLocal {
  import opened Wrappers
  import opened Text
  import opened PyPath
  import opened Seqs
  import opened Menu
  import opened Listing

  function TranscriptName(f: string): string {
    Stem(f) + ".json"
  }

  predicate Untranscribed(listing: seq<string>, f: string) {
    EndsWith(f, ".mp3") && TranscriptName(f) !in listing
  }

  /** Line 30: the mp3 names whose `<stem>.json` is not in the folder. */
  function Pending(listing: seq<string>): (r: seq<string>)
    ensures forall f :: f in r <==> f in listing && EndsWith(f, ".mp3") && Stem(f) + ".json" !in listing
  {
    Filter(listing, f => Untranscribed(listing, f))
  }

  /**
   * Writing `<stem>.json` removes from the pending list exactly the mp3
   * names with that stem, `f` among them.
   */
  lemma TranscribedLeavesPending(listing: seq<string>, f: string)
    ensures Pending(listing + [TranscriptName(f)]) == Filter(Pending(listing), g => Stem(g) != Stem(f))
    ensures f !in Pending(listing + [TranscriptName(f)])
  {
    var after := listing + [TranscriptName(f)];
    FilterAppend(listing, [TranscriptName(f)], g => Untranscribed(after, g));
    LastCharDiffers(Stem(f), ".json", ".mp3");
    assert Filter([TranscriptName(f)], g => Untranscribed(after, g)) == [];
    forall g | g in listing
      ensures Untranscribed(after, g) == (Untranscribed(listing, g) && Stem(g) != Stem(f))
    {
      if TranscriptName(g) == TranscriptName(f) {
        assert Stem(g) == TranscriptName(g)[..|TranscriptName(g)| - 5];
      }
    }
    FilterBoth(listing, g => Untranscribed(listing, g), g => Stem(g) != Stem(f),
               g => Untranscribed(after, g));
  }

  /** `select_mp3_file`: a show folder, then one of its pending mp3 files. */
  function SelectMp3File(baseDir: string, base: Option<seq<Entry>>, showChoice: Option<int>,
                         fileChoice: Option<int>): (r: Option<string>)
    ensures r.Some? ==>
              base.Some? &&
              exists show, f :: show in base.value && show.Dir? && f in Pending(show.files) &&
                                r.value == Join(Join(baseDir, show.name), f)
    ensures (base.Some? && PickOneBased(Shows(base.value), showChoice).Some? &&
             Pending(PickOneBased(Shows(base.value), showChoice).value.files) == []) ==> r.None?
    ensures r.Some? <==>
              base.Some? && PickOneBased(Shows(base.value), showChoice).Some? &&
              PickOneBased(Pending(PickOneBased(Shows(base.value), showChoice).value.files), fileChoice).Some?
    ensures r.Some? ==>
              r.value == Join(Join(baseDir, PickOneBased(Shows(base.value), showChoice).value.name),
                              PickOneBased(Pending(PickOneBased(Shows(base.value), showChoice).value.files), fileChoice).value)
  {
    PickEpisode(baseDir, base, showChoice, Pending, fileChoice)
  }

  // ---- select_model_size (lines 45-58) --------------------------------------------------

  const Sizes := ["tiny", "base", "small", "medium", "large"]

  /** Five sizes including `"large"`; an unusable answer falls back to `"base"`. */
  function SelectModelSize(choice: Option<int>): (r: string)
    ensures r in Sizes
    ensures choice.Some? && 1 <= choice.value <= 5 ==> r == Sizes[choice.value - 1]
    ensures choice.None? || choice.value > 5 || choice.value < -4 ==> r == "base"
  {
    PickOneBased(Sizes, choice).GetOr("base")
  }

  lemma LargeOffered()
    ensures SelectModelSize(Some(5)) == "large"
    ensures SelectModelSize(Some(0)) == "large"
  {
  }

  // ---- transcribe_with_local_whisper (lines 60-104) ---------------------------------------

  /** A segment as Whisper returns it; only some of its fields are kept. */
  datatype WhisperSegment = WhisperSegment(id: int, seek: int, start: real, end: real,
                                           text: string, tokens: seq<int>)

  /** A segment as the script writes it. */
  datatype SavedSegment = SavedSegment(start: real, end: real, text: string)

  /** Lines 92-98: one saved segment per Whisper segment, in order. */
  function ProjectSegments(segments: seq<WhisperSegment>): (r: seq<SavedSegment>)
    ensures |r| == |segments|
    ensures forall i :: 0 <= i < |r| ==>
              r[i].start == segments[i].start && r[i].end == segments[i].end &&
              r[i].text == segments[i].text
  {
    if segments == [] then []
    else [SavedSegment(segments[0].start, segments[0].end, segments[0].text)]
         + ProjectSegments(segments[1..])
  }

  /** Projecting the concatenation of two transcripts projects each. */
  lemma {:induction false} ProjectSegmentsAppend(a: seq<WhisperSegment>, b: seq<WhisperSegment>)
    ensures ProjectSegments(a + b) == ProjectSegments(a) + ProjectSegments(b)
    decreases |a|
  {
    if a == [] {
      assert a + b == b;
    } else {
      assert (a + b)[1..] == a[1..] + b;
      ProjectSegmentsAppend(a[1..], b);
    }
  }

  /** Whisper's reply; `None` when loading the model or transcribing raised. */
  datatype WhisperResult = WhisperResult(text: string, segments: seq<WhisperSegment>)

  datatype LocalOutcome =
    | NoInput
    | Failed
    | Saved(txtPath: string, text: string, jsonPath: string, segments: seq<SavedSegment>)

  function TranscribeWithLocalWhisper(audio: string, size: string,
                                      result: Option<WhisperResult>): (r: LocalOutcome)
    ensures (audio == [] || size == []) ==> r.NoInput?
    ensures r.Saved? <==> audio != [] && size != [] && result.Some?
    ensures r.Saved? ==>
              r.txtPath == Stem(audio) + ".txt" && r.jsonPath == Stem(audio) + ".json" &&
              r.text == result.value.text &&
              |r.segments| == |result.value.segments| &&
              forall i :: 0 <= i < |r.segments| ==>
                r.segments[i] == SavedSegment(result.value.segments[i].start, result.value.segments[i].end,
                                              result.value.segments[i].text)
  {
    if audio == [] || size == [] then NoInput
    else match result
      case None => Failed
      case Some(res) =>
        var root := Stem(audio);
        Saved(root + ".txt", res.text, root + ".json", ProjectSegments(res.segments))
  }

  /**
   * The JSON written for a file picked from a folder is, in that folder,
   * the name the pending check looks for.
   */
  lemma OutputMatchesPendingCheck(folder: string, f: string)
    requires '/' !in f
    ensures Stem(Join(folder, f)) + ".json" == Join(folder, TranscriptName(f))
  {
    SplitExtJoin(folder, f);
    SplitExtRootRelative(f);
    JoinThenAppend(folder, Stem(f), ".json");
  }
}
