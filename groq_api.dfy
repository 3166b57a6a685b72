/**
 * Transcription through the Groq API: an mp3 is pending until
 * `<stem>.txt` exists; a run needs `GROQ_API_KEY` and saves the returned
 * text to `<stem>.txt`.
 */
module GroqApi {
  import opened Wrappers
  import opened Text
  import opened PyPath
  import opened Seqs
  import opened Menu
  import opened Listing

  function TextName(f: string): string {
    Stem(f) + ".txt"
  }

  predicate Untranscribed(listing: seq<string>, f: string) {
    EndsWith(f, ".mp3") && TextName(f) !in listing
  }

  /** Line 20: the mp3 names without `<stem>.txt` beside them. */
  function Pending(listing: seq<string>): (r: seq<string>)
    ensures forall f :: f in r <==> f in listing && EndsWith(f, ".mp3") && Stem(f) + ".txt" !in listing
  {
    Filter(listing, f => Untranscribed(listing, f))
  }

  /** Writing `<stem>.txt` removes exactly the mp3 names with that stem. */
  lemma TranscribedLeavesPending(listing: seq<string>, f: string)
    ensures Pending(listing + [TextName(f)]) == Filter(Pending(listing), g => Stem(g) != Stem(f))
    ensures f !in Pending(listing + [TextName(f)])
  {
    var after := listing + [TextName(f)];
    FilterAppend(listing, [TextName(f)], g => Untranscribed(after, g));
    LastCharDiffers(Stem(f), ".txt", ".mp3");
    assert Filter([TextName(f)], g => Untranscribed(after, g)) == [];
    forall g | g in listing
      ensures Untranscribed(after, g) == (Untranscribed(listing, g) && Stem(g) != Stem(f))
    {
      if TextName(g) == TextName(f) {
        assert Stem(g) == TextName(g)[..|TextName(g)| - 4];
      }
    }
    FilterBoth(listing, g => Untranscribed(listing, g), g => Stem(g) != Stem(f),
               g => Untranscribed(after, g));
  }

  /** `select_mp3_file`: a show folder, then one of its pending mp3 files; otherwise `None`. */
  function SelectMp3File(baseDir: string, base: Option<seq<Entry>>, showChoice: Option<int>,
                         fileChoice: Option<int>): (r: Option<string>)
    ensures r.Some? ==>
              base.Some? &&
              exists show, f :: show in base.value && show.Dir? && f in Pending(show.files) &&
                                r.value == Join(Join(baseDir, show.name), f)
    ensures (base.Some? && PickOneBased(Shows(base.value), showChoice).Some? &&
             Pending(PickOneBased(Shows(base.value), showChoice).value.files) == []) ==> r.None?
    ensures r.Some? <==>
              base.Some? && PickOneBased(Shows(base.value), showChoice).Some? &&
              PickOneBased(Pending(PickOneBased(Shows(base.value), showChoice).value.files), fileChoice).Some?
    ensures r.Some? ==>
              r.value == Join(Join(baseDir, PickOneBased(Shows(base.value), showChoice).value.name),
                              PickOneBased(Pending(PickOneBased(Shows(base.value), showChoice).value.files), fileChoice).value)
  {
    PickEpisode(baseDir, base, showChoice, Pending, fileChoice)
  }

  datatype GroqOutcome =
    | NoInput
    | NoApiKey                              // stops before any call or write
    | Failed                                // the API call or the write raised
    | Saved(txtPath: string, text: string)

  /** `apiKey` is `os.getenv("GROQ_API_KEY")`; `reply` the transcription text, `None` if the call raised. */
  function TranscribeWithGroq(audio: string, apiKey: Option<string>, reply: Option<string>): (r: GroqOutcome)
    ensures audio != [] && (apiKey.None? || apiKey.value == []) ==> r.NoApiKey?
    ensures r.Saved? <==> audio != [] && apiKey.Some? && apiKey.value != [] && reply.Some?
    ensures r.Saved? ==> r.txtPath == TextName(audio) && r.text == reply.value
  {
    if audio == [] then NoInput
    else if apiKey.None? || apiKey.value == [] then NoApiKey
    else match reply
      case None => Failed
      case Some(text) => Saved(Stem(audio) + ".txt", text)
  }

  /** The saved text of a file picked from a folder is the name the pending check looks for. */
  lemma OutputMatchesPendingCheck(folder: string, f: string)
    requires '/' !in f
    ensures TextName(Join(folder, f)) == Join(folder, TextName(f))
  {
    SplitExtJoin(folder, f);
    SplitExtRootRelative(f);
    JoinThenAppend(folder, Stem(f), ".txt");
  }
}
