/**
 * Ad classification through OpenRouter: pick a transcript (`*.json` that
 * is not `*.ads.json`), send it, and save whatever JSON comes back to
 * `<stem>.ads.json` before looking at its `ads` entry.
 */
module GemmaAnalyze {
  import opened Wrappers
  import opened Text
  import opened PyPath
  import opened Seqs
  import opened Menu
  import opened Listing
  import opened JsonValue

  predicate IsTranscript(f: string) {
    EndsWith(f, ".json") && !EndsWith(f, ".ads.json")
  }

  /** Line 19. */
  function Transcripts(listing: seq<string>): (r: seq<string>)
    ensures forall f :: f in r <==> f in listing && EndsWith(f, ".json") && !EndsWith(f, ".ads.json")
  {
    Filter(listing, IsTranscript)
  }

  function SelectJsonFile(baseDir: string, base: Option<seq<Entry>>, showChoice: Option<int>,
                          fileChoice: Option<int>): (r: Option<string>)
    ensures r.Some? ==>
              base.Some? &&
              exists show, f :: show in base.value && show.Dir? && f in Transcripts(show.files) &&
                                r.value == Join(Join(baseDir, show.name), f)
    ensures r.Some? <==>
              base.Some? && PickOneBased(Shows(base.value), showChoice).Some? &&
              PickOneBased(Transcripts(PickOneBased(Shows(base.value), showChoice).value.files), fileChoice).Some?
    ensures r.Some? ==>
              r.value == Join(Join(baseDir, PickOneBased(Shows(base.value), showChoice).value.name),
                              PickOneBased(Transcripts(PickOneBased(Shows(base.value), showChoice).value.files), fileChoice).value)
  {
    PickEpisode(baseDir, base, showChoice, Transcripts, fileChoice)
  }

  /** Lines 83-84: `os.path.splitext(path)[0] + ".ads.json"`. */
  function AdsPath(transcript: string): (r: string)
    ensures EndsWith(r, ".ads.json")
  {
    EndsWithConcat(Stem(transcript), ".ads.json");
    Stem(transcript) + ".ads.json"
  }

  /** `ep.mp3.json` in a folder becomes `ep.mp3.ads.json` in that folder. */
  lemma AdsPathOfTranscript(folder: string, s: string)
    requires '/' !in s && !AllDots(s)
    ensures AdsPath(Join(folder, s + ".json")) == Join(folder, s + ".ads.json")
  {
    assert '/' !in s + ".json" by {
      assert forall c :: c in s + ".json" ==> c in s || c in ".json";
    }
    assert ".json"[1..] == "json";
    SplitExtKnown(s, ".json");
    SplitExtJoin(folder, s + ".json");
    assert s == [] || s[0] in s;
    JoinThenAppend(folder, s, ".ads.json");
  }

  /**
   * The classifier's own output is never offered as a transcript, but the
   * transcript it came from still is: writing the output does not change
   * the candidates.
   */
  lemma OutputLeavesCandidates(listing: seq<string>, s: string)
    ensures !IsTranscript(s + ".ads.json")
    ensures Transcripts(listing + [s + ".ads.json"]) == Transcripts(listing)
  {
    EndsWithConcat(s, ".ads.json");
    FilterAppend(listing, [s + ".ads.json"], IsTranscript);
    assert Filter([s + ".ads.json"], IsTranscript) == [];
    assert Transcripts(listing) + [] == Transcripts(listing);
  }

  datatype GemmaOutcome =
    | NoInput
    | TranscriptUnreadable                  // reading or joining the segments raised
    | NoApiKey                              // stops before any call
    | CallFailed                            // the API call raised (or the reply was not text)
    | NotJson                               // `json.loads` raised: nothing written
    | Written(path: string, value: Json, ads: Option<Json>)

  /**
   * `analyze_transcript_with_gemma`. `transcript` is the joined segment text
   * (`None` when reading or joining raised), `reply` the model's content
   * (`None` when the call raised), and `parse` stands for `json.loads`. The
   * file is written for every parsed value; `ads` is then `None` when the
   * value is not an object and `.get` raises.
   */
  function AnalyzeTranscriptWithGemma(path: string, transcript: Option<string>, apiKey: Option<string>,
                                      reply: Option<string>, parse: string -> Option<Json>): (r: GemmaOutcome)
    ensures r.Written? <==>
              path != [] && transcript.Some? && apiKey.Some? && apiKey.value != [] &&
              reply.Some? && parse(reply.value).Some?
    ensures r.Written? ==>
              r.path == AdsPath(path) && r.value == parse(reply.value).value &&
              r.ads == AdsField(r.value)
    ensures r.NoInput? <==> path == []
    ensures r.TranscriptUnreadable? <==> path != [] && transcript.None?
    ensures r.NoApiKey? <==> path != [] && transcript.Some? && (apiKey.None? || apiKey.value == [])
    ensures r.CallFailed? <==> path != [] && transcript.Some? && apiKey.Some? && apiKey.value != [] && reply.None?
    ensures r.NotJson? <==>
              path != [] && transcript.Some? && apiKey.Some? && apiKey.value != [] &&
              reply.Some? && parse(reply.value).None?
  {
    if path == [] then NoInput
    else if transcript.None? then TranscriptUnreadable
    else if apiKey.None? || apiKey.value == [] then NoApiKey
    else match reply
      case None => CallFailed
      case Some(content) =>
        match parse(content)
        case None => NotJson
        case Some(value) => Written(AdsPath(path), value, AdsField(value))
  }

  /** An object without `ads` is saved and read as marking no ads. */
  lemma MissingAdsMeansNone(fields: map<string, Json>)
    requires "ads" !in fields
    ensures AdsField(Object(fields)) == Some(Array([]))
  {
  }
}
