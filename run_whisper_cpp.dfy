/**
 * Transcription through the whisper.cpp command-line program: pick a show
 * and an mp3 that has no `<name>.mp3.json` transcript yet, pick a model size,
 * and run `whisper-cli` with JSON output, which lands at `<audio>.json`.
 */
module WhisperCpp {
  import opened Wrappers
  import opened Text
  import opened PyPath
  import opened Seqs
  import opened Menu
  import opened Listing

  /** The transcript whisper.cpp writes for `audio`: `audio + ".json"`. */
  function TranscriptOf(audio: string): string {
    audio + ".json"
  }

  predicate Untranscribed(listing: seq<string>, f: string) {
    EndsWith(f, ".mp3") && TranscriptOf(f) !in listing
  }

  /** Line 35: the mp3 names of a show folder without a transcript beside them, in listing order. */
  function Pending(listing: seq<string>): (r: seq<string>)
    ensures forall f :: f in r <==> f in listing && EndsWith(f, ".mp3") && f + ".json" !in listing
  {
    Filter(listing, f => Untranscribed(listing, f))
  }

  /**
   * Once the transcript of `f` exists, the pending list is the old one
   * without `f`, and nothing else changes.
   */
  lemma TranscribedLeavesPending(listing: seq<string>, f: string)
    ensures Pending(listing + [TranscriptOf(f)]) == Filter(Pending(listing), g => g != f)
    ensures f !in Pending(listing + [TranscriptOf(f)])
  {
    var after := listing + [TranscriptOf(f)];
    FilterAppend(listing, [TranscriptOf(f)], g => Untranscribed(after, g));
    assert !EndsWith(TranscriptOf(f), ".mp3") by {
      EndsWithConcat(f, ".json");
      assert TranscriptOf(f)[|TranscriptOf(f)| - 1] == 'n';
    }
    assert Filter([TranscriptOf(f)], g => Untranscribed(after, g)) == [];
    forall g | g in listing
      ensures Untranscribed(after, g) == (Untranscribed(listing, g) && g != f)
    {
      assert TranscriptOf(g) == TranscriptOf(f) ==> g == f by {
        if TranscriptOf(g) == TranscriptOf(f) {
          assert g == TranscriptOf(g)[..|g|];
        }
      }
    }
    FilterBoth(listing, g => Untranscribed(listing, g), g => g != f,
               g => Untranscribed(after, g));
    assert listing + [TranscriptOf(f)] == after;
  }

  /** `select_mp3_file`: a show folder under `searchDir`, then an untranscribed mp3 in it. */
  function SelectMp3File(searchDir: string, base: Option<seq<Entry>>, showChoice: Option<int>,
                         fileChoice: Option<int>): (r: Option<string>)
    ensures r.Some? ==>
              base.Some? &&
              exists show, f :: show in base.value && show.Dir? && f in Pending(show.files) &&
                                r.value == Join(Join(searchDir, show.name), f)
    ensures (base.Some? && PickOneBased(Shows(base.value), showChoice).Some? &&
             Pending(PickOneBased(Shows(base.value), showChoice).value.files) == []) ==> r.None?
    ensures r.Some? <==>
              base.Some? && PickOneBased(Shows(base.value), showChoice).Some? &&
              PickOneBased(Pending(PickOneBased(Shows(base.value), showChoice).value.files), fileChoice).Some?
    ensures r.Some? ==>
              r.value == Join(Join(searchDir, PickOneBased(Shows(base.value), showChoice).value.name),
                              PickOneBased(Pending(PickOneBased(Shows(base.value), showChoice).value.files), fileChoice).value)
  {
    PickEpisode(searchDir, base, showChoice, Pending, fileChoice)
  }

  // ---- select_model_size (lines 51-62) ------------------------------------------------

  const Sizes := ["tiny", "base", "small", "medium"]

  /** `sizes[choice - 1]`, or `"base"` when the input is not a number or out of range. */
  function SelectModelSize(choice: Option<int>): (r: string)
    ensures r in Sizes
    ensures choice.Some? && 1 <= choice.value <= 4 ==> r == Sizes[choice.value - 1]
    ensures choice.None? || choice.value > 4 || choice.value < -3 ==> r == "base"
  {
    PickOneBased(Sizes, choice).GetOr("base")
  }

  /** Typing 0 wraps to the last entry, `"medium"`, rather than falling back. */
  lemma ZeroPicksMedium()
    ensures SelectModelSize(Some(0)) == "medium"
    ensures SelectModelSize(Some(-1)) == "small"
  {
  }

  // ---- transcribe_with_whisper_cpp (lines 64-125) ------------------------------------------

  function WhisperCppDir(home: string): string {
    Join(home, "whisper.cpp")
  }

  function ExecutablePath(home: string): (r: string)
    ensures r == DirPrefix(home) + "whisper.cpp" + "/" + "build" + "/" + "bin" + "/" + "whisper-cli"
  {
    var b := Join(WhisperCppDir(home), "build");
    var bin := Join(b, "bin");
    ExecutableSteps(home);
    Join(bin, "whisper-cli")
  }

  lemma ExecutableSteps(home: string)
    ensures Join(Join(Join(WhisperCppDir(home), "build"), "bin"), "whisper-cli")
            == DirPrefix(home) + "whisper.cpp" + "/" + "build" + "/" + "bin" + "/" + "whisper-cli"
  {
    var d := WhisperCppDir(home);
    JoinName(home, "whisper.cpp");
    var b := Join(d, "build");
    JoinName(d, "build");
    var bin := Join(b, "bin");
    JoinName(b, "bin");
    JoinName(bin, "whisper-cli");
  }

  /** `<whisper.cpp>/models/ggml-<size>.bin`. */
  function ModelPath(home: string, size: string): (r: string)
    ensures r == DirPrefix(home) + "whisper.cpp" + "/" + "models" + "/" + ("ggml-" + size + ".bin")
  {
    var d := WhisperCppDir(home);
    JoinName(home, "whisper.cpp");
    var m := Join(d, "models");
    JoinName(d, "models");
    var file := "ggml-" + size + ".bin";
    assert file[0] == 'g';
    JoinRelative(m, file);
    Join(m, file)
  }

  datatype CppOutcome =
    | NoInput                               // no audio or no model size
    | NoExecutable(path: string)            // whisper-cli missing: nothing is run
    | NoModel(path: string)                 // the model file missing: nothing is run
    | Run(command: seq<string>, transcript: string)

  /** `home` is `~`; `existing` the set of paths that exist. */
  function TranscribeWithWhisperCpp(home: string, audio: string, size: string,
                                    existing: set<string>): (r: CppOutcome)
    ensures r.Run? <==>
              audio != [] && size != [] && ExecutablePath(home) in existing &&
              ModelPath(home, size) in existing
    ensures r.Run? ==>
              r.command == [ExecutablePath(home), "-m", ModelPath(home, size), "-f", audio,
                            "-l", "auto", "-oj"] &&
              r.transcript == TranscriptOf(audio)
    ensures r.NoModel? ==> ExecutablePath(home) in existing
  {
    if audio == [] || size == [] then NoInput
    else
      var exe := ExecutablePath(home);
      var model := ModelPath(home, size);
      if exe !in existing then NoExecutable(exe)
      else if model !in existing then NoModel(model)
      else Run([exe, "-m", model, "-f", audio, "-l", "auto", "-oj"], TranscriptOf(audio))
  }

  /**
   * The transcript of a file picked from a folder sits in that folder under
   * the name the pending check looks for.
   */
  lemma TranscriptBesideAudio(folder: string, f: string)
    requires f != [] && f[0] != '/'
    ensures TranscriptOf(Join(folder, f)) == Join(folder, TranscriptOf(f))
  {
    JoinAppend(folder, f, ".json");
  }
}
