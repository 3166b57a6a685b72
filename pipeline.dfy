/**
 * How the stages' file names fit together: what one script writes and
 * what the next one looks for. Each script is standalone; these lemmas
 * state what their naming rules imply when they share a show folder.
 */
module Pipeline {
  import opened Text
  import opened PyPath
  import EditMp3
  import CompressMp3
  import WhisperCpp
  import TranscribeLocal
  import GroqApi
  import GemmaAnalyze
  import GoogleApi

  /** The classifiers write `.ads.json`, which the splicer's `.analysis.json` filter never matches. */
  lemma ClassifierOutputNotAnalysis(s: string)
    ensures !EndsWith(s + ".ads.json", EditMp3.AnalysisSuffix)
  {
    EndingsDiffer(s + ".ads.json", EditMp3.AnalysisSuffix, 7);
  }

  /** whisper.cpp writes `<name>.mp3.json`, which is never an analysis file either. */
  lemma CppTranscriptNotAnalysis(audio: string)
    requires EndsWith(audio, ".mp3")
    ensures !EndsWith(WhisperCpp.TranscriptOf(audio), EditMp3.AnalysisSuffix)
  {
    var t := audio + ".json";
    assert t[|t| - 6] == audio[|audio| - 1];
    assert audio[|audio| - 1] == ".mp3"[3];
    EndingsDiffer(t, EditMp3.AnalysisSuffix, 6);
  }

  /** Local Whisper does write a name the splicer accepts, for an episode called `<x>.analysis.mp3`. */
  lemma LocalTranscriptCanBeAnalysis(x: string)
    requires '/' !in x
    ensures TranscribeLocal.TranscriptName(x + ".analysis.mp3") == x + EditMp3.AnalysisSuffix
  {
    var root := x + ".analysis";
    assert root[|root| - 1] == 's';
    assert !AllDots(root) by {
      RootNotAllDots(root);
    }
    assert root + ".mp3" == x + ".analysis.mp3";
    assert '/' !in root + ".mp3" by {
      assert forall c :: c in root + ".mp3" ==> c in x || c in ".analysis.mp3";
    }
    assert ".mp3"[1..] == "mp3";
    SplitExtKnown(root, ".mp3");
  }

  lemma {:induction false} RootNotAllDots(s: string)
    requires s != [] && s[|s| - 1] != '.'
    ensures !AllDots(s)
    decreases |s|
  {
    if s[0] == '.' {
      assert s[1..][|s[1..]| - 1] == s[|s| - 1];
      RootNotAllDots(s[1..]);
    }
  }

  /**
   * Local Whisper's `<stem>.json` is not whisper.cpp's `<stem>.mp3.json`, so
   * an episode transcribed locally is still pending for whisper.cpp.
   */
  lemma LocalTranscriptLeavesCppPending(listing: seq<string>, stem: string)
    requires '/' !in stem && !AllDots(stem)
    requires stem + ".mp3" in WhisperCpp.Pending(listing)
    ensures TranscribeLocal.TranscriptName(stem + ".mp3") == stem + ".json"
    ensures stem + ".mp3" in WhisperCpp.Pending(listing + [stem + ".json"])
  {
    var f := stem + ".mp3";
    assert '/' !in f by {
      assert forall c :: c in f ==> c in stem || c in ".mp3";
    }
    assert ".mp3"[1..] == "mp3";
    SplitExtKnown(stem, ".mp3");
    assert |stem + ".json"| != |f + ".json"|;
    assert f + ".json" !in listing + [stem + ".json"];
  }

  /** Local Whisper also writes the `<stem>.txt` Groq checks for, so Groq no longer offers the episode. */
  lemma LocalTextSatisfiesGroq(listing: seq<string>, f: string)
    ensures GroqApi.TextName(f) == Stem(f) + ".txt"
    ensures f !in GroqApi.Pending(listing + [Stem(f) + ".txt"])
  {
    GroqApi.TranscribedLeavesPending(listing, f);
  }

  /** whisper.cpp's transcript is a candidate for both classifiers. */
  lemma CppTranscriptIsCandidate(audio: string)
    requires EndsWith(audio, ".mp3")
    ensures GemmaAnalyze.IsTranscript(WhisperCpp.TranscriptOf(audio))
    ensures GoogleApi.IsTranscript(WhisperCpp.TranscriptOf(audio))
  {
    var t := audio + ".json";
    EndsWithConcat(audio, ".json");
    assert t[|t| - 6] == audio[|audio| - 1];
    assert audio[|audio| - 1] == ".mp3"[3];
    EndingsDiffer(t, ".ads.json", 6);
  }

  /**
   * For a transcript `<s>.json` whose `<s>` is not only dots, both
   * classifiers save to `<s>.ads.json` in the transcript's folder.
   */
  lemma ClassifiersAgreeOnOutput(folder: string, s: string)
    requires '/' !in s && !AllDots(s)
    ensures GemmaAnalyze.AdsPath(Join(folder, s + ".json")) == Join(folder, s + ".ads.json")
    ensures GoogleApi.OutputPath(folder, s + ".json") == Join(folder, s + ".ads.json")
  {
    GemmaAnalyze.AdsPathOfTranscript(folder, s);
    GoogleApi.OutputPathOfTranscript(s);
  }

  /** They part ways on `..json`: `splitext` skips the leading dots, `pathlib` does not. */
  lemma ClassifiersDisagreeOnDotDotJson()
    ensures Stem("." + ".json") + ".ads.json" == "." + ".json" + ".ads.json"
    ensures WithSuffix("." + ".json", ".ads.json") == "." + ".ads.json"
  {
    var e := ".json";
    assert e[1..] == "json";
    NotInConcat(".", e, '/');
    SplitExtKnown(".", e);
    assert AllDots(".");
    LastDot(".", e);
    var p := "." + e;
    assert p[1..] == e;
    assert p[..|p| - |e|] == ".";
  }

  /**
   * The splicer's `<stem>_no_ads.mp3` is offered by the compressor whenever
   * the original was, except for an episode called `compressed.mp3`.
   */
  lemma NoAdsOutputCompressible(stem: string)
    requires CompressMp3.IsSourceMp3(stem + ".mp3")
    requires stem != "compressed"
    ensures CompressMp3.IsSourceMp3(stem + EditMp3.NoAdsExt)
  {
    var out := stem + EditMp3.NoAdsExt;
    EndsWithConcatLong(stem, EditMp3.NoAdsExt, ".mp3");
    assert EditMp3.NoAdsExt[|EditMp3.NoAdsExt| - 4..] == ".mp3";
    assert out[|out| - 11] == '_';
    EndingsDiffer(out, ".ad_free.mp3", 11);
    var cp := "compressed_";
    if |stem| >= |cp| {
      StartsWithConcatLong(stem, EditMp3.NoAdsExt, cp);
      StartsWithConcatLong(stem, ".mp3", cp);
    } else if |stem| == |cp| - 1 {
      assert out[..|cp|] == stem + "_";
      assert stem != cp[..|cp| - 1];
    } else {
      assert out[..|cp|][|stem|] == '_';
      assert cp[|stem|] != '_';
    }
  }

  lemma NoAdsOfCompressedNotOffered()
    ensures CompressMp3.IsSourceMp3("compressed.mp3")
    ensures !CompressMp3.IsSourceMp3("compressed" + EditMp3.NoAdsExt)
  {
    assert "compressed.mp3"[..11][10] == '.';
    assert ("compressed" + EditMp3.NoAdsExt)[..11] == "compressed_";
  }
}
