/**
 * The size-targeted compressor: it leaves files within the budget alone and
 * otherwise re-encodes at the bitrate that makes the estimated size fit,
 * never below a minimum, writing `<root>.compressed<ext>` beside the input.
 */
module CompressMp3 {
  import opened Wrappers
  import opened Text
  import opened PyPath
  import opened Listing
  import opened Menu

  const MiB := 1024 * 1024
  /** `target_mb=24.5` megabytes, exactly. */
  const DefaultLimitBytes := 49 * MiB / 2
  const DefaultMinKbps := 32

  lemma DefaultLimit()
    ensures DefaultLimitBytes == 25690112
  {
  }

  // ---- the bitrate plan (lines 63-74) ---------------------------------------------

  /**
   * `max((limit_bytes * 8) / duration_sec / 1000, min_bitrate_kbps)` truncated
   * by `int`. With the duration in ms the quotient is `limit * 8 / lenMs`
   * kilobits per second, and truncating the maximum with a whole minimum is
   * the maximum of the truncation.
   */
  function PlanBitrateKbps(limitBytes: nat, lenMs: nat, minKbps: nat): (r: nat)
    requires lenMs > 0
    ensures r >= minKbps
    ensures r == minKbps || r * lenMs <= 8 * limitBytes
    ensures 8 * limitBytes < (r + 1) * lenMs
  {
    var fit := limitBytes * 8 / lenMs;
    if fit >= minKbps then fit else minKbps
  }

  /** Above the minimum, the plan is the largest whole rate whose estimate fits the budget. */
  lemma PlanIsLargestFit(limitBytes: nat, lenMs: nat, minKbps: nat, k: nat)
    requires lenMs > 0
    requires k * lenMs <= 8 * limitBytes
    ensures k <= PlanBitrateKbps(limitBytes, lenMs, minKbps)
  {
    var r := PlanBitrateKbps(limitBytes, lenMs, minKbps);
    FewerUnits(k, r + 1, lenMs);
  }

  /** Fewer units of a positive size: `k * n < m * n` gives `k < m`. */
  lemma FewerUnits(k: nat, m: nat, n: nat)
    requires n > 0 && k * n < m * n
    ensures k < m
  {
    assert (m - k) * n == m * n - k * n;
    PositiveFactor(m - k, n);
  }

  lemma PositiveFactor(x: int, n: int)
    requires n > 0 && x * n > 0
    ensures x > 0
  {
  }

  /** The default budget over one hour gives 57 kbps. */
  lemma OneHourAtDefault()
    ensures PlanBitrateKbps(DefaultLimitBytes, 3600000, DefaultMinKbps) == 57
  {
    assert DefaultLimitBytes * 8 / 3600000 == 57;
  }

  /** A 1 MiB budget over one hour falls back to the 32 kbps floor. */
  lemma OneHourAtOneMiB()
    ensures PlanBitrateKbps(MiB, 3600000, DefaultMinKbps) == 32
  {
    assert MiB * 8 / 3600000 == 2;
  }

  /** `f"{int(final_bitrate_kbps)}k"`. */
  function BitrateArg(kbps: nat): (r: string)
    ensures |r| >= 2 && r[|r| - 1] == 'k'
  {
    NatToString(kbps) + "k"
  }

  /** The argument reads back as the planned rate followed by `k`. */
  lemma BitrateArgRoundTrip(kbps: nat)
    ensures ParseInt(BitrateArg(kbps)[..|BitrateArg(kbps)| - 1]) == Some(kbps)
  {
    assert BitrateArg(kbps)[..|BitrateArg(kbps)| - 1] == NatToString(kbps);
    ParseIntOfNatToString(kbps);
  }

  // ---- output path (lines 80-81) ------------------------------------------------------

  /** `f"{base_name}.compressed{ext}"` with `base_name, ext = splitext(input_path)`. */
  function CompressedOutputPath(inputPath: string): (r: string)
    ensures r != inputPath
    ensures EndsWith(r, SplitExt(inputPath).1)
    ensures StartsWith(r, SplitExt(inputPath).0)
  {
    var (root, ext) := SplitExt(inputPath);
    EndsWithConcat(root + ".compressed", ext);
    assert (root + ".compressed" + ext)[..|root|] == root;
    assert |root + ".compressed" + ext| == |inputPath| + 11;
    root + ".compressed" + ext
  }

  lemma CompressedMp3Name(stem: string)
    requires '/' !in stem && !AllDots(stem)
    ensures CompressedOutputPath(stem + ".mp3") == stem + ".compressed" + ".mp3"
  {
    var e := ".mp3";
    assert e[1..] == "mp3";
    assert '.' !in e[1..];
    NotInConcat(stem, e, '/');
    SplitExtKnown(stem, e);
  }

  // ---- compress_to_target_size (lines 37-92) --------------------------------------------

  datatype CompressOutcome =
    | NoInput                               // empty path
    | WithinLimit                           // small enough: nothing written
    | Failed                                // an exception: unreadable size or undecodable audio
    | ZeroDuration                          // decoded length 0: stop before dividing
    | Compressed(output: string, bitrate: string)

  /**
   * The decisions of `compress_to_target_size`. `sizeBytes` is what
   * `os.path.getsize` returns and `decodedMs` the decoded length; `None`
   * stands for the exception each can raise.
   */
  function Compress(inputPath: string, sizeBytes: Option<nat>, decodedMs: Option<nat>,
                    limitBytes: nat, minKbps: nat): (r: CompressOutcome)
    ensures r.NoInput? <==> inputPath == []
    ensures r.Failed? <==>
              inputPath != [] && (sizeBytes.None? || (sizeBytes.value > limitBytes && decodedMs.None?))
    ensures r.WithinLimit? <==> inputPath != [] && sizeBytes.Some? && sizeBytes.value <= limitBytes
    ensures r.ZeroDuration? <==>
              inputPath != [] && sizeBytes.Some? && sizeBytes.value > limitBytes &&
              decodedMs == Some(0)
    ensures r.Compressed? <==>
              inputPath != [] && sizeBytes.Some? && sizeBytes.value > limitBytes &&
              decodedMs.Some? && decodedMs.value > 0
    ensures r.Compressed? ==>
              r.output == CompressedOutputPath(inputPath) && r.output != inputPath &&
              r.bitrate == BitrateArg(PlanBitrateKbps(limitBytes, decodedMs.value, minKbps))
  {
    if inputPath == [] then NoInput
    else match sizeBytes
      case None => Failed
      case Some(size) =>
        if size <= limitBytes then WithinLimit
        else match decodedMs
          case None => Failed
          case Some(lenMs) =>
            if lenMs == 0 then ZeroDuration
            else Compressed(CompressedOutputPath(inputPath),
                            BitrateArg(PlanBitrateKbps(limitBytes, lenMs, minKbps)))
  }

  /** Whatever is compressed is encoded at no less than the minimum rate. */
  lemma CompressedAtLeastMinimum(inputPath: string, sizeBytes: Option<nat>, decodedMs: Option<nat>,
                                 limitBytes: nat, minKbps: nat)
    requires Compress(inputPath, sizeBytes, decodedMs, limitBytes, minKbps).Compressed?
    ensures exists k: nat :: k >= minKbps &&
              Compress(inputPath, sizeBytes, decodedMs, limitBytes, minKbps).bitrate == BitrateArg(k)
  {
    var k := PlanBitrateKbps(limitBytes, decodedMs.value, minKbps);
    assert k >= minKbps;
  }

  // ---- select_any_mp3_file (lines 4-35) --------------------------------------------------

  /** Line 17: an original mp3, not one of the script's own outputs. */
  predicate IsSourceMp3(file: string) {
    EndsWith(file, ".mp3") && !StartsWith(file, "compressed_") && !EndsWith(file, ".ad_free.mp3")
  }

  /**
   * The paths of line 18 relative to the downloads folder, for a walk whose
   * roots are given relative to that folder (`""` for the folder itself).
   */
  function SourceMp3sOf(rel: string, files: seq<string>): seq<string> {
    if files == [] then []
    else SourceMp3sOf(rel, files[..|files| - 1])
         + (if IsSourceMp3(files[|files| - 1]) then [Join(rel, files[|files| - 1])] else [])
  }

  function SourceMp3s(walk: seq<WalkStep>): seq<string> {
    if walk == [] then []
    else SourceMp3s(walk[..|walk| - 1]) + SourceMp3sOf(walk[|walk| - 1].root, walk[|walk| - 1].files)
  }

  lemma {:induction false} SourceMp3sOfFiltered(rel: string, files: seq<string>)
    ensures forall x :: x in SourceMp3sOf(rel, files) ==>
              exists f :: f in files && IsSourceMp3(f) && x == Join(rel, f)
    decreases |files|
  {
    if files != [] {
      var init := files[..|files| - 1];
      SourceMp3sOfFiltered(rel, init);
      forall x | x in SourceMp3sOf(rel, files)
        ensures exists f :: f in files && IsSourceMp3(f) && x == Join(rel, f)
      {
        if x in SourceMp3sOf(rel, init) {
          var f :| f in init && IsSourceMp3(f) && x == Join(rel, f);
          assert f in files;
        } else {
          assert files[|files| - 1] in files;
        }
      }
    }
  }

  /** The nested loop of lines 13-19. */
  method CollectSourceMp3s(walk: seq<WalkStep>) returns (found: seq<string>)
    ensures found == SourceMp3s(walk)
  {
    found := [];
    var d := 0;
    while d < |walk|
      invariant 0 <= d <= |walk|
      invariant found == SourceMp3s(walk[..d])
    {
      var step := walk[d];
      var k := 0;
      while k < |step.files|
        invariant 0 <= k <= |step.files|
        invariant found == SourceMp3s(walk[..d]) + SourceMp3sOf(step.root, step.files[..k])
      {
        var file := step.files[k];
        assert step.files[..k + 1][..k] == step.files[..k];
        if IsSourceMp3(file) {
          found := found + [Join(step.root, file)];
        }
        k := k + 1;
      }
      assert step.files[..k] == step.files;
      assert walk[..d + 1][..d] == walk[..d];
      d := d + 1;
    }
    assert walk[..d] == walk;
  }

  /**
   * `select_any_mp3_file`. `baseListing` is `os.listdir(base_dir)`, `None`
   * when the folder is missing. The menu prints only the first 30 entries
   * but the choice indexes the whole list, wrapping for 0 and negatives.
   */
  method SelectAnyMp3(baseDir: string, baseListing: Option<seq<string>>, walk: seq<WalkStep>,
                      choice: Option<int>) returns (r: Option<string>)
    ensures r == if baseListing.None? || baseListing.value == [] then None
                 else match PickOneBased(SourceMp3s(walk), choice)
                   case None => None
                   case Some(rel) => Some(Join(baseDir, rel))
    ensures r.Some? ==> exists rel :: rel in SourceMp3s(walk) && r.value == Join(baseDir, rel)
  {
    if baseListing.None? || baseListing.value == [] {
      return None;
    }
    var files := CollectSourceMp3s(walk);
    if files == [] {
      return None;
    }
    var picked := PickOneBased(files, choice);
    if picked.None? {
      return None;
    }
    r := Some(Join(baseDir, picked.value));
  }

  /**
   * Entry 31 and beyond are not shown, yet typing 31 picks the 31st mp3 of
   * the walk, and 0 the last; by its `ensures`, `SelectAnyMp3` then returns
   * that file joined to the base folder.
   */
  lemma UnlistedEntryPickable(walk: seq<WalkStep>)
    requires |SourceMp3s(walk)| > 30
    ensures PickOneBased(SourceMp3s(walk), Some(31)) == Some(SourceMp3s(walk)[30])
    ensures PickOneBased(SourceMp3s(walk), Some(0)) == Some(SourceMp3s(walk)[|SourceMp3s(walk)| - 1])
  {
  }

  /**
   * The compressor's output for an original `<stem>.mp3` is itself an
   * original mp3 by line 17, so it is offered for compression again.
   */
  lemma CompressedOutputReoffered(stem: string)
    requires '/' !in stem && !AllDots(stem)
    requires IsSourceMp3(stem + ".mp3")
    ensures IsSourceMp3(CompressedOutputPath(stem + ".mp3"))
  {
    CompressedMp3Name(stem);
    EndsWithConcat(stem + ".compressed", ".mp3");
    CompressedNotAdFree(stem);
    CompressedNoPrefix(stem);
  }

  lemma CompressedNotAdFree(stem: string)
    ensures !EndsWith(stem + ".compressed" + ".mp3", ".ad_free.mp3")
  {
    var out := stem + ".compressed" + ".mp3";
    assert out[|out| - 12] == ".compressed"[3] == 'm';
    EndingsDiffer(out, ".ad_free.mp3", 12);
  }

  lemma CompressedNoPrefix(stem: string)
    requires !StartsWith(stem + ".mp3", "compressed_")
    ensures !StartsWith(stem + ".compressed" + ".mp3", "compressed_")
  {
    var cp := "compressed_";
    var out := stem + ".compressed" + ".mp3";
    if |stem| >= |cp| {
      StartsWithConcatLong(stem + ".compressed", ".mp3", cp);
      StartsWithConcatLong(stem, ".compressed", cp);
      StartsWithConcatLong(stem, ".mp3", cp);
    } else {
      assert out[..|cp|][|stem|] == '.';
      assert cp[|stem|] != '.';
    }
  }
}
