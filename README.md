# podcast-ad-remover, modelled in Dafny

podcast-ad-remover is a set of command-line scripts that together strip
advertising from podcast episodes. The scripts are

- a feed downloader: it reads an RSS feed and saves episodes as
  `podcast_downloads/<show>/<date> - <title>.mp3`;
- several transcribers: whisper.cpp, local Whisper, Groq, and the
  OpenAI-style test script, which compresses large files first;
- two classifiers: Gemma through OpenRouter, and Gemini. Each reads a
  transcript `.json` and writes the model's reply as `.ads.json`;
- a bitrate-targeting compressor;
- the splicer. It reads `<episode>.mp3.analysis.json` and writes
  `<episode>_no_ads.mp3`, keeping everything outside the listed ad
  intervals.

Each script decides what work is left by checking which sibling files
exist. This project gives each script's core, as one Dafny module per
script:

- the keep-piece sweep and its surrounding decisions;
- the bitrate planner;
- the artifact-naming and "pending" predicates;
- the menu index rules;
- the filename sanitiser, episode-count parse and filename builder;
- the download and skip decisions.

It also proves properties of all of these.

Shared modules model the parts of Python the scripts rely on:

- `Text`: `str.replace`, `int()`, `str.strip`, `f"{n}"`;
- `PyPath`: `os.path.join`, `splitext`, `basename`, `dirname`, and
  pathlib's `suffix` and `with_suffix`;
- `Seqs`: list comprehension filters;
- `Menu`: Python list indexing, including negative indices;
- `Listing`: the two-level show/episode menu;
- `JsonValue`: JSON values.

The module `Pipeline` proves facts relating one stage's outputs to the next
stage's inputs.

External effects become parameters:

- a directory listing is a sequence of names, and existence is membership;
- the user's typed answer is an `Option<int>` (`None` when `int()` raises);
- a decoded audio length is `Option<nat>` milliseconds;
- a model's reply is an optional string, and JSON parsing a given partial
  function;
- an HTTP download is a `Fetch` value: refused, or chunks with a flag
  saying whether the stream broke.

The downloader's disk is a class with `files` and `dirs` fields. Its
download methods change those fields step by step, as the source does.

Notes on behaviour the code has that a reader might not expect:

- The splicer sets the cursor to each ad's end (`app/edit_mp3.py:93`), not to
  the maximum end so far. Overlapping ads that follow one another still
  merge (`EditMp3.ChainedOverlapMerges`). An ad nested inside an earlier one
  moves the cursor back, however, so part of the outer ad is kept
  (`EditMp3.NestedAdSurvives`). Complement is therefore proved only for
  ads that follow one another (`EditMp3.KeepPiecesComplement`).
- The default 24.5 MiB budget over one hour gives 57 kbps
  (`CompressMp3.OneHourAtDefault`).
- The classifiers do not skip transcripts whose `.ads.json` already exists,
  so they are not idempotent. A transcript stays offered after it is
  classified (`GemmaAnalyze.OutputLeavesCandidates`).
- No script writes the `.analysis.json` the splicer reads. The classifiers
  write `.ads.json`, which is never an analysis file
  (`Pipeline.ClassifierOutputNotAnalysis`).
- The Gemini classifier stops with a traceback on every run that saves: the
  downloads folder is relative, so `relative_to(Path.cwd())` at
  `app/google_API.py:169` raises after the file is written
  (`GoogleApi.Main`). It also crashes on whisper.cpp's JSON output, an
  object rather than a segment list (`GoogleApi.ReadTranscript`).
- Local Whisper writes `ep.json`, while whisper.cpp looks for `ep.mp3.json`,
  so the one stage's output does not satisfy the other's pending check
  (`Pipeline.LocalTranscriptLeavesCppPending`).

## Model

| member | source | states |
|---|---|---|
| Menu.PickOneBased | app/run_whisper_cpp.py:28-32 | `options[choice-1]` as Python evaluates it: choices `1..n` pick that entry; `1-n..0` wrap to an entry counted from the end; anything else (or a non-number) gives nothing; a result is always an offered entry |
| Listing.Shows | app/transcribe_local.py:15 | the show menu is exactly the directory entries that are folders |
| Listing.PickEpisode | app/transcribe_local.py:11-43 | a pick exists exactly when the show choice picks a listed show folder and the file choice picks one of its candidate files, both by `PickOneBased`; it is then that file under `<base>/<show>`; no base folder, an empty one or one without show folders gives nothing |
| JsonValue.AdsField | app/test_gemma_analyze.py:92 | `.get('ads', [])`: a non-object has none (the call raises); a missing key gives the empty list; otherwise the stored value |
| Seqs.Filter | app/run_whisper_cpp.py:35 | a comprehension's filter keeps exactly the elements that satisfy the condition, in order |
| Seqs.FilterAppend | app/run_whisper_cpp.py:35 | filtering a concatenation filters each part |
| Seqs.FilterBoth | app/run_whisper_cpp.py:35 | filtering by a conjunction equals filtering twice |
| Text.ReplaceAllFirst | app/edit_mp3.py:52-54 | `str.replace` on text whose first occurrence of the pattern is at a known place replaces it and continues after it |
| Text.ReplaceAllAbsent | app/edit_mp3.py:52-54 | `str.replace` leaves text without the pattern unchanged |
| Text.ParseIntOfNatToString | app/compress_mp3.py:74 | `int(f"{n}") == n` for every natural number |
| Text.DigitsValueOfNatToString | app/rss_downloader_pro.py.py:48 | the digits written for `n` read back as `n` |
| Text.ParseInt | app/rss_downloader_pro.py.py:46-48 | `int()` accepts only text with something besides surrounding whitespace |
| PyPath.LastIndexOf | app/compress_mp3.py:80 | the position of the last occurrence of a character, or -1 when there is none |
| PyPath.JoinRelative | app/edit_mp3.py:19 | `os.path.join` of a folder and a relative name puts the name after the folder and one separator |
| PyPath.JoinEndsWith | app/edit_mp3.py:19 | a joined path ends with its last component |
| PyPath.SplitExt | app/compress_mp3.py:80 | `os.path.splitext`: root and extension concatenate to the path; the extension is empty or a dotted tail with no separator |
| PyPath.SplitExtAt | app/compress_mp3.py:80 | the split is at the last dot after the last separator, when a non-dot precedes it within that component |
| PyPath.SplitExtKnown | app/compress_mp3.py:80 | a name ending in a single-dot extension splits there, unless its root is all dots |
| PyPath.SplitExtJoin | app/transcribe_local.py:30 | splitting a joined path splits its last component only |
| PyPath.LastIndexOfAppend | app/compress_mp3.py:80 | the last occurrence in a concatenation is in the second part when it has one, otherwise in the first |
| PyPath.ComponentStart | app/test_whisper_interactive.py:22-23 | where the last component starts: after a separator, with no separator after it |
| PyPath.RStripSlashes | app/test_whisper_interactive.py:22 | the longest prefix not ending in a separator, with only separators removed |
| PyPath.PathSuffix | app/google_API.py:167 | pathlib's `suffix`: empty, or a dotted tail of at least two characters shorter than the name |
| PyPath.WithSuffix | app/google_API.py:167 | pathlib's `with_suffix` result ends with the new suffix |
| EditMp3.SortByStart | app/edit_mp3.py:82 | the ads sorted by start: sorted, the same multiset of ads, the same length |
| EditMp3.InsertByStart | app/edit_mp3.py:82 | inserting into a sorted list keeps it sorted and adds exactly that ad |
| EditMp3.SortSortedUnchanged | app/edit_mp3.py:82 | sorting already sorted ads changes nothing |
| EditMp3.ComputeKeepPieces | app/edit_mp3.py:82-97 | the loop's pieces are the specified sweep of the sorted ads; every piece has positive length; with proper ads they ascend with gaps between them |
| EditMp3.SweepStep | app/edit_mp3.py:89-93 | one iteration appends the gap before the ad when it starts after the cursor and moves the cursor to that ad's end |
| EditMp3.SweepDone | app/edit_mp3.py:96-97 | the tail piece after the final cursor completes the sweep |
| EditMp3.KeepPiecesNonEmpty | app/edit_mp3.py:91-97 | every keep piece has positive length, for any ads |
| EditMp3.GapsAscending | app/edit_mp3.py:84-93 | over sorted proper ads the gaps ascend with space between them and end before the final cursor |
| EditMp3.KeepPiecesAscending | app/edit_mp3.py:82-97 | if every ad ends after it starts, the pieces ascend strictly and are pairwise disjoint, in whatever order the ads came |
| EditMp3.GapsComplement | app/edit_mp3.py:84-93 | for ads that follow one another, a time after the cursor is in a gap exactly when it is before the final cursor and in no ad |
| EditMp3.KeepPiecesComplement | app/edit_mp3.py:84-97 | for ads that follow one another inside the audio, a time in the audio is kept exactly when it is in no ad |
| EditMp3.ChainedOverlapMerges | app/edit_mp3.py:80-97 | ads 10-20 s and 15-25 s in 30 s of audio keep `[0, 10000)` and `[25000, 30000)` ms |
| EditMp3.NestedAdSurvives | app/edit_mp3.py:93 | ads 0-20 s and 5-10 s keep `[10000, 30000)`, and the time 15 s, inside an ad, is kept |
| EditMp3.WholeEpisodeAd | app/edit_mp3.py:96-101 | an ad over the whole audio leaves nothing to keep |
| EditMp3.DerivedPaths | app/edit_mp3.py:52-54 | `<stem>.mp3.analysis.json` gives the audio `<stem>.mp3` and the output `<stem>_no_ads.mp3` |
| EditMp3.EveryOccurrenceReplaced | app/edit_mp3.py:54 | every `.mp3` in the path is replaced, including one in a folder name |
| EditMp3.AnalysisFilesSuffix | app/edit_mp3.py:15-19 | every collected file ends with `.analysis.json` |
| EditMp3.CollectAnalysisFiles | app/edit_mp3.py:15-19 | the walk loop collects the specified joined paths, each ending with `.analysis.json` |
| EditMp3.ChooseInRange | app/edit_mp3.py:30-39 | only choices `1..n` pick a file, the `n`-th for `n`; no wraparound |
| EditMp3.SelectAnalysisFile | app/edit_mp3.py:6-39 | no base folder gives nothing; otherwise the range-checked choice among the collected analysis files |
| EditMp3.Splice | app/edit_mp3.py:41-118 | audio is exported exactly when the path is given, the audio exists, the analysis has ads, the audio decodes and some piece is left; the export is the derived output path with the specified pieces; "no ads" exactly when the analysis lists none (a missing `ads` key reads as an empty list) |
| CompressMp3.DefaultLimit | app/compress_mp3.py:37-48 | the default 24.5 MiB budget is 25690112 bytes |
| CompressMp3.PlanBitrateKbps | app/compress_mp3.py:63-74 | the bitrate is at least the minimum; above the minimum it fits the budget; one more kbps would exceed it |
| CompressMp3.PlanIsLargestFit | app/compress_mp3.py:70-73 | every rate that fits the budget is at most the planned one |
| CompressMp3.OneHourAtDefault | app/compress_mp3.py:70-74 | the default budget over one hour gives 57 kbps |
| CompressMp3.OneHourAtOneMiB | app/compress_mp3.py:70-74 | 1 MiB over one hour falls back to the 32 kbps minimum |
| CompressMp3.BitrateArg | app/compress_mp3.py:74 | the bitrate argument ends with `k` after at least one character |
| CompressMp3.BitrateArgRoundTrip | app/compress_mp3.py:74 | the text before the `k` reads back as the planned number |
| CompressMp3.CompressedOutputPath | app/compress_mp3.py:80-81 | the output keeps the input's root and extension and always differs from the input |
| CompressMp3.CompressedMp3Name | app/compress_mp3.py:80-81 | `<stem>.mp3` compresses to `<stem>.compressed.mp3` |
| CompressMp3.Compress | app/compress_mp3.py:37-92 | one iff per outcome: no path given; a failed size or decode; within the budget; a zero duration, which stops before the division; otherwise the export goes to the output path at the planned bitrate |
| CompressMp3.CompressedAtLeastMinimum | app/compress_mp3.py:73 | a compression never uses a bitrate below the minimum |
| CompressMp3.SourceMp3sOfFiltered | app/compress_mp3.py:14-19 | every offered path is a listed file passing the source filter, joined under its folder |
| CompressMp3.CollectSourceMp3s | app/compress_mp3.py:13-19 | the walk loop collects the specified source files |
| CompressMp3.SelectAnyMp3 | app/compress_mp3.py:4-35 | a missing or empty folder gives nothing; otherwise the Python-indexed choice among all source files, joined under the base folder |
| CompressMp3.UnlistedEntryPickable | app/compress_mp3.py:26-31 | only 30 entries are shown, yet choice 31 picks the 31st mp3 of the walk and 0 the last, which `SelectAnyMp3` then returns under the base folder |
| CompressMp3.CompressedOutputReoffered | app/compress_mp3.py:17-81 | the compressor's own output passes its source filter, so it is offered again |
| WhisperCpp.Pending | app/run_whisper_cpp.py:35 | exactly the listed `.mp3` names whose `<name>.json` is not listed |
| WhisperCpp.TranscribedLeavesPending | app/run_whisper_cpp.py:35-111 | once `<audio>.json` exists that file leaves the pending list and nothing else changes |
| WhisperCpp.SelectMp3File | app/run_whisper_cpp.py:5-49 | a pick exists exactly when the show choice picks a listed show folder and the file choice picks one of its pending files, both by `PickOneBased`; it is then that file under `<search folder>/<show>`; no base folder, an empty one or one without show folders gives nothing |
| WhisperCpp.SelectModelSize | app/run_whisper_cpp.py:51-62 | choices 1-4 pick that size; a non-number, above 4 or below -3 falls back to `base`; the result is always a listed size |
| WhisperCpp.ZeroPicksMedium | app/run_whisper_cpp.py:59 | choice 0 wraps to `medium`, -1 to `small` |
| WhisperCpp.ExecutablePath | app/run_whisper_cpp.py:71-75 | the executable is `~/whisper.cpp/build/bin/whisper-cli` |
| WhisperCpp.ModelPath | app/run_whisper_cpp.py:76 | the model is `~/whisper.cpp/models/ggml-<size>.bin` |
| WhisperCpp.TranscribeWithWhisperCpp | app/run_whisper_cpp.py:64-125 | the command runs exactly when audio, size, executable and model are present; it is `[exe, -m, model, -f, audio, -l, auto, -oj]` and the transcript is `<audio>.json`; a missing model is reported only after the executable is found |
| WhisperCpp.TranscriptBesideAudio | app/run_whisper_cpp.py:35-111 | the transcript of a picked file is the name its pending check looks for in that folder |
| TranscribeLocal.Pending | app/transcribe_local.py:30 | exactly the listed `.mp3` names whose `<stem>.json` is not listed |
| TranscribeLocal.TranscribedLeavesPending | app/transcribe_local.py:30-85 | once `<stem>.json` exists, the files with that stem leave the pending list and nothing else changes |
| TranscribeLocal.SelectMp3File | app/transcribe_local.py:6-43 | a pick exists exactly when the show choice picks a listed show folder and the file choice picks one of its pending files, both by `PickOneBased`; it is then that file under `<base>/<show>`; no base folder, an empty one or one without show folders gives nothing |
| TranscribeLocal.SelectModelSize | app/transcribe_local.py:45-58 | choices 1-5 pick that size; a non-number, above 5 or below -4 falls back to `base` |
| TranscribeLocal.LargeOffered | app/transcribe_local.py:47-55 | choices 5 and 0 give `large` |
| TranscribeLocal.ProjectSegments | app/transcribe_local.py:92-98 | one saved segment per Whisper segment, in order, with its start, end and text |
| TranscribeLocal.ProjectSegmentsAppend | app/transcribe_local.py:92-98 | projecting a concatenation projects each part |
| TranscribeLocal.TranscribeWithLocalWhisper | app/transcribe_local.py:60-104 | a missing path or size does nothing; output exists exactly when Whisper succeeds, as `<stem>.txt` with the text and `<stem>.json` with the projected segments |
| TranscribeLocal.OutputMatchesPendingCheck | app/transcribe_local.py:30-85 | the JSON written for a picked file is the name the pending check looks for |
| GroqApi.Pending | app/groq_api.py:20 | exactly the listed `.mp3` names whose `<stem>.txt` is not listed |
| GroqApi.TranscribedLeavesPending | app/groq_api.py:20-71 | once `<stem>.txt` exists, the files with that stem leave the pending list and nothing else changes |
| GroqApi.SelectMp3File | app/groq_api.py:6-29 | a pick exists exactly when the show choice picks a listed show folder and the file choice picks one of its pending files, both by `PickOneBased`; it is then that file under `<base>/<show>`; no base folder, an empty one or one without show folders gives nothing |
| GroqApi.TranscribeWithGroq | app/groq_api.py:32-75 | a missing key stops before any call; the text is saved exactly when the key is present and the call answers, as `<stem>.txt` holding the reply |
| GroqApi.OutputMatchesPendingCheck | app/groq_api.py:20-69 | the text written for a picked file is the name the pending check looks for |
| WhisperInteractive.DefaultLimit | app/test_whisper_interactive.py:7-12 | the default 25 MiB limit is 26214400 bytes |
| WhisperInteractive.CompressedBaseName | app/test_whisper_interactive.py:22-25 | the compressed file's name is `compressed_` followed by the original's name |
| WhisperInteractive.CompressedPathDiffers | app/test_whisper_interactive.py:22-25 | the compressed path is never the input path |
| WhisperInteractive.CompressIfNeeded | app/test_whisper_interactive.py:7-40 | a file within the limit is returned unchanged; a larger one gives the compressed path, or nothing when the export fails; the input comes back exactly when it was within the limit |
| WhisperInteractive.TranscribeAudioWithApi | app/test_whisper_interactive.py:44-74 | an upload happens exactly when a path is given and the file is within the limit or compressed; a larger file is uploaded compressed |
| WhisperInteractive.Episodes | app/test_whisper_interactive.py:96 | exactly the listed `.mp3` names |
| WhisperInteractive.SelectAudioFile | app/test_whisper_interactive.py:77-109 | a pick exists exactly when the show choice picks a listed show folder and the file choice picks one of its `.mp3` episodes, both by `PickOneBased`; it is then that file under `<base>/<show>`; no base folder, an empty one or one without show folders gives nothing |
| WhisperInteractive.UnlistedEpisodePickable | app/test_whisper_interactive.py:101-105 | only 20 episodes are shown, yet `SelectAudioFile` with file choice 21 returns the 21st episode of the picked show and with 0 the last |
| GemmaAnalyze.Transcripts | app/test_gemma_analyze.py:19 | exactly the listed names ending with `.json` but not `.ads.json` |
| GemmaAnalyze.SelectJsonFile | app/test_gemma_analyze.py:7-27 | a pick exists exactly when the show choice picks a listed show folder and the file choice picks one of its transcripts, both by `PickOneBased`; it is then that file under `<base>/<show>`; no base folder, an empty one or one without show folders gives nothing |
| GemmaAnalyze.AdsPath | app/test_gemma_analyze.py:83-84 | the output ends with `.ads.json` |
| GemmaAnalyze.AdsPathOfTranscript | app/test_gemma_analyze.py:83-84 | `<folder>/<s>.json` gives `<folder>/<s>.ads.json` |
| GemmaAnalyze.OutputLeavesCandidates | app/test_gemma_analyze.py:19-84 | the output is never a candidate and adding it does not change the candidates, so the transcript is offered again |
| GemmaAnalyze.AnalyzeTranscriptWithGemma | app/test_gemma_analyze.py:30-103 | one iff per outcome, checked in order: no path, an unreadable transcript, a missing key, a failed call, a reply that does not parse; otherwise a file is written holding the parsed reply at the `.ads.json` path, with its ads defaulting to none |
| GemmaAnalyze.MissingAdsMeansNone | app/test_gemma_analyze.py:92 | a reply object without `ads` means an empty ad list |
| GoogleApi.PickFromList | app/google_API.py:48-61 | an empty list or an out-of-range or non-numeric choice gives nothing; `1..n` pick that entry; `1-n..0` wrap from the end |
| GoogleApi.Transcripts | app/google_API.py:75 | exactly the listed `*.json` names except `*.ads.json` |
| GoogleApi.SelectJsonFile | app/google_API.py:64-80 | a missing or empty base folder exits; a selection exists exactly when `PickFromList` picks a show with a non-empty name and then a non-empty transcript of it; it is that show's folder and that transcript; otherwise nothing is selected |
| GoogleApi.ComposePrompt | app/google_API.py:87-114 | the prompt is the fixed head, the transcript and the fixed tail |
| GoogleApi.PromptEmbedsTranscript | app/google_API.py:112 | the transcript appears verbatim right after the head |
| GoogleApi.ComposePromptInjective | app/google_API.py:87-114 | different transcripts give different prompts |
| GoogleApi.AnalyseTranscript | app/google_API.py:117-148 | a caught read error returns nothing and an uncaught one propagates; with the transcript read, a missing key exits, an empty reply returns nothing, and a value is returned exactly when the reply parses, being the parsed reply |
| GoogleApi.OutputPath | app/google_API.py:167 | the output ends with `.ads.json` |
| GoogleApi.OutputPathOfTranscript | app/google_API.py:167 | `<s>.json` gives `<s>.ads.json` |
| GoogleApi.SegmentLine | app/google_API.py:121 | a segment gives its line exactly when it is an object with formattable `start` and `end` and a `text`; a missing key (checked in order) is a caught error; anything else raises; the line opens with the start time and ends with the text |
| GoogleApi.JoinLines | app/google_API.py:121 | the join succeeds exactly when every segment gives a line; otherwise its outcome is that of the first segment that fails; the text begins with the first segment's line |
| GoogleApi.ReadTranscript | app/google_API.py:119-124 | an unreadable file or invalid JSON is a caught error; a list is joined segment by segment; a non-empty object (such as whisper.cpp's `-oj` output), a number, boolean or `null`, or undecodable bytes raise an uncaught error |
| GoogleApi.SavedSegmentsRead | app/google_API.py:119-124 | the segment list that local Whisper saves always reads, one line per segment |
| GoogleApi.NullReplySavesNothing | app/google_API.py:160-162 | a reply of `null` saves nothing |
| GoogleApi.Main | app/google_API.py:155-176 | the file is written, at `OutputPath` of the selection and with the parsed reply, exactly when a transcript is selected and its analysis gives a value other than `null`, and the run then crashes at line 169; it crashes without saving exactly when reading the selected transcript raises an uncaught error; it exits for a missing base folder or a missing key |
| RssDownloader.Sanitize | app/rss_downloader_pro.py.py:7-9 | every forbidden character is deleted and exactly the other characters remain, in order: a character is in the result iff it is in the name and allowed, and the result is no longer |
| RssDownloader.SanitizeChar | app/rss_downloader_pro.py.py:9 | one forbidden character becomes nothing and any other stays itself; with `SanitizeAppend` this fixes the result of every name |
| RssDownloader.SanitizeLength | app/rss_downloader_pro.py.py:9 | the result is as long as the name exactly when the name has no forbidden character |
| RssDownloader.SanitizeAppend | app/rss_downloader_pro.py.py:9 | sanitising a concatenation sanitises each part, so order is kept |
| RssDownloader.SanitizeClean | app/rss_downloader_pro.py.py:9 | a name without forbidden characters is unchanged |
| RssDownloader.SanitizeIdempotent | app/rss_downloader_pro.py.py:9 | sanitising twice is sanitising once |
| RssDownloader.EpisodeCount | app/rss_downloader_pro.py.py:44-52 | a count is kept exactly when the answer parses as a positive integer; a blank answer means all |
| RssDownloader.EpisodeCountOfNumeral | app/rss_downloader_pro.py.py:46-50 | typing a positive number gives that count |
| RssDownloader.ItemsToProcess | app/rss_downloader_pro.py.py:78-85 | always a prefix of the items; the first `n` when `n` is between 1 and the item count; otherwise all |
| RssDownloader.PodcastDir | app/rss_downloader_pro.py.py:65-71 | the show folder is `podcast_downloads/` and the sanitised title, `Untitled Podcast` without one |
| RssDownloader.FormatDate | app/rss_downloader_pro.py.py:99 | a date is written with digits and dashes only |
| RssDownloader.TwoDigitsReadBack | app/rss_downloader_pro.py.py:99 | a month or day below 100 takes two digits, which read back as the number |
| RssDownloader.FormatDateInjective | app/rss_downloader_pro.py.py:99 | distinct calendar dates give distinct `%Y-%m-%d` strings |
| RssDownloader.FormatDateExample | app/rss_downloader_pro.py.py:99 | the 7th of March 2024 is written `2024-03-07` |
| RssDownloader.DatePrefix | app/rss_downloader_pro.py.py:94-101 | `NODATE` for a missing, empty or unparseable date; for a non-empty date that parses, exactly the formatted parsed date; never a separator |
| RssDownloader.EpisodeFileName | app/rss_downloader_pro.py.py:110-111 | `DatePrefix`, then ` - `, then exactly the sanitised title (or `Untitled Episode`), then `.mp3`, with no separator in it |
| RssDownloader.EpisodeFileNameOfCleanItem | app/rss_downloader_pro.py.py:94-111 | an episode with a parseable date and a clean title is saved as `<YYYY-MM-DD> - <title>.mp3` |
| RssDownloader.ItemDownload | app/rss_downloader_pro.py.py:108-112 | an item downloads from its enclosure URL to its file name in the show folder |
| RssDownloader.DownloadsStep | app/rss_downloader_pro.py.py:103-114 | an item without an enclosure URL is skipped; one with it adds its download |
| RssDownloader.DownloadsInFolder | app/rss_downloader_pro.py.py:110-112 | every download lands directly in the show folder, as an `.mp3` |
| RssDownloader.AfterDownload | app/rss_downloader_pro.py.py:11-33 | existing files are untouched; only the target can appear; a completed stream leaves it holding the streamed bytes; a refused or broken download of a new file leaves the files exactly as they were, the partial file removed |
| RssDownloader.DownloadsKeepExisting | app/rss_downloader_pro.py.py:90-114 | after all downloads existing files are untouched, new files are download targets only, and every completed download is present |
| RssDownloader.Disk.DownloadEpisode | app/rss_downloader_pro.py.py:11-33 | an existing target returns true without fetching; a refused or broken fetch leaves no partial file and returns false; a complete stream writes the chunks in order |
| RssDownloader.Disk.ParseAndDownloadPodcast | app/rss_downloader_pro.py.py:35-121 | a non-HTTP URL or an unreadable feed changes nothing; otherwise `podcast_downloads` and the show folder are made, as `os.makedirs` makes intermediate folders, and the chosen items are downloaded in order |
| Pipeline.ClassifierOutputNotAnalysis | app/test_gemma_analyze.py:84 | a classifier's output is never an analysis file for the splicer |
| Pipeline.CppTranscriptNotAnalysis | app/run_whisper_cpp.py:111 | a whisper.cpp transcript is never an analysis file |
| Pipeline.LocalTranscriptCanBeAnalysis | app/transcribe_local.py:83-85 | local Whisper on `<x>.analysis.mp3` writes `<x>.analysis.json`, a name the splicer would read |
| Pipeline.LocalTranscriptLeavesCppPending | app/transcribe_local.py:85 | local Whisper's `<stem>.json` does not take a file off the whisper.cpp pending list |
| Pipeline.LocalTextSatisfiesGroq | app/transcribe_local.py:84 | local Whisper's `<stem>.txt` takes the file off the Groq pending list |
| Pipeline.CppTranscriptIsCandidate | app/run_whisper_cpp.py:111 | both classifiers offer a whisper.cpp transcript |
| Pipeline.ClassifiersAgreeOnOutput | app/google_API.py:167 | for an ordinary name both classifiers write the same `.ads.json` path |
| Pipeline.ClassifiersDisagreeOnDotDotJson | app/google_API.py:167 | the name `..json` is where the two output rules differ |
| Pipeline.NoAdsOutputCompressible | app/edit_mp3.py:54 | the splicer's output passes the compressor's source filter |
| Pipeline.NoAdsOfCompressedNotOffered | app/compress_mp3.py:17 | `compressed.mp3` is offered, but its spliced output `compressed_no_ads.mp3` is not |

## Left out

- Audio decoding, slicing, concatenation and export (pydub and ffmpeg) are parameters. Decoding gives an optional length in milliseconds, and an export gives a list of pieces, or a success flag in `WhisperInteractive`.
- The speech-to-text and language-model services (whisper, whisper.cpp, Groq, OpenAI, Gemini, OpenRouter) are not modelled. Their replies are parameters.
- The Gemma prompt text is not modelled, because it is sent only to the foreign service.
- HTTP requests, RSS XML parsing and `datetime.strptime` are parameters. The feed is an optional title and item list, and date parsing is a given partial function.
- `input()`, printing, `.env` loading, `time.time()` and `os.path.relpath` display are left out: they only talk to the user. The user's answer is an `Option<int>`.
- Paths are compared as strings: `.`, `..` and trailing-separator aliasing are not modelled. A show title that sanitises to `..` names the working directory and one that sanitises to empty names `podcast_downloads/` itself, yet the disk's `files` and `dirs` keep such paths under their literal spelling, so the existence check at `app/rss_downloader_pro.py.py:13` is modelled on that spelling.
- Listing order is not modelled. `os.walk`, `os.listdir` and `Path.glob` results are taken as given sequences; dot files are listed, as `Path.glob` and `os.listdir` list them.
- Ad times are integer milliseconds. The float `* 1000` product at `app/edit_mp3.py:80` and float rounding at exact bitrate boundaries are not modelled.
- A slice bound beyond the audio is not modelled: pieces are the requested bounds, and pydub's clamping of them is not modelled.
- EditMp3.SortByStart: the sort is stated as sorted and a permutation. Python's sort is also stable; that is not proved.
- EditMp3.Splice: an ad record missing `start_time` or `end_time`, and analysis JSON that is not an object, raise and are caught by the generic handler. The model takes the analysis as an optional list of ads, `None` when reading or parsing fails.
- Text.ParseInt: only ASCII whitespace, an optional sign and ASCII digits are accepted. Python's underscores and non-ASCII digits and spaces are not modelled.
- RssDownloader.FormatDate: its own contract states only that the date is digits and dashes; `FormatDateInjective` and `FormatDateExample` pin down the form. The year is written without padding, as glibc's `strftime` writes years below 1000.
- Exceptions from a file write, from `os.path.getsize` in `test_whisper_interactive.py` and from `generate_content` or `response.text` in `google_API.py` are not modelled.
- GoogleApi.SegmentLine: the two-decimal rendering of a time and `str()` of the text are parameters, as floating-point printing and Python's `repr` are not modelled.
- The 96k bitrate is not modelled, because the export is a success flag.
- The reason a subprocess fails in `run_whisper_cpp.py` is not modelled: the command is the result, and running it is left out.
- `app/main.py`, `app/test_whisper_api.py` and `frontend/src/App.jsx` are not part of this model. They hold a directory listing endpoint, a single API call and the user interface.
