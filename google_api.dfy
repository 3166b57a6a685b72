/**
 * Ad classification through Gemini: pick a transcript, embed it in a fixed
 * prompt, and save the parsed JSON reply next to the transcript with its
 * last suffix replaced by `.ads.json`.
 */
module GoogleApi {
  import opened Wrappers
  import opened Text
  import opened PyPath
  import opened Seqs
  import opened Menu
  import opened Listing
  import opened JsonValue

  /** `pick_from_list`: `None` for an empty list, else `options[choice - 1]` with Python's wraparound. */
  function PickFromList<T>(options: seq<T>, choice: Option<int>): (r: Option<T>)
    ensures options == [] ==> r.None?
    ensures r.Some? ==> r.value in options
    ensures choice.None? || choice.value > |options| || choice.value <= -|options| ==> r.None?
    ensures choice.Some? && 1 <= choice.value <= |options| ==> r == Some(options[choice.value - 1])
    ensures choice.Some? && 1 - |options| <= choice.value <= 0 ==>
              r == Some(options[|options| - 1 + choice.value])
  {
    if options == [] then None else PickOneBased(options, choice)
  }

  predicate IsTranscript(f: string) {
    EndsWith(f, ".json") && !EndsWith(f, ".ads.json")
  }

  /** `[f.name for f in show_path.glob("*.json") if not f.name.endswith(".ads.json")]`. */
  function Transcripts(listing: seq<string>): (r: seq<string>)
    ensures forall f :: f in r <==> f in listing && EndsWith(f, ".json") && !EndsWith(f, ".ads.json")
  {
    Filter(listing, IsTranscript)
  }

  datatype Selection =
    | ExitProgram                           // no downloads folder or an empty one: `sys.exit(1)`
    | NotSelected
    | Selected(folder: string, name: string)

  /**
   * `select_json_file`: the folder of the show picked and the transcript
   * picked in it. A pick that is an empty name counts as no pick (lines 71
   * and 77 test the name's truth value).
   */
  function SelectJsonFile(baseDir: string, base: Option<seq<Entry>>, showChoice: Option<int>,
                          fileChoice: Option<int>): (r: Selection)
    ensures r.ExitProgram? <==> base.None? || base.value == []
    ensures r.Selected? <==>
              base.Some? && base.value != [] &&
              PickFromList(Shows(base.value), showChoice).Some? &&
              PickFromList(Shows(base.value), showChoice).value.name != [] &&
              PickFromList(Transcripts(PickFromList(Shows(base.value), showChoice).value.files), fileChoice).Some? &&
              PickFromList(Transcripts(PickFromList(Shows(base.value), showChoice).value.files), fileChoice).value != []
    ensures r.Selected? ==>
              r.folder == Join(baseDir, PickFromList(Shows(base.value), showChoice).value.name) &&
              r.name == PickFromList(Transcripts(PickFromList(Shows(base.value), showChoice).value.files),
                                     fileChoice).value
    ensures r.Selected? ==> r.name in Transcripts(PickFromList(Shows(base.value), showChoice).value.files)
  {
    if base.None? || base.value == [] then ExitProgram
    else match PickFromList(Shows(base.value), showChoice)
      case None => NotSelected
      case Some(show) =>
        if show.name == [] then NotSelected
        else match PickFromList(Transcripts(show.files), fileChoice)
          case None => NotSelected
          case Some(name) =>
            if name == [] then NotSelected else Selected(Join(baseDir, show.name), name)
  }

  // ---- compose_prompt (lines 87-114) ---------------------------------------------------

  const PromptHead := "\n你是一位專業的 Podcast 分析師，你的唯一任務是根據使用者提供的逐字稿，找出廣告時段，並以純粹的 JSON 格式回傳結果。\n\n你的回覆**必須**是一個 JSON 物件，該物件只有一個名為 \"ads\" 的 key，其 value 是一個陣列。\n陣列中的每個物件都代表一個廣告時段，並包含 \'start_time\' (秒), \'end_time\' (秒), 和 \'reason\' (簡短原因)。\n如果沒有廣告，\"ads\" 的 value 必須是一個空陣列 []。\n\n### 範例輸出 (EXAMPLE OUTPUT) ###\n```json\n{\n  \"ads\": [\n    {\n      \"start_time\": 1.50,\n      \"end_time\": 97.00,\n      \"reason\": \"由 Sharp 贊助，介紹新品家電。\"\n    }\n  ]\n}\n```\n\n---\n以下是逐字稿，請開始分析：\n```text\n"
  const PromptTail := "\n```\n"

  function ComposePrompt(transcript: string): (r: string)
    ensures StartsWith(r, PromptHead) && EndsWith(r, PromptTail)
    ensures |r| == |PromptHead| + |transcript| + |PromptTail|
  {
    var r := PromptHead + transcript + PromptTail;
    assert r[..|PromptHead|] == PromptHead;
    EndsWithConcat(PromptHead + transcript, PromptTail);
    r
  }

  /** The transcript sits verbatim between the fixed head and tail and can be read back. */
  lemma PromptEmbedsTranscript(transcript: string)
    ensures ComposePrompt(transcript)[|PromptHead|..|PromptHead| + |transcript|] == transcript
  {
    var r := PromptHead + transcript + PromptTail;
    assert r[|PromptHead|..|PromptHead| + |transcript|] == transcript;
  }

  /** Different transcripts give different prompts. */
  lemma ComposePromptInjective(a: string, b: string)
    requires ComposePrompt(a) == ComposePrompt(b)
    ensures a == b
  {
    PromptEmbedsTranscript(a);
    PromptEmbedsTranscript(b);
  }

  // ---- reading the transcript (lines 119-124) ----------------------------------------

  /** What `path.read_text` gives. */
  datatype FileRead =
    | OsError                               // the file cannot be read: caught at line 122
    | BadUtf8                               // `UnicodeDecodeError`, which line 122 does not catch
    | Content(text: string)

  /**
   * The transcript text; a caught `JSONDecodeError`, `KeyError` or `OSError`
   * (line 122); or any other exception, which no caller catches.
   */
  datatype TranscriptRead = Read(text: string) | ReadError | ReadCrash

  /** `format(v, ".2f")` accepts numbers, booleans among them; any other value raises. */
  predicate Formattable(v: Json) {
    v.Number? || v.Bool?
  }

  function NumberOf(v: Json): real
    requires Formattable(v)
  {
    if v.Number? then v.n else if v.b then 1.0 else 0.0
  }

  /**
   * Line 121 for one segment `s`: `f"[{s['start']:.2f}s - {s['end']:.2f}s] {s['text']}"`,
   * evaluated left to right. A missing key is a caught `KeyError`; indexing a
   * non-object or formatting a non-number raises `TypeError` or `ValueError`,
   * which escape. `fixed2` stands for the two-decimal rendering of a number
   * and `render` for `str()` of a JSON value.
   */
  function SegmentLine(s: Json, fixed2: real -> string, render: Json -> string): (r: TranscriptRead)
    ensures r.Read? <==>
              s.Object? && "start" in s.fields && Formattable(s.fields["start"]) &&
              "end" in s.fields && Formattable(s.fields["end"]) && "text" in s.fields
    ensures r.ReadError? <==>
              s.Object? &&
              ("start" !in s.fields ||
               (Formattable(s.fields["start"]) &&
                ("end" !in s.fields || (Formattable(s.fields["end"]) && "text" !in s.fields))))
    ensures r.Read? ==>
              StartsWith(r.text, "[" + fixed2(NumberOf(s.fields["start"])) + "s - ") &&
              EndsWith(r.text, "s] " + render(s.fields["text"]))
  {
    match s
    case Object(fields) =>
      if "start" !in fields then ReadError
      else if !Formattable(fields["start"]) then ReadCrash
      else if "end" !in fields then ReadError
      else if !Formattable(fields["end"]) then ReadCrash
      else if "text" !in fields then ReadError
      else
        var head := "[" + fixed2(NumberOf(fields["start"])) + "s - ";
        var tail := "s] " + render(fields["text"]);
        var line := head + fixed2(NumberOf(fields["end"])) + tail;
        assert line[..|head|] == head;
        EndsWithConcat(head + fixed2(NumberOf(fields["end"])), tail);
        Read(line)
    case _ => ReadCrash
  }

  /**
   * `"\n".join(...)` over the segment lines: the lines joined by newlines
   * when every segment gives one, and otherwise the failure of the first
   * segment that does not.
   */
  function JoinLines(segments: seq<Json>, fixed2: real -> string, render: Json -> string): (r: TranscriptRead)
    ensures r.Read? <==> forall i :: 0 <= i < |segments| ==> SegmentLine(segments[i], fixed2, render).Read?
    ensures !r.Read? ==>
              exists i :: 0 <= i < |segments| && r == SegmentLine(segments[i], fixed2, render) &&
                          forall j :: 0 <= j < i ==> SegmentLine(segments[j], fixed2, render).Read?
    ensures r.Read? && 0 < |segments| ==>
              StartsWith(r.text, SegmentLine(segments[0], fixed2, render).text)
    ensures r.Read? && |segments| == 1 ==> r.text == SegmentLine(segments[0], fixed2, render).text
  {
    if segments == [] then Read("")
    else
      match SegmentLine(segments[0], fixed2, render)
      case Read(line) =>
        if |segments| == 1 then Read(line)
        else
          var rest := JoinLines(segments[1..], fixed2, render);
          if rest.Read? then
            assert (line + "\n" + rest.text)[..|line|] == line;
            Read(line + "\n" + rest.text)
          else
            ghost var i :| 0 <= i < |segments[1..]| && rest == SegmentLine(segments[1..][i], fixed2, render) &&
                           forall j :: 0 <= j < i ==> SegmentLine(segments[1..][j], fixed2, render).Read?;
            assert rest == SegmentLine(segments[i + 1], fixed2, render);
            rest
      case other => other
  }

  /**
   * Lines 120-121: `file` is what reading the selected transcript gives and
   * `parse` stands for `json.loads`. Iterating a JSON object yields its keys
   * and iterating a string its characters; indexing either of those raises
   * `TypeError`, and a number, boolean or `null` is not iterable at all.
   */
  function ReadTranscript(file: FileRead, parse: string -> Option<Json>, fixed2: real -> string,
                          render: Json -> string): (r: TranscriptRead)
    ensures r.ReadError? <==>
              file.OsError? ||
              (file.Content? &&
               (parse(file.text).None? ||
                (parse(file.text).value.Array? &&
                 JoinLines(parse(file.text).value.items, fixed2, render).ReadError?)))
    ensures file.Content? && parse(file.text).Some? && parse(file.text).value.Array? ==>
              r == JoinLines(parse(file.text).value.items, fixed2, render)
    ensures file.BadUtf8? ==> r.ReadCrash?
    ensures (file.Content? && parse(file.text).Some? && parse(file.text).value.Object? &&
             parse(file.text).value.fields != map[]) ==> r.ReadCrash?
    ensures (file.Content? && parse(file.text).Some? &&
             (parse(file.text).value.Null? || parse(file.text).value.Bool? || parse(file.text).value.Number?)) ==>
              r.ReadCrash?
    ensures r.Read? ==> file.Content? && parse(file.text).Some?
  {
    match file
    case OsError => ReadError
    case BadUtf8 => ReadCrash
    case Content(text) =>
      match parse(text)
      case None => ReadError
      case Some(value) =>
        match value
        case Array(items) => JoinLines(items, fixed2, render)
        case Object(fields) => if fields == map[] then Read("") else ReadCrash
        case Str(chars) => if chars == [] then Read("") else ReadCrash
        case _ => ReadCrash
  }

  /**
   * The segment list that `transcribe_local.py` saves, objects with numeric
   * `start` and `end` and a `text`, reads without error, one line per segment.
   */
  lemma {:induction false} SavedSegmentsRead(segments: seq<Json>, fixed2: real -> string, render: Json -> string)
    requires forall i :: 0 <= i < |segments| ==>
               segments[i].Object? && "start" in segments[i].fields && segments[i].fields["start"].Number? &&
               "end" in segments[i].fields && segments[i].fields["end"].Number? && "text" in segments[i].fields
    ensures JoinLines(segments, fixed2, render).Read?
    ensures |segments| == 1 ==>
              JoinLines(segments, fixed2, render).text == "[" + fixed2(segments[0].fields["start"].n) + "s - " +
                fixed2(segments[0].fields["end"].n) + "s] " + render(segments[0].fields["text"])
  {
    forall i | 0 <= i < |segments|
      ensures SegmentLine(segments[i], fixed2, render).Read?
    {
      assert Formattable(segments[i].fields["start"]);
      assert Formattable(segments[i].fields["end"]);
    }
  }

  // ---- analyse_transcript and main (lines 117-169) --------------------------------------

  datatype Analysis =
    | Unreadable                            // line 122 caught the read error
    | Raised                                // an exception escaped from line 120 or 121
    | ExitNoKey                             // no `GOOGLE_API_KEY`: `sys.exit(1)`
    | EmptyReply
    | NotJson
    | Parsed(value: Json)

  /**
   * `read` is the outcome of reading the transcript, `reply` the text Gemini
   * returns for `ComposePrompt(read.text)`, and `parse` stands for `json.loads`.
   */
  function AnalyseTranscript(read: TranscriptRead, apiKey: Option<string>, reply: string,
                             parse: string -> Option<Json>): (r: Analysis)
    ensures r.Unreadable? <==> read.ReadError?
    ensures r.Raised? <==> read.ReadCrash?
    ensures r.ExitNoKey? <==> read.Read? && (apiKey.None? || apiKey.value == [])
    ensures r.EmptyReply? <==> read.Read? && apiKey.Some? && apiKey.value != [] && reply == []
    ensures r.Parsed? <==>
              read.Read? && apiKey.Some? && apiKey.value != [] && reply != [] && parse(reply).Some?
    ensures r.Parsed? ==> r.value == parse(reply).value
  {
    match read
    case ReadError => Unreadable
    case ReadCrash => Raised
    case Read(_) =>
      if apiKey.None? || apiKey.value == [] then ExitNoKey
      else if reply == [] then EmptyReply
      else match parse(reply)
        case None => NotJson
        case Some(value) => Parsed(value)
  }

  /** Line 167: `transcript_path.with_suffix(".ads.json")`. */
  function OutputPath(folder: string, name: string): (r: string)
    ensures EndsWith(r, ".ads.json")
  {
    JoinEndsWith(folder, WithSuffix(name, ".ads.json"));
    EndsWithTrans(Join(folder, WithSuffix(name, ".ads.json")), WithSuffix(name, ".ads.json"), ".ads.json");
    Join(folder, WithSuffix(name, ".ads.json"))
  }

  /** `x.mp3.json` becomes `x.mp3.ads.json`: only the last suffix is replaced. */
  lemma OutputPathOfTranscript(s: string)
    requires s != [] && '/' !in s
    ensures WithSuffix(s + ".json", ".ads.json") == s + ".ads.json"
  {
    var name := s + ".json";
    LastIndexOfAbsent("json", '.');
    assert ".json" == ['.'] + "json";
    LastIndexOfAppend(['.'], "json", '.');
    LastIndexOfAppend(s, ".json", '.');
    assert LastIndexOf(name, '.') == |s|;
    assert PathSuffix(name) == ".json";
    assert name[..|name| - 5] == s;
  }

  /**
   * How a run of the script ends. The downloads folder is the relative path
   * `podcast_downloads` (line 34), so line 169's `out_path.relative_to(Path.cwd())`
   * raises `ValueError` on every run that reaches it, after line 168 has
   * written the file: a save always ends in a traceback.
   */
  datatype MainOutcome =
    | Nothing                               // `main` returned early
    | Exit                                  // `sys.exit(1)`
    | Crashed                               // an exception escaped before anything was saved
    | SavedThenCrash(path: string, value: Json)

  /**
   * `main` with the entry point of lines 172-176, which catches only
   * `KeyboardInterrupt`. `file` is what reading the selected transcript gives.
   */
  function Main(baseDir: string, base: Option<seq<Entry>>, showChoice: Option<int>, fileChoice: Option<int>,
                file: FileRead, apiKey: Option<string>, reply: string, parse: string -> Option<Json>,
                fixed2: real -> string, render: Json -> string): (r: MainOutcome)
    ensures r.SavedThenCrash? <==>
              SelectJsonFile(baseDir, base, showChoice, fileChoice).Selected? &&
              AnalyseTranscript(ReadTranscript(file, parse, fixed2, render), apiKey, reply, parse).Parsed? &&
              !AnalyseTranscript(ReadTranscript(file, parse, fixed2, render), apiKey, reply, parse).value.Null?
    ensures r.SavedThenCrash? ==>
              r.path == OutputPath(SelectJsonFile(baseDir, base, showChoice, fileChoice).folder,
                                   SelectJsonFile(baseDir, base, showChoice, fileChoice).name) &&
              r.value == parse(reply).value && EndsWith(r.path, ".ads.json")
    ensures r.Crashed? <==>
              SelectJsonFile(baseDir, base, showChoice, fileChoice).Selected? &&
              ReadTranscript(file, parse, fixed2, render).ReadCrash?
    ensures r.Exit? <==>
              SelectJsonFile(baseDir, base, showChoice, fileChoice).ExitProgram? ||
              (SelectJsonFile(baseDir, base, showChoice, fileChoice).Selected? &&
               ReadTranscript(file, parse, fixed2, render).Read? && (apiKey.None? || apiKey.value == []))
  {
    match SelectJsonFile(baseDir, base, showChoice, fileChoice)
    case ExitProgram => Exit
    case NotSelected => Nothing
    case Selected(folder, name) =>
      match AnalyseTranscript(ReadTranscript(file, parse, fixed2, render), apiKey, reply, parse)
      case ExitNoKey => Exit
      case Raised => Crashed
      case Parsed(value) =>
        if value.Null? then Nothing else SavedThenCrash(OutputPath(folder, name), value)
      case _ => Nothing
  }

  /** A reply of `null` parses to `None`, which line 161 takes for a failed analysis: nothing is saved. */
  lemma NullReplySavesNothing(baseDir: string, base: Option<seq<Entry>>, showChoice: Option<int>,
                              fileChoice: Option<int>, file: FileRead, apiKey: Option<string>, reply: string,
                              parse: string -> Option<Json>, fixed2: real -> string, render: Json -> string)
    requires parse(reply) == Some(Null)
    ensures !Main(baseDir, base, showChoice, fileChoice, file, apiKey, reply, parse, fixed2, render).SavedThenCrash?
  {
  }
}
