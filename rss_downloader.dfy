/**
 * The RSS downloader: it checks the feed URL, reads how many of the newest
 * episodes to fetch, and saves each episode with an audio link as
 * `<date> - <title>.mp3` in a folder named after the show, skipping files
 * that already exist and removing a partial file when a download fails.
 */
module RssDownloader {
  import opened Wrappers
  import opened Text
  import opened PyPath
  import opened Seqs

  // ---- sanitize_filename (line 9) ---------------------------------------------------------

  predicate Forbidden(c: char) {
    c == '\\' || c == '/' || c == '*' || c == '?' || c == ':' || c == '"' || c == '<' || c == '>' || c == '|'
  }

  predicate Allowed(c: char) {
    !Forbidden(c)
  }

  /** `re.sub` with the character class of `Forbidden`: every other character is kept, in order. */
  function Sanitize(name: string): (r: string)
    ensures forall c :: c in r ==> !Forbidden(c)
    ensures forall c :: c in name && !Forbidden(c) ==> c in r
    ensures forall c :: c in r <==> c in name && !Forbidden(c)
    ensures |r| <= |name|
  {
    Filter(name, Allowed)
  }

  /** The result is as long as the name exactly when nothing was deleted. */
  lemma SanitizeLength(name: string)
    ensures |Sanitize(name)| == |name| <==> forall c :: c in name ==> !Forbidden(c)
  {
    if forall c :: c in name ==> !Forbidden(c) {
      SanitizeClean(name);
    } else {
      var i :| 0 <= i < |name| && Forbidden(name[i]);
      FilterDrops(name, Allowed, i);
    }
  }

  /** A single character is deleted when forbidden and kept otherwise. */
  lemma SanitizeChar(c: char)
    ensures Sanitize([c]) == if Forbidden(c) then [] else [c]
  {
    assert [c][..0] == [];
  }

  /** Sanitizing works character by character: it distributes over concatenation. */
  lemma SanitizeAppend(a: string, b: string)
    ensures Sanitize(a + b) == Sanitize(a) + Sanitize(b)
  {
    FilterAppend(a, b, Allowed);
  }

  /** A name without forbidden characters is left as it is. */
  lemma SanitizeClean(name: string)
    requires forall c :: c in name ==> !Forbidden(c)
    ensures Sanitize(name) == name
  {
    FilterKeepsAll(name, Allowed);
  }

  lemma SanitizeIdempotent(name: string)
    ensures Sanitize(Sanitize(name)) == Sanitize(name)
  {
    SanitizeClean(Sanitize(name));
  }

  // ---- the count prompt and the URL guard (lines 39-52, 79-85) --------------------------------

  /** `rss_url.startswith(('http://', 'https://'))`. */
  predicate IsFeedUrl(url: string) {
    StartsWith(url, "http://") || StartsWith(url, "https://")
  }

  /**
   * Lines 44-52: a positive whole number limits the download; a blank answer,
   * anything `int()` rejects, and zero or negatives mean all episodes (`None`).
   */
  function EpisodeCount(answer: string): (r: Option<nat>)
    ensures r.Some? <==> exists n: int :: ParseInt(answer) == Some(n) && n > 0
    ensures r.Some? ==> r.value > 0 && ParseInt(answer) == Some(r.value as int)
    ensures Strip(answer) == [] ==> r.None?
  {
    if Strip(answer) == [] then None
    else match ParseInt(answer)
      case Some(n) => if n > 0 then Some(n as nat) else None
      case None => None
  }

  /** Typing a positive number as `str(n)` prints it asks for exactly `n` episodes. */
  lemma EpisodeCountOfNumeral(n: nat)
    requires n > 0
    ensures EpisodeCount(NatToString(n)) == Some(n)
  {
    ParseIntOfNatToString(n);
    StripDigits(NatToString(n));
  }

  /** Lines 79-85: the first `n` items when `n` is at most their number, otherwise all of them. */
  function ItemsToProcess<T>(items: seq<T>, count: Option<nat>): (r: seq<T>)
    ensures |r| <= |items| && r == items[..|r|]
    ensures count.Some? && 0 < count.value <= |items| ==> |r| == count.value
    ensures !(count.Some? && 0 < count.value <= |items|) ==> r == items
  {
    if count.Some? && 0 < count.value <= |items| then items[..count.value] else items
  }

  // ---- names (lines 65-72, 91-112) -----------------------------------------------------------

  const BaseDir := "podcast_downloads"

  /** `os.path.join(base_dir, sanitize_filename(title or default))`. */
  function PodcastDir(title: Option<string>): (r: string)
    ensures r == BaseDir + "/" + Sanitize(title.GetOr("Untitled Podcast"))
  {
    var safe := Sanitize(title.GetOr("Untitled Podcast"));
    assert safe == [] || safe[0] in safe;
    JoinRelative(BaseDir, safe);
    Join(BaseDir, safe)
  }

  /** A publication date as `datetime.strptime` reads it. */
  datatype Date = Date(year: nat, month: nat, day: nat)

  /** Two digits, zero-padded, for months and days. */
  function TwoDigits(n: nat): (r: string)
    ensures AllDigits(r)
  {
    if n < 10 then "0" + NatToString(n) else NatToString(n)
  }

  /** `strftime('%Y-%m-%d')`. */
  function FormatDate(d: Date): (r: string)
    ensures forall c :: c in r ==> IsDigit(c) || c == '-'
  {
    var r := NatToString(d.year) + "-" + TwoDigits(d.month) + "-" + TwoDigits(d.day);
    assert forall c :: c in r ==> c in NatToString(d.year) || c == '-' || c in TwoDigits(d.month) || c in TwoDigits(d.day);
    r
  }

  /**
   * Lines 94-101: `NODATE` unless the item has a non-empty `pubDate` that
   * `parseDate` (standing for the `strptime` call) accepts.
   */
  function DatePrefix(pubDate: Option<string>, parseDate: string -> Option<Date>): (r: string)
    ensures r == "NODATE" || exists d :: parseDate(pubDate.GetOr("")) == Some(d) && r == FormatDate(d)
    ensures pubDate.GetOr("") == [] ==> r == "NODATE"
    ensures pubDate.GetOr("") != [] && parseDate(pubDate.value).None? ==> r == "NODATE"
    ensures pubDate.GetOr("") != [] && parseDate(pubDate.value).Some? ==>
              r == FormatDate(parseDate(pubDate.value).value)
    ensures forall c :: c in r ==> c != '/'
  {
    var text := pubDate.GetOr("");
    if text == [] then "NODATE"
    else match parseDate(text)
      case None => "NODATE"
      case Some(d) => FormatDate(d)
  }

  /** Months and days below 100 take exactly two digits and read back. */
  lemma TwoDigitsReadBack(n: nat)
    requires n < 100
    ensures |TwoDigits(n)| == 2 && DigitsValue(TwoDigits(n)) == n
  {
    if n < 10 {
      var t := TwoDigits(n);
      assert t == ['0', DigitChar(n)];
      assert t[..1] == "0" && DigitsValue(t[..1]) == 0;
      assert DigitValue(t[1]) == n;
    } else {
      DigitsValueOfNatToString(n);
    }
  }

  /** Distinct calendar dates give distinct `%Y-%m-%d` prefixes. */
  lemma FormatDateInjective(d1: Date, d2: Date)
    requires 1 <= d1.month <= 12 && 1 <= d1.day <= 31
    requires 1 <= d2.month <= 12 && 1 <= d2.day <= 31
    requires FormatDate(d1) == FormatDate(d2)
    ensures d1 == d2
  {
    var s := FormatDate(d1);
    TwoDigitsReadBack(d1.month);
    TwoDigitsReadBack(d1.day);
    TwoDigitsReadBack(d2.month);
    TwoDigitsReadBack(d2.day);
    var y1, y2 := NatToString(d1.year), NatToString(d2.year);
    assert s == y1 + "-" + TwoDigits(d1.month) + "-" + TwoDigits(d1.day);
    assert s == y2 + "-" + TwoDigits(d2.month) + "-" + TwoDigits(d2.day);
    assert s[..|s| - 6] == y1 && s[..|s| - 6] == y2;
    assert s[|s| - 5..|s| - 3] == TwoDigits(d1.month) == TwoDigits(d2.month);
    assert s[|s| - 2..] == TwoDigits(d1.day) == TwoDigits(d2.day);
    DigitsValueOfNatToString(d1.year);
    DigitsValueOfNatToString(d2.year);
  }

  /** The 7th of March 2024 is written `2024-03-07`. */
  lemma FormatDateExample()
    ensures FormatDate(Date(2024, 3, 7)) == "2024-03-07"
  {
    assert NatToString(2024) == "2024" by {
      assert NatToString(2) == "2";
      assert NatToString(20) == "20";
      assert NatToString(202) == "202";
    }
  }

  /** An `<item>` of the feed: its title, its `pubDate`, and the `url` of its enclosure if both exist. */
  datatype Item = Item(title: Option<string>, pubDate: Option<string>, audioUrl: Option<string>)

  /** Line 111: `f"{date_prefix} - {safe_ep_title}.mp3"`. */
  function EpisodeFileName(item: Item, parseDate: string -> Option<Date>): (r: string)
    ensures EndsWith(r, ".mp3") && '/' !in r
    ensures StartsWith(r, DatePrefix(item.pubDate, parseDate) + " - ")
    ensures |r| == |DatePrefix(item.pubDate, parseDate)| + 3 + |Sanitize(item.title.GetOr("Untitled Episode"))| + 4
    ensures r[|DatePrefix(item.pubDate, parseDate) + " - "|..|r| - 4] == Sanitize(item.title.GetOr("Untitled Episode"))
  {
    var prefix := DatePrefix(item.pubDate, parseDate) + " - ";
    var title := Sanitize(item.title.GetOr("Untitled Episode"));
    EndsWithConcat(prefix + title, ".mp3");
    assert (prefix + title + ".mp3")[..|prefix|] == prefix;
    NotInConcat(DatePrefix(item.pubDate, parseDate), " - ", '/');
    NotInConcat(prefix, title, '/');
    NotInConcat(prefix + title, ".mp3", '/');
    assert (prefix + title + ".mp3")[|prefix|..|prefix + title + ".mp3"| - 4] == title;
    prefix + title + ".mp3"
  }

  /**
   * An episode with a parseable date and a title free of forbidden
   * characters is saved as `<YYYY-MM-DD> - <title>.mp3`.
   */
  lemma EpisodeFileNameOfCleanItem(item: Item, parseDate: string -> Option<Date>, d: Date)
    requires item.pubDate.Some? && item.pubDate.value != [] && parseDate(item.pubDate.value) == Some(d)
    requires item.title.Some? && forall c :: c in item.title.value ==> !Forbidden(c)
    ensures EpisodeFileName(item, parseDate) == FormatDate(d) + " - " + item.title.value + ".mp3"
  {
    var r := EpisodeFileName(item, parseDate);
    var prefix := FormatDate(d) + " - ";
    SanitizeClean(item.title.value);
    assert r[..|prefix|] == prefix;
    assert r[|prefix|..|r| - 4] == item.title.value;
    assert r[|r| - 4..] == ".mp3";
    assert r == r[..|prefix|] + r[|prefix|..|r| - 4] + r[|r| - 4..];
  }

  /** One download the loop performs: where from and where to. */
  datatype Download = Download(url: string, path: string)

  /** Lines 107-114: the download for an item with an audio link. */
  function ItemDownload(item: Item, dir: string, parseDate: string -> Option<Date>): (d: Download)
    requires item.audioUrl.Some?
    ensures d.url == item.audioUrl.value && d.path == Join(dir, EpisodeFileName(item, parseDate))
  {
    Download(item.audioUrl.value, Join(dir, EpisodeFileName(item, parseDate)))
  }

  /** Lines 90-114: the downloads for the items, skipping those without an audio link. */
  function Downloads(items: seq<Item>, dir: string, parseDate: string -> Option<Date>): (r: seq<Download>)
    ensures |r| <= |items|
  {
    if items == [] then []
    else
      var last := items[|items| - 1];
      Downloads(items[..|items| - 1], dir, parseDate)
      + (if last.audioUrl.Some? then [ItemDownload(last, dir, parseDate)] else [])
  }

  lemma DownloadsStep(items: seq<Item>, i: nat, dir: string, parseDate: string -> Option<Date>)
    requires i < |items|
    ensures Downloads(items[..i + 1], dir, parseDate) ==
            Downloads(items[..i], dir, parseDate) +
            (if items[i].audioUrl.Some? then [ItemDownload(items[i], dir, parseDate)] else [])
  {
    assert items[..i + 1][..i] == items[..i];
  }

  /** Every download saves into the show folder, under a name of that folder. */
  lemma {:induction false} DownloadsInFolder(items: seq<Item>, dir: string, parseDate: string -> Option<Date>)
    ensures forall d :: d in Downloads(items, dir, parseDate) ==>
              exists name :: '/' !in name && EndsWith(name, ".mp3") && d.path == DirPrefix(dir) + name
    decreases |items|
  {
    if items != [] {
      DownloadsInFolder(items[..|items| - 1], dir, parseDate);
      var last := items[|items| - 1];
      var name := EpisodeFileName(last, parseDate);
      assert name[0] in name;
      JoinRelative(dir, name);
    }
  }

  // ---- download_episode (lines 11-33) ----------------------------------------------------------

  /** What the server sends: nothing (the request failed), or chunks and whether the stream broke after them. */
  datatype Fetch = Refused | Stream(chunks: seq<seq<bv8>>, broken: bool)

  function Flatten(chunks: seq<seq<bv8>>): seq<bv8> {
    if chunks == [] then [] else Flatten(chunks[..|chunks| - 1]) + chunks[|chunks| - 1]
  }

  predicate Completes(f: Fetch) {
    f.Stream? && !f.broken
  }

  /** The files after one `download_episode` call. */
  function AfterDownload(files: map<string, seq<bv8>>, d: Download, fetch: string -> Fetch): (r: map<string, seq<bv8>>)
    ensures forall p :: p in files ==> p in r && r[p] == files[p]
    ensures forall p :: p in r ==> p in files || p == d.path
    ensures Completes(fetch(d.url)) ==> d.path in r
    ensures d.path !in files && !Completes(fetch(d.url)) ==> r == files
    ensures d.path !in files && Completes(fetch(d.url)) ==> r == files[d.path := Flatten(fetch(d.url).chunks)]
  {
    if d.path in files then files
    else match fetch(d.url)
      case Refused => files
      case Stream(chunks, broken) => if broken then files else files[d.path := Flatten(chunks)]
  }

  /** The files after the downloads, one after the other. */
  function AfterDownloads(files: map<string, seq<bv8>>, ds: seq<Download>, fetch: string -> Fetch): map<string, seq<bv8>> {
    if ds == [] then files
    else AfterDownload(AfterDownloads(files, ds[..|ds| - 1], fetch), ds[|ds| - 1], fetch)
  }

  lemma AfterDownloadsStep(files: map<string, seq<bv8>>, ds: seq<Download>, d: Download, fetch: string -> Fetch)
    ensures AfterDownloads(files, ds + [d], fetch) == AfterDownload(AfterDownloads(files, ds, fetch), d, fetch)
  {
    assert (ds + [d])[..|ds|] == ds;
  }

  /** The files after the first `i + 1` items, from those after the first `i`. */
  lemma AfterItemsStep(files: map<string, seq<bv8>>, items: seq<Item>, i: nat, dir: string,
                       parseDate: string -> Option<Date>, fetch: string -> Fetch)
    requires i < |items|
    ensures AfterDownloads(files, Downloads(items[..i + 1], dir, parseDate), fetch) ==
            if items[i].audioUrl.Some? then
              AfterDownload(AfterDownloads(files, Downloads(items[..i], dir, parseDate), fetch),
                            ItemDownload(items[i], dir, parseDate), fetch)
            else AfterDownloads(files, Downloads(items[..i], dir, parseDate), fetch)
  {
    DownloadsStep(items, i, dir, parseDate);
    var done := Downloads(items[..i], dir, parseDate);
    if items[i].audioUrl.Some? {
      AfterDownloadsStep(files, done, ItemDownload(items[i], dir, parseDate), fetch);
    } else {
      assert done + [] == done;
    }
  }

  /**
   * A run never changes a file that was there before, only creates files it
   * was asked to download, and leaves every download whose stream completed
   * in place.
   */
  lemma {:induction false} DownloadsKeepExisting(files: map<string, seq<bv8>>, ds: seq<Download>, fetch: string -> Fetch)
    ensures forall p :: p in files ==> p in AfterDownloads(files, ds, fetch) &&
                                       AfterDownloads(files, ds, fetch)[p] == files[p]
    ensures forall p :: p in AfterDownloads(files, ds, fetch) ==>
                          p in files || exists d :: d in ds && d.path == p
    ensures forall d :: d in ds && Completes(fetch(d.url)) ==> d.path in AfterDownloads(files, ds, fetch)
    decreases |ds|
  {
    if ds != [] {
      var init := ds[..|ds| - 1];
      DownloadsKeepExisting(files, init, fetch);
      var mid := AfterDownloads(files, init, fetch);
      var after := AfterDownloads(files, ds, fetch);
      assert after == AfterDownload(mid, ds[|ds| - 1], fetch);
      forall p | p in after ensures p in files || exists d :: d in ds && d.path == p {
        if p !in mid {
          assert ds[|ds| - 1] in ds;
        } else if p !in files {
          var d :| d in init && d.path == p;
          assert d in ds;
        }
      }
      forall d | d in ds && Completes(fetch(d.url)) ensures d.path in after {
        if d != ds[|ds| - 1] {
          assert d in init by {
            var k :| 0 <= k < |ds| && ds[k] == d;
            assert init[k] == d;
          }
        }
      }
    }
  }

  /** The disk the downloader writes to: file contents by path, and the folders made. */
  class Disk {
    var files: map<string, seq<bv8>>
    var dirs: set<string>

    constructor(files0: map<string, seq<bv8>>, dirs0: set<string>)
      ensures files == files0 && dirs == dirs0
    {
      files := files0;
      dirs := dirs0;
    }

    /**
     * `download_episode`: true without fetching when the file exists; else the
     * chunks are appended one by one, and a broken stream removes the partial
     * file and returns false.
     */
    method DownloadEpisode(d: Download, fetch: string -> Fetch) returns (ok: bool)
      modifies this
      ensures files == AfterDownload(old(files), d, fetch)
      ensures dirs == old(dirs)
      ensures ok <==> d.path in old(files) || Completes(fetch(d.url))
    {
      if d.path in files {
        return true;
      }
      var response := fetch(d.url);
      if response.Refused? {
        return false;
      }
      files := files[d.path := []];
      var i := 0;
      while i < |response.chunks|
        invariant 0 <= i <= |response.chunks|
        invariant files == old(files)[d.path := Flatten(response.chunks[..i])]
        invariant dirs == old(dirs)
      {
        assert response.chunks[..i + 1][..i] == response.chunks[..i];
        files := files[d.path := files[d.path] + response.chunks[i]];
        i := i + 1;
      }
      assert response.chunks[..i] == response.chunks;
      if response.broken {
        files := files - {d.path};
        assert files == old(files);
        return false;
      }
      ok := true;
    }

    /**
     * `parse_and_download_podcast` once the feed is read: `feed` holds the
     * show title and items (`None` when fetching or parsing it failed).
     */
    method ParseAndDownloadPodcast(url: string, countAnswer: string, feed: Option<(Option<string>, seq<Item>)>,
                                   parseDate: string -> Option<Date>, fetch: string -> Fetch)
      modifies this
      ensures !IsFeedUrl(url) || feed.None? ==> files == old(files) && dirs == old(dirs)
      ensures IsFeedUrl(url) && feed.Some? ==>
                dirs == old(dirs) + {BaseDir, PodcastDir(feed.value.0)} &&
                files == AfterDownloads(old(files),
                                        Downloads(ItemsToProcess(feed.value.1, EpisodeCount(countAnswer)),
                                                  PodcastDir(feed.value.0), parseDate),
                                        fetch)
    {
      if !IsFeedUrl(url) || feed.None? {
        return;
      }
      var count := EpisodeCount(countAnswer);
      var (title, allItems) := feed.value;
      var podcastDir := PodcastDir(title);
      dirs := dirs + {BaseDir, podcastDir};
      var items := ItemsToProcess(allItems, count);
      var i := 0;
      while i < |items|
        invariant 0 <= i <= |items|
        invariant dirs == old(dirs) + {BaseDir, podcastDir}
        invariant files == AfterDownloads(old(files), Downloads(items[..i], podcastDir, parseDate), fetch)
      {
        AfterItemsStep(old(files), items, i, podcastDir, parseDate, fetch);
        if items[i].audioUrl.Some? {
          var _ := DownloadEpisode(ItemDownload(items[i], podcastDir, parseDate), fetch);
        }
        i := i + 1;
      }
      assert items[..i] == items;
    }
  }
}
