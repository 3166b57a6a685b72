/**
 * The ad splicer: from an `.analysis.json` file it derives the episode's
 * mp3 and the `_no_ads.mp3` output, sorts the marked ads by start time and
 * sweeps them left to right, keeping the audio between them.
 *
 * Times are integer milliseconds. Audio is represented only by its decoded
 * length; a kept piece is the pair of bounds of the slice the script takes.
 */
module EditMp3 {
  import opened Wrappers
  import opened Text
  import opened PyPath
  import opened Listing

  /** One marked advertisement, `(start_time * 1000, end_time * 1000)`. */
  datatype Ad = Ad(start: int, end: int)

  /** A slice `podcast[start:end]` that is kept. */
  datatype Piece = Piece(start: int, end: int)

  const AnalysisSuffix := ".analysis.json"
  const Mp3Ext := ".mp3"
  const NoAdsExt := "_no_ads.mp3"

  // ---- sorting by start time ---------------------------------------------------

  predicate SortedByStart(ads: seq<Ad>) {
    forall i, j :: 0 <= i < j < |ads| ==> ads[i].start <= ads[j].start
  }

  lemma SortedTail(ads: seq<Ad>)
    requires ads != [] && SortedByStart(ads)
    ensures SortedByStart(ads[1..])
    ensures forall x :: x in ads[1..] ==> ads[0].start <= x.start
  {
    forall i, j | 0 <= i < j < |ads[1..]| ensures ads[1..][i].start <= ads[1..][j].start {
      assert ads[1..][i] == ads[i + 1] && ads[1..][j] == ads[j + 1];
    }
    forall x | x in ads[1..] ensures ads[0].start <= x.start {
      var k :| 0 <= k < |ads[1..]| && ads[1..][k] == x;
      assert ads[k + 1] == x;
    }
  }

  lemma SortedCons(x: Ad, ads: seq<Ad>)
    requires SortedByStart(ads)
    requires forall y :: y in ads ==> x.start <= y.start
    ensures SortedByStart([x] + ads)
  {
    forall i, j | 0 <= i < j < |[x] + ads| ensures ([x] + ads)[i].start <= ([x] + ads)[j].start {
      assert ([x] + ads)[j] == ads[j - 1];
      if i > 0 {
        assert ([x] + ads)[i] == ads[i - 1];
      } else {
        assert ads[j - 1] in ads;
      }
    }
  }

  /** Inserts `a` in front of the first ad that starts at the same time or later. */
  function InsertByStart(a: Ad, ads: seq<Ad>): (r: seq<Ad>)
    requires SortedByStart(ads)
    ensures SortedByStart(r)
    ensures multiset(r) == multiset(ads) + multiset{a}
    ensures forall x :: x in r ==> x == a || x in ads
    ensures |r| == |ads| + 1
    decreases |ads|
  {
    if ads == [] || a.start <= ads[0].start then
      InsertFront(a, ads);
      [a] + ads
    else
      SortedTail(ads);
      var rest := InsertByStart(a, ads[1..]);
      InsertBehind(a, ads, rest);
      [ads[0]] + rest
  }

  lemma InsertFront(a: Ad, ads: seq<Ad>)
    requires SortedByStart(ads)
    requires ads == [] || a.start <= ads[0].start
    ensures SortedByStart([a] + ads)
    ensures multiset([a] + ads) == multiset(ads) + multiset{a}
    ensures forall x :: x in [a] + ads ==> x == a || x in ads
  {
    assert forall y :: y in ads ==> a.start <= y.start by {
      if ads != [] {
        SortedTail(ads);
        assert ads == [ads[0]] + ads[1..];
      }
    }
    SortedCons(a, ads);
  }

  lemma InsertBehind(a: Ad, ads: seq<Ad>, rest: seq<Ad>)
    requires ads != [] && SortedByStart(ads) && ads[0].start < a.start
    requires SortedByStart(rest)
    requires multiset(rest) == multiset(ads[1..]) + multiset{a}
    requires forall x :: x in rest ==> x == a || x in ads[1..]
    ensures SortedByStart([ads[0]] + rest)
    ensures multiset([ads[0]] + rest) == multiset(ads) + multiset{a}
    ensures forall x :: x in [ads[0]] + rest ==> x == a || x in ads
  {
    SortedTail(ads);
    assert ads == [ads[0]] + ads[1..];
    assert forall x :: x in rest ==> ads[0].start <= x.start;
    SortedCons(ads[0], rest);
    assert multiset(ads) == multiset{ads[0]} + multiset(ads[1..]);
    assert forall x :: x in ads[1..] ==> x in ads;
  }

  /** `ads.sort(key=lambda x: x[0])`: ordered by start, a permutation of the input. */
  function SortByStart(ads: seq<Ad>): (r: seq<Ad>)
    ensures SortedByStart(r)
    ensures multiset(r) == multiset(ads)
    ensures |r| == |ads|
  {
    if ads == [] then []
    else
      assert ads == [ads[0]] + ads[1..];
      InsertByStart(ads[0], SortByStart(ads[1..]))
  }

  lemma InsertBeforeSorted(a: Ad, ads: seq<Ad>)
    requires SortedByStart([a] + ads)
    ensures SortedByStart(ads)
    ensures InsertByStart(a, ads) == [a] + ads
  {
    SortedTail([a] + ads);
    assert ([a] + ads)[1..] == ads;
    assert ads == [] || ([a] + ads)[1] == ads[0];
  }

  /** Sorting an already sorted list leaves it as it is. */
  lemma {:induction false} SortSortedUnchanged(ads: seq<Ad>)
    requires SortedByStart(ads)
    ensures SortByStart(ads) == ads
  {
    if ads != [] {
      assert SortedByStart(ads[1..]) by {
        forall i, j | 0 <= i < j < |ads[1..]| ensures ads[1..][i].start <= ads[1..][j].start {
          assert ads[1..][i] == ads[i + 1] && ads[1..][j] == ads[j + 1];
        }
      }
      SortSortedUnchanged(ads[1..]);
      assert ads == [ads[0]] + ads[1..];
      InsertBeforeSorted(ads[0], ads[1..]);
    }
  }

  // ---- the sweep (lines 84-97) ---------------------------------------------------

  /** The pieces emitted while walking `ads` with cursor `cursor`. */
  function Gaps(ads: seq<Ad>, cursor: int): seq<Piece> {
    if ads == [] then []
    else (if ads[0].start > cursor then [Piece(cursor, ads[0].start)] else [])
         + Gaps(ads[1..], ads[0].end)
  }

  /** The cursor after the walk: the end of the last ad, whatever came before. */
  function LastCut(ads: seq<Ad>, cursor: int): int {
    if ads == [] then cursor else LastCut(ads[1..], ads[0].end)
  }

  /** The tail piece, present when the last cut is before the end of the audio. */
  function Tail(lastCut: int, durationMs: int): seq<Piece> {
    if lastCut < durationMs then [Piece(lastCut, durationMs)] else []
  }

  function Sweep(sorted: seq<Ad>, durationMs: int): seq<Piece> {
    Gaps(sorted, 0) + Tail(LastCut(sorted, 0), durationMs)
  }

  /** `non_ad_parts` for the ads as the analysis lists them. */
  function KeepPieces(ads: seq<Ad>, durationMs: int): seq<Piece> {
    Sweep(SortByStart(ads), durationMs)
  }

  predicate NonEmptyPieces(ps: seq<Piece>) {
    forall p :: p in ps ==> p.start < p.end
  }

  /** Strictly ascending and pairwise disjoint, with a gap between neighbours. */
  predicate Ascending(ps: seq<Piece>) {
    forall i, j :: 0 <= i < j < |ps| ==> ps[i].end < ps[j].start
  }

  predicate ProperAds(ads: seq<Ad>) {
    forall a :: a in ads ==> a.start < a.end
  }

  /**
   * The sort and the loop of lines 82-97: ads are sorted by start, the gap
   * before each ad that starts after the cursor is kept, the cursor becomes
   * that ad's end, and the audio after the final cursor is kept.
   */
  method ComputeKeepPieces(ads: seq<Ad>, durationMs: int) returns (pieces: seq<Piece>)
    ensures pieces == KeepPieces(ads, durationMs)
    ensures NonEmptyPieces(pieces)
    ensures ProperAds(ads) ==> Ascending(pieces)
  {
    var sorted := SortByStart(ads);
    pieces := [];
    var lastCutEnd := 0;
    var i := 0;
    while i < |sorted|
      invariant 0 <= i <= |sorted|
      invariant SweptSoFar(sorted, i, pieces, lastCutEnd)
    {
      var ad := sorted[i];
      SweepStep(sorted, i, pieces, lastCutEnd);
      if ad.start > lastCutEnd {
        pieces := pieces + [Piece(lastCutEnd, ad.start)];
      }
      lastCutEnd := ad.end;
      i := i + 1;
    }
    SweepDone(sorted, pieces, lastCutEnd, durationMs);
    if lastCutEnd < durationMs {
      pieces := pieces + [Piece(lastCutEnd, durationMs)];
    }
    KeepPiecesNonEmpty(ads, durationMs);
    if ProperAds(ads) {
      KeepPiecesAscending(ads, durationMs);
    }
  }

  /**
   * The loop invariant of `non_ad_parts`: the pieces found for the first `i`
   * ads, followed by what the rest of the walk finds from `cursor`, are the
   * walk's pieces, and the walk ends at the same cut.
   */
  predicate SweptSoFar(sorted: seq<Ad>, i: nat, pieces: seq<Piece>, cursor: int)
    requires i <= |sorted|
  {
    pieces + Gaps(sorted[i..], cursor) == Gaps(sorted, 0) &&
    LastCut(sorted[i..], cursor) == LastCut(sorted, 0)
  }

  /** One iteration of the sweep: the gap before ad `i`, if any, then the cursor moves to its end. */
  lemma SweepStep(sorted: seq<Ad>, i: nat, pieces: seq<Piece>, cursor: int)
    requires i < |sorted| && SweptSoFar(sorted, i, pieces, cursor)
    ensures SweptSoFar(sorted, i + 1,
                       pieces + (if sorted[i].start > cursor then [Piece(cursor, sorted[i].start)] else []),
                       sorted[i].end)
  {
    assert sorted[i..][1..] == sorted[i + 1..];
    var gap := if sorted[i].start > cursor then [Piece(cursor, sorted[i].start)] else [];
    assert Gaps(sorted[i..], cursor) == gap + Gaps(sorted[i + 1..], sorted[i].end);
    assert pieces + gap + Gaps(sorted[i + 1..], sorted[i].end) == pieces + Gaps(sorted[i..], cursor);
  }

  /** After the last ad, the tail piece completes the walk. */
  lemma SweepDone(sorted: seq<Ad>, pieces: seq<Piece>, cursor: int, durationMs: int)
    requires SweptSoFar(sorted, |sorted|, pieces, cursor)
    ensures pieces + (if cursor < durationMs then [Piece(cursor, durationMs)] else []) == Sweep(sorted, durationMs)
  {
    assert sorted[|sorted|..] == [];
    assert pieces + [] == pieces;
  }

  // ---- properties of the sweep ---------------------------------------------------

  lemma {:induction false} GapsNonEmpty(ads: seq<Ad>, cursor: int)
    ensures NonEmptyPieces(Gaps(ads, cursor))
  {
    if ads != [] {
      GapsNonEmpty(ads[1..], ads[0].end);
    }
  }

  /** Every piece kept has positive length, for any list of ads. */
  lemma KeepPiecesNonEmpty(ads: seq<Ad>, durationMs: int)
    ensures NonEmptyPieces(KeepPieces(ads, durationMs))
  {
    GapsNonEmpty(SortByStart(ads), 0);
  }

  /** Nothing is kept below `lo` when the cursor and every ad end are at or above it. */
  lemma {:induction false} GapsAbove(ads: seq<Ad>, cursor: int, lo: int)
    requires lo <= cursor
    requires forall a :: a in ads ==> lo <= a.end
    ensures forall p :: p in Gaps(ads, cursor) ==> lo <= p.start
    ensures lo <= LastCut(ads, cursor)
  {
    if ads != [] {
      assert ads[0] in ads;
      GapsAbove(ads[1..], ads[0].end, lo);
    }
  }

  lemma AscendingConcat(a: seq<Piece>, b: seq<Piece>)
    requires Ascending(a) && Ascending(b)
    requires forall p, q :: p in a && q in b ==> p.end < q.start
    ensures Ascending(a + b)
  {
    forall i, j | 0 <= i < j < |a + b| ensures (a + b)[i].end < (a + b)[j].start {
      if j < |a| {
      } else if i < |a| {
        assert (a + b)[i] in a && (a + b)[j] in b;
      } else {
        assert (a + b)[i] == b[i - |a|] && (a + b)[j] == b[j - |a|];
      }
    }
  }

  /**
   * On sorted ads of positive length the walk keeps ascending pieces, each
   * ending strictly before the final cursor.
   */
  lemma {:induction false} GapsAscending(ads: seq<Ad>, cursor: int)
    requires SortedByStart(ads) && ProperAds(ads)
    ensures Ascending(Gaps(ads, cursor))
    ensures forall p :: p in Gaps(ads, cursor) ==> p.end < LastCut(ads, cursor)
  {
    if ads != [] {
      var a0 := ads[0];
      var rest := ads[1..];
      assert a0 in ads;
      assert SortedByStart(rest) && ProperAds(rest) by {
        forall i, j | 0 <= i < j < |rest| ensures rest[i].start <= rest[j].start {
          assert rest[i] == ads[i + 1] && rest[j] == ads[j + 1];
        }
      }
      assert forall a :: a in rest ==> a0.start + 1 <= a.end by {
        forall a | a in rest ensures a0.start + 1 <= a.end {
          var k :| 0 <= k < |rest| && rest[k] == a;
          assert ads[k + 1] == a;
        }
      }
      GapsAscending(rest, a0.end);
      GapsAbove(rest, a0.end, a0.start + 1);
      var head: seq<Piece> := if a0.start > cursor then [Piece(cursor, a0.start)] else [];
      AscendingConcat(head, Gaps(rest, a0.end));
    }
  }

  /**
   * Whenever every ad ends after it starts, the kept pieces come out strictly
   * ascending and pairwise disjoint, in whatever order the ads were listed.
   */
  lemma KeepPiecesAscending(ads: seq<Ad>, durationMs: int)
    requires ProperAds(ads)
    ensures Ascending(KeepPieces(ads, durationMs))
  {
    var sorted := SortByStart(ads);
    SortKeepsProper(ads);
    GapsAscending(sorted, 0);
    var g := Gaps(sorted, 0);
    var tail := Tail(LastCut(sorted, 0), durationMs);
    assert forall p, q :: p in g && q in tail ==> p.end < q.start;
    AscendingConcat(g, tail);
  }

  lemma SortKeepsProper(ads: seq<Ad>)
    requires ProperAds(ads)
    ensures ProperAds(SortByStart(ads))
  {
    var sorted := SortByStart(ads);
    forall a | a in sorted ensures a.start < a.end {
      assert a in multiset(sorted);
      assert a in multiset(ads);
    }
  }

  // ---- exact complement for sorted, disjoint ads ---------------------------------

  predicate Covers(ps: seq<Piece>, t: int) {
    exists p :: p in ps && p.start <= t < p.end
  }

  predicate InAds(ads: seq<Ad>, t: int) {
    exists a :: a in ads && a.start <= t < a.end
  }

  /** Ads that follow one another: each ends no later than any later one starts. */
  predicate Chained(ads: seq<Ad>) {
    forall i, j :: 0 <= i < j < |ads| ==> ads[i].end <= ads[j].start
  }

  /** Ads inside the audio `[0, durationMs]`, each ending no earlier than it starts. */
  predicate WithinAudio(ads: seq<Ad>, durationMs: int) {
    forall a :: a in ads ==> 0 <= a.start <= a.end <= durationMs
  }

  lemma ChainedTail(ads: seq<Ad>)
    requires ads != [] && Chained(ads)
    ensures Chained(ads[1..])
    ensures forall a :: a in ads[1..] ==> ads[0].end <= a.start
  {
    forall a | a in ads[1..] ensures ads[0].end <= a.start {
      var k :| 0 <= k < |ads[1..]| && ads[1..][k] == a;
      assert ads[k + 1] == a;
    }
    forall i, j | 0 <= i < j < |ads[1..]| ensures ads[1..][i].end <= ads[1..][j].start {
      assert ads[1..][i] == ads[i + 1] && ads[1..][j] == ads[j + 1];
    }
  }

  /**
   * Walking chained ads from a cursor at or before all of them: an instant at
   * or after the cursor is kept exactly when it lies before the final cursor
   * and inside no ad; every ad ends by the final cursor.
   */
  lemma {:induction false} GapsComplement(ads: seq<Ad>, cursor: int)
    requires Chained(ads)
    requires forall a :: a in ads ==> cursor <= a.start <= a.end
    ensures cursor <= LastCut(ads, cursor)
    ensures forall a :: a in ads ==> a.end <= LastCut(ads, cursor)
    ensures forall p :: p in Gaps(ads, cursor) ==> cursor <= p.start
    ensures forall t :: cursor <= t ==>
              (Covers(Gaps(ads, cursor), t) <==> t < LastCut(ads, cursor) && !InAds(ads, t))
  {
    GapsBounds(ads, cursor);
    forall t | cursor <= t
      ensures Covers(Gaps(ads, cursor), t) <==> t < LastCut(ads, cursor) && !InAds(ads, t)
    {
      GapsCoverAt(ads, cursor, t);
    }
  }

  /** The walk's cursor only moves forward, past every ad, and every gap starts at or after it. */
  lemma {:induction false} GapsBounds(ads: seq<Ad>, cursor: int)
    requires Chained(ads)
    requires forall a :: a in ads ==> cursor <= a.start <= a.end
    ensures cursor <= LastCut(ads, cursor)
    ensures forall a :: a in ads ==> a.end <= LastCut(ads, cursor)
    ensures forall p :: p in Gaps(ads, cursor) ==> cursor <= p.start
  {
    if ads != [] {
      var a0 := ads[0];
      assert a0 in ads;
      ChainedTail(ads);
      GapsBounds(ads[1..], a0.end);
      assert forall a :: a in ads ==> a == a0 || a in ads[1..];
      GapsUnfold(ads, cursor);
    }
  }

  lemma GapsUnfold(ads: seq<Ad>, cursor: int)
    requires ads != []
    ensures Gaps(ads, cursor) ==
            (if ads[0].start > cursor then [Piece(cursor, ads[0].start)] else []) + Gaps(ads[1..], ads[0].end)
    ensures LastCut(ads, cursor) == LastCut(ads[1..], ads[0].end)
  {
  }

  lemma CoversConcat(a: seq<Piece>, b: seq<Piece>, t: int)
    ensures Covers(a + b, t) <==> Covers(a, t) || Covers(b, t)
  {
    if Covers(a + b, t) {
      var p :| p in a + b && p.start <= t < p.end;
      assert p in a || p in b;
    }
    if Covers(a, t) {
      var p :| p in a && p.start <= t < p.end;
      assert p in a + b;
    }
    if Covers(b, t) {
      var p :| p in b && p.start <= t < p.end;
      assert p in a + b;
    }
  }

  lemma InAdsCons(ads: seq<Ad>, t: int)
    requires ads != []
    ensures InAds(ads, t) <==> (ads[0].start <= t < ads[0].end) || InAds(ads[1..], t)
  {
    if InAds(ads, t) {
      var a :| a in ads && a.start <= t < a.end;
      assert a == ads[0] || a in ads[1..];
    }
    if InAds(ads[1..], t) {
      var a :| a in ads[1..] && a.start <= t < a.end;
      assert a in ads;
    }
    assert ads[0] in ads;
  }

  /** The walk from `cursor` keeps an instant `t >= cursor` exactly when it is before the last cut and in no ad. */
  lemma {:induction false} GapsCoverAt(ads: seq<Ad>, cursor: int, t: int)
    requires Chained(ads)
    requires forall a :: a in ads ==> cursor <= a.start <= a.end
    requires cursor <= t
    ensures Covers(Gaps(ads, cursor), t) <==> t < LastCut(ads, cursor) && !InAds(ads, t)
  {
    if ads != [] {
      var a0 := ads[0];
      var rest := ads[1..];
      assert a0 in ads;
      ChainedTail(ads);
      assert forall a :: a in rest ==> a in ads;
      GapsBounds(rest, a0.end);
      GapsUnfold(ads, cursor);
      var head: seq<Piece> := if a0.start > cursor then [Piece(cursor, a0.start)] else [];
      var g := Gaps(rest, a0.end);
      CoversConcat(head, g, t);
      InAdsCons(ads, t);
      if t < a0.start {
        assert Piece(cursor, a0.start) in head;
        assert !InAds(rest, t);
      } else if t < a0.end {
        assert !Covers(head, t);
        assert !Covers(g, t);
      } else {
        assert !Covers(head, t);
        GapsCoverAt(rest, a0.end, t);
      }
    }
  }

  /**
   * For sorted, pairwise-disjoint ads inside `[0, durationMs]`, an instant of
   * the audio is kept exactly when it falls in no ad.
   */
  lemma KeepPiecesComplement(ads: seq<Ad>, durationMs: int)
    requires Chained(ads) && WithinAudio(ads, durationMs)
    ensures forall t :: 0 <= t < durationMs ==>
              (Covers(KeepPieces(ads, durationMs), t) <==> !InAds(ads, t))
  {
    assert SortedByStart(ads) by {
      forall i, j | 0 <= i < j < |ads| ensures ads[i].start <= ads[j].start {
        assert ads[i] in ads;
      }
    }
    SortSortedUnchanged(ads);
    GapsComplement(ads, 0);
    var g := Gaps(ads, 0);
    var last := LastCut(ads, 0);
    var tail := Tail(last, durationMs);
    assert KeepPieces(ads, durationMs) == g + tail;
    forall t | 0 <= t < durationMs
      ensures Covers(g + tail, t) <==> !InAds(ads, t)
    {
      assert Covers(g + tail, t) <==> Covers(g, t) || Covers(tail, t) by {
        forall p | p in g + tail ensures p in g || p in tail { }
      }
      if t < last {
        assert !Covers(tail, t);
      } else {
        assert Piece(last, durationMs) in tail;
      }
    }
  }

  // ---- what line 93 does with overlaps --------------------------------------------

  /** Two overlapping ads (10-20 s and 15-25 s) over 30 s merge into one cut. */
  lemma ChainedOverlapMerges()
    ensures KeepPieces([Ad(10000, 20000), Ad(15000, 25000)], 30000)
            == [Piece(0, 10000), Piece(25000, 30000)]
  {
    var a := Ad(10000, 20000);
    var b := Ad(15000, 25000);
    SortTwo(a, b);
    GapsUnfold([a, b], 0);
    assert [a, b][1..] == [b];
    GapsUnfold([b], 20000);
    assert [b][1..] == [];
  }

  /** Two ads already in start order sort to themselves. */
  lemma SortTwo(a: Ad, b: Ad)
    requires a.start <= b.start
    ensures SortByStart([a, b]) == [a, b]
  {
    assert [a, b][1..] == [b];
    assert [b][1..] == [];
    assert SortByStart([b]) == InsertByStart(b, []) == [b];
    assert InsertByStart(a, [b]) == [a] + [b];
  }

  /**
   * The cursor takes the end of the current ad, not the largest end so far:
   * an ad nested inside an earlier one moves it back, and audio the first ad
   * covers is kept.
   */
  lemma NestedAdSurvives()
    ensures KeepPieces([Ad(0, 20000), Ad(5000, 10000)], 30000) == [Piece(10000, 30000)]
    ensures InAds([Ad(0, 20000), Ad(5000, 10000)], 15000)
    ensures Covers(KeepPieces([Ad(0, 20000), Ad(5000, 10000)], 30000), 15000)
  {
    var a := Ad(0, 20000);
    var b := Ad(5000, 10000);
    SortTwo(a, b);
    GapsUnfold([a, b], 0);
    assert [a, b][1..] == [b];
    GapsUnfold([b], 20000);
    assert [b][1..] == [];
    assert Gaps([a, b], 0) == [];
    assert LastCut([a, b], 0) == 10000;
    assert a in [a, b];
    assert Piece(10000, 30000) in [Piece(10000, 30000)];
  }

  /** An ad covering the whole episode leaves nothing to keep. */
  lemma WholeEpisodeAd(durationMs: nat)
    ensures KeepPieces([Ad(0, durationMs)], durationMs) == []
  {
    var ads := [Ad(0, durationMs)];
    assert ads[1..] == [];
    assert SortByStart(ads) == ads;
    assert Gaps(ads, 0) == [];
    assert LastCut(ads, 0) == durationMs;
  }

  // ---- file names (lines 52, 54) ----------------------------------------------------

  /** `analysis_json_path.replace('.analysis.json', '')`. */
  function SourceAudioPath(analysisPath: string): string {
    ReplaceAll(analysisPath, AnalysisSuffix, "")
  }

  /** `original_mp3_path.replace('.mp3', '_no_ads.mp3')`. */
  function NoAdsPath(audioPath: string): string {
    ReplaceAll(audioPath, Mp3Ext, NoAdsExt)
  }

  /**
   * For `<stem>.mp3.analysis.json` where the suffixes occur only at the end,
   * the audio is `<stem>.mp3` and the output `<stem>_no_ads.mp3`.
   */
  lemma DerivedPaths(stem: string)
    requires !Occurs(stem + Mp3Ext + AnalysisSuffix[..|AnalysisSuffix| - 1], AnalysisSuffix)
    requires !Occurs(stem + Mp3Ext[..|Mp3Ext| - 1], Mp3Ext)
    ensures SourceAudioPath(stem + Mp3Ext + AnalysisSuffix) == stem + Mp3Ext
    ensures NoAdsPath(stem + Mp3Ext) == stem + NoAdsExt
  {
    ReplaceAllTrailing(stem + Mp3Ext, AnalysisSuffix, "");
    assert stem + Mp3Ext + "" == stem + Mp3Ext;
    ReplaceAllTrailing(stem, Mp3Ext, NoAdsExt);
  }

  /**
   * `replace` rewrites every occurrence, so a folder whose name contains
   * `.mp3` is renamed in the output path too.
   */
  lemma EveryOccurrenceReplaced(folder: string, stem: string)
    requires !Occurs(folder + Mp3Ext[..|Mp3Ext| - 1], Mp3Ext)
    requires !Occurs("/" + stem + Mp3Ext[..|Mp3Ext| - 1], Mp3Ext)
    ensures NoAdsPath(folder + Mp3Ext + ("/" + stem + Mp3Ext)) == folder + NoAdsExt + ("/" + stem + NoAdsExt)
  {
    ReplaceAllFirst(folder, Mp3Ext, NoAdsExt, "/" + stem + Mp3Ext);
    ReplaceAllTrailing("/" + stem, Mp3Ext, NoAdsExt);
  }

  // ---- select_analysis_file (lines 6-39) ---------------------------------------------

  /** The analysis files of one folder, in listing order, joined to the folder. */
  function AnalysisFilesOf(root: string, files: seq<string>): seq<string> {
    if files == [] then []
    else AnalysisFilesOf(root, files[..|files| - 1])
         + (if EndsWith(files[|files| - 1], AnalysisSuffix) then [Join(root, files[|files| - 1])] else [])
  }

  /** The analysis files of a walk, folder by folder. */
  function AnalysisFiles(walk: seq<WalkStep>): seq<string> {
    if walk == [] then []
    else AnalysisFiles(walk[..|walk| - 1])
         + AnalysisFilesOf(walk[|walk| - 1].root, walk[|walk| - 1].files)
  }

  lemma {:induction false} AnalysisFilesOfSuffix(root: string, files: seq<string>)
    ensures forall x :: x in AnalysisFilesOf(root, files) ==> EndsWith(x, AnalysisSuffix)
    decreases |files|
  {
    if files != [] {
      var f := files[|files| - 1];
      AnalysisFilesOfSuffix(root, files[..|files| - 1]);
      if EndsWith(f, AnalysisSuffix) {
        JoinEndsWith(root, f);
        EndsWithTrans(Join(root, f), f, AnalysisSuffix);
      }
    }
  }

  lemma {:induction false} AnalysisFilesSuffix(walk: seq<WalkStep>)
    ensures forall x :: x in AnalysisFiles(walk) ==> EndsWith(x, AnalysisSuffix)
    decreases |walk|
  {
    if walk != [] {
      AnalysisFilesSuffix(walk[..|walk| - 1]);
      AnalysisFilesOfSuffix(walk[|walk| - 1].root, walk[|walk| - 1].files);
    }
  }

  /** The nested loop of lines 15-19 collecting `.analysis.json` paths. */
  method CollectAnalysisFiles(walk: seq<WalkStep>) returns (found: seq<string>)
    ensures found == AnalysisFiles(walk)
    ensures forall x :: x in found ==> EndsWith(x, AnalysisSuffix)
  {
    found := [];
    var d := 0;
    while d < |walk|
      invariant 0 <= d <= |walk|
      invariant found == AnalysisFiles(walk[..d])
    {
      var step := walk[d];
      var k := 0;
      while k < |step.files|
        invariant 0 <= k <= |step.files|
        invariant found == AnalysisFiles(walk[..d]) + AnalysisFilesOf(step.root, step.files[..k])
      {
        var file := step.files[k];
        assert step.files[..k + 1][..k] == step.files[..k];
        if EndsWith(file, AnalysisSuffix) {
          found := found + [Join(step.root, file)];
        }
        k := k + 1;
      }
      assert step.files[..k] == step.files;
      assert walk[..d + 1][..d] == walk[..d];
      d := d + 1;
    }
    assert walk[..d] == walk;
    AnalysisFilesSuffix(walk);
  }

  /** Lines 30-36: only `1..len` is accepted; there is no wraparound. */
  function ChooseInRange(files: seq<string>, choice: Option<int>): (r: Option<string>)
    ensures r.Some? <==> choice.Some? && 1 <= choice.value <= |files|
    ensures r.Some? ==> r == Some(files[choice.value - 1])
  {
    if choice.Some? && 0 <= choice.value - 1 < |files| then Some(files[choice.value - 1])
    else None
  }

  /**
   * `select_analysis_file`: `None` without the downloads folder or without an
   * analysis file in it; otherwise the analysis file the user picked, if valid.
   */
  method SelectAnalysisFile(baseExists: bool, walk: seq<WalkStep>, choice: Option<int>)
    returns (r: Option<string>)
    ensures r == (if baseExists then ChooseInRange(AnalysisFiles(walk), choice) else None)
    ensures r.Some? ==> baseExists && r.value in AnalysisFiles(walk) && EndsWith(r.value, AnalysisSuffix)
  {
    if !baseExists {
      return None;
    }
    var files := CollectAnalysisFiles(walk);
    if files == [] {
      return None;
    }
    r := ChooseInRange(files, choice);
  }

  // ---- splice_audio_based_on_analysis (lines 41-118) --------------------------------

  /** What the analysis file held: `None` when `json.load` failed. */
  type Analysis = Option<seq<Ad>>

  datatype SpliceOutcome =
    | NoInput                               // empty path, nothing done
    | AudioMissing(audio: string)           // the derived mp3 does not exist
    | BadAnalysis                           // the analysis file is not valid JSON
    | NoAdsMarked                           // `ads` missing or empty
    | Undecodable(audio: string)            // pydub could not decode the mp3
    | NothingLeft                           // every instant was cut
    | Export(audio: string, output: string, pieces: seq<Piece>)

  /**
   * The decisions of the splicer. `existing` is the set of paths that exist,
   * `decodedMs` the decoded length of the mp3 (`None` when decoding fails).
   */
  function Splice(analysisPath: string, existing: set<string>, analysis: Analysis,
                  decodedMs: Option<nat>): (r: SpliceOutcome)
    ensures r.Export? <==>
              analysisPath != [] && SourceAudioPath(analysisPath) in existing &&
              analysis.Some? && analysis.value != [] && decodedMs.Some? &&
              KeepPieces(analysis.value, decodedMs.value) != []
    ensures r.Export? ==>
              r.audio == SourceAudioPath(analysisPath) && r.output == NoAdsPath(r.audio) &&
              r.pieces == KeepPieces(analysis.value, decodedMs.value) &&
              NonEmptyPieces(r.pieces)
    ensures r.NoAdsMarked? <==>
              analysisPath != [] && SourceAudioPath(analysisPath) in existing &&
              analysis.Some? && analysis.value == []
  {
    if analysisPath == [] then NoInput
    else
      var audio := SourceAudioPath(analysisPath);
      if audio !in existing then AudioMissing(audio)
      else match analysis
        case None => BadAnalysis
        case Some(ads) =>
          if ads == [] then NoAdsMarked
          else match decodedMs
            case None => Undecodable(audio)
            case Some(len) =>
              var pieces := KeepPieces(ads, len);
              KeepPiecesNonEmpty(ads, len);
              if pieces == [] then NothingLeft else Export(audio, NoAdsPath(audio), pieces)
  }
}
