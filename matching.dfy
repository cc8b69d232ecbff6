/**
 * Choosing one best match among the recordings of a lookup and judging it (song.py:111-114,
 * 166-227): release selection, the candidate list with its sentinel, the ranking key
 * `file * 1000 + type` maximised first-wins, and the confidence gate.
 */
module Matching {
  import opened Wrappers
  import opened AcoustidJson

  // ---------------------------------------------------------------------------------------------
  // Scores, songs, matches

  /** `Score`: `releaseType` stands for the `ReleaseTypeScore` member of the same name. */
  datatype Score = Score(audio: real, file: int, releaseType: ReleaseType)

  datatype Song = Song(artist: string, title: string, album: string)

  datatype Match = Match(song: Song, score: Score)

  /** `ReleaseTypeScore`: the integer value of the member named like the release type. */
  function Points(t: ReleaseType): (p: int)
    ensures 0 <= p <= 10
  {
    match t
    case Album => 10
    case Single => 5
    case Other => 0
  }

  /** The first entry of every candidate list: no song, no score, type OTHER. */
  const Sentinel: Match := Match(Song("", "", ""), Score(0.0, 0, Other))

  /** `Match.is_confident`: all three thresholds must be met. */
  predicate IsConfident(m: Match)
  {
    m.score.audio >= 0.40 && m.score.file >= 70 && Points(m.score.releaseType) >= Points(Single)
  }

  /** The release-type threshold admits exactly ALBUM and SINGLE. */
  lemma ConfidentIff(m: Match)
    ensures IsConfident(m) <==> m.score.audio >= 0.40 && m.score.file >= 70 && m.score.releaseType != Other
  {
  }

  /** The gate is a strict conjunction: any two thresholds met without the third are not enough. */
  lemma ConfidenceNeedsAllThree(audio: real, file: int, t: ReleaseType, s: Song)
    ensures audio < 0.40 ==> !IsConfident(Match(s, Score(audio, file, t)))
    ensures file < 70 ==> !IsConfident(Match(s, Score(audio, file, t)))
    ensures t == Other ==> !IsConfident(Match(s, Score(audio, file, t)))
  {
  }

  /** The sentinel is never confident. */
  lemma SentinelNotConfident()
    ensures !IsConfident(Sentinel)
  {
  }

  /** The ranking key of `find_best_match`'s `max`. */
  function Key(m: Match): (k: int)
    ensures k / 1000 == m.score.file && k % 1000 == Points(m.score.releaseType)
  {
    m.score.file * 1000 + Points(m.score.releaseType)
  }

  /** Type points never reach 1000, so a higher file score outranks any release type. */
  lemma FileScoreDominates(a: Match, b: Match)
    ensures a.score.file > b.score.file ==> Key(a) > Key(b)
    ensures a.score.file == b.score.file ==> (Key(a) > Key(b) <==> Points(a.score.releaseType) > Points(b.score.releaseType))
  {
  }

  /** ALBUM outranks SINGLE outranks OTHER. */
  lemma PointsOrder()
    ensures Points(Album) > Points(Single) > Points(Other)
  {
  }

  // ---------------------------------------------------------------------------------------------
  // Release selection

  /** The release's type list is exactly `[t]`: one type, and it is `t`. */
  predicate IsExactly(release: AcoustidRelease, t: ReleaseType)
  {
    |release.types| == 1 && release.types[0] == t
  }

  /** Index of the first release whose types are exactly `[t]`, or `|releases|` if none is. */
  function FirstIndex(releases: seq<AcoustidRelease>, t: ReleaseType): (k: nat)
    ensures k <= |releases|
    ensures k < |releases| ==> IsExactly(releases[k], t)
    ensures forall j :: 0 <= j < k ==> !IsExactly(releases[j], t)
  {
    if releases == [] then 0
    else if IsExactly(releases[0], t) then 0
    else 1 + FirstIndex(releases[1..], t)
  }

  /** The first release whose types are exactly `[t]`, if any. */
  function FirstRelease(releases: seq<AcoustidRelease>, t: ReleaseType): (r: Option<AcoustidRelease>)
    ensures r.None? <==> forall i :: 0 <= i < |releases| ==> !IsExactly(releases[i], t)
    ensures r.Some? ==> r.value in releases && IsExactly(r.value, t)
  {
    var k := FirstIndex(releases, t);
    if k < |releases| then Some(releases[k]) else None
  }

  /** The loop shared by `find_album` and `find_single`: scan in order, return the first hit. */
  method FindFirstRelease(releases: seq<AcoustidRelease>, t: ReleaseType) returns (r: Option<AcoustidRelease>)
    ensures r == FirstRelease(releases, t)
    ensures r.Some? ==> exists i :: (0 <= i < |releases| && releases[i] == r.value &&
      IsExactly(releases[i], t) && forall j :: 0 <= j < i ==> !IsExactly(releases[j], t))
  {
    var i := 0;
    while i < |releases|
      invariant 0 <= i <= |releases|
      invariant forall j :: 0 <= j < i ==> !IsExactly(releases[j], t)
    {
      if |releases[i].types| == 1 && releases[i].types[0] == t {
        assert FirstIndex(releases, t) == i;
        return Some(releases[i]);
      }
      i := i + 1;
    }
    return None;
  }

  /** `find_album`. */
  method FindAlbum(releases: seq<AcoustidRelease>) returns (r: Option<AcoustidRelease>)
    ensures r == FirstRelease(releases, Album)
  {
    r := FindFirstRelease(releases, Album);
  }

  /** `find_single`. */
  method FindSingle(releases: seq<AcoustidRelease>) returns (r: Option<AcoustidRelease>)
    ensures r == FirstRelease(releases, Single)
  {
    r := FindFirstRelease(releases, Single);
  }

  /** A release parsed from a group with secondary types is never selected, as album or single. */
  lemma SecondaryTypesNeverSelected(json: RawReleaseGroup, t: ReleaseType)
    requires json.secondarytypes.Some? && json.secondarytypes.value != []
    ensures !IsExactly(ReleaseFromJson(json), t)
  {
    SecondaryTypesLengthenTypes(json);
  }

  // ---------------------------------------------------------------------------------------------
  // Candidates

  /** The fuzzy filename score `fuzz.token_set_ratio`, left uninterpreted. */
  type Scorer = (string, string) -> int

  /** The string a recording is scored by: `"<artist> - <title>"`. */
  function Label(recording: AcoustidRecording): string
  {
    recording.artist + " - " + recording.title
  }

  /** `score_recording_for_file`. */
  function FileScore(scorer: Scorer, recording: AcoustidRecording, basename: string): int
  {
    scorer(Label(recording), basename)
  }

  /** The synthetic release used when a recording has neither an album nor a single. */
  function Fallback(recording: AcoustidRecording): AcoustidRelease
  {
    AcoustidRelease("", recording.title + " - Single", [Other])
  }

  /** `find_album(...) or find_single(...) or <fallback>`. */
  function ChosenRelease(recording: AcoustidRecording): (r: AcoustidRelease)
    ensures |r.types| == 1
  {
    FirstRelease(recording.releases, Album).GetOr(
      FirstRelease(recording.releases, Single).GetOr(Fallback(recording)))
  }

  /** The match `find_best_match` appends for one recording of a result with score `audio`. */
  function Candidate(audio: real, recording: AcoustidRecording, file: int): Match
  {
    var release := ChosenRelease(recording);
    Match(Song(recording.artist, recording.title, release.title), Score(audio, file, release.types[0]))
  }

  /** What a candidate holds: album first, else single (title unchanged), else the fallback. */
  lemma CandidateFields(audio: real, recording: AcoustidRecording, file: int)
    ensures var m := Candidate(audio, recording, file);
      && m.song.artist == recording.artist && m.song.title == recording.title
      && m.score.audio == audio && m.score.file == file
      && (FirstRelease(recording.releases, Album).Some? ==>
            m.song.album == FirstRelease(recording.releases, Album).value.title && Points(m.score.releaseType) == 10)
      && (FirstRelease(recording.releases, Album).None? && FirstRelease(recording.releases, Single).Some? ==>
            m.song.album == FirstRelease(recording.releases, Single).value.title && Points(m.score.releaseType) == 5)
      && (FirstRelease(recording.releases, Album).None? && FirstRelease(recording.releases, Single).None? ==>
            m.song.album == recording.title + " - Single" && Points(m.score.releaseType) == 0)
  {
  }

  /** Releases listed after a hit do not change the first hit. */
  lemma {:induction false} FirstIndexAppend(releases: seq<AcoustidRelease>, extra: seq<AcoustidRelease>, t: ReleaseType)
    requires FirstIndex(releases, t) < |releases|
    ensures FirstIndex(releases + extra, t) == FirstIndex(releases, t)
  {
    if !IsExactly(releases[0], t) {
      assert (releases + extra)[1..] == releases[1..] + extra;
      FirstIndexAppend(releases[1..], extra, t);
    }
  }

  /**
   * Once a recording has an album, releases after it change neither its candidate nor its file
   * score: `find_album` stops at the first album.
   */
  lemma ReleasesAfterAlbumIgnored(audio: real, recording: AcoustidRecording, extra: seq<AcoustidRelease>, scorer: Scorer, basename: string)
    requires FirstRelease(recording.releases, Album).Some?
    ensures var longer := recording.(releases := recording.releases + extra);
      && FileScore(scorer, longer, basename) == FileScore(scorer, recording, basename)
      && Candidate(audio, longer, FileScore(scorer, longer, basename))
        == Candidate(audio, recording, FileScore(scorer, recording, basename))
  {
    var releases := recording.releases;
    FirstIndexAppend(releases, extra, Album);
    assert (releases + extra)[FirstIndex(releases, Album)] == releases[FirstIndex(releases, Album)];
  }

  /** A candidate that fell back to the synthetic release is never confident, whatever its scores. */
  lemma FallbackNeverConfident(audio: real, recording: AcoustidRecording, file: int)
    requires FirstRelease(recording.releases, Album).None? && FirstRelease(recording.releases, Single).None?
    ensures !IsConfident(Candidate(audio, recording, file))
  {
  }

  /** The candidates of one result, one per recording, in order. */
  function ResultCandidates(result: AcoustidResult, scorer: Scorer, basename: string): (ms: seq<Match>)
    ensures |ms| == |result.recordings|
  {
    seq(|result.recordings|, j requires 0 <= j < |result.recordings| =>
      Candidate(result.score, result.recordings[j], FileScore(scorer, result.recordings[j], basename)))
  }

  /** The candidates of all results, result by result. */
  function AllCandidates(results: seq<AcoustidResult>, scorer: Scorer, basename: string): seq<Match>
  {
    if results == [] then []
    else AllCandidates(results[..|results| - 1], scorer, basename) + ResultCandidates(results[|results| - 1], scorer, basename)
  }

  /** Appending one result appends exactly its candidates. */
  lemma AllCandidatesSnoc(results: seq<AcoustidResult>, r: AcoustidResult, scorer: Scorer, basename: string)
    ensures AllCandidates(results + [r], scorer, basename) ==
      AllCandidates(results, scorer, basename) + ResultCandidates(r, scorer, basename)
  {
    assert (results + [r])[..|results|] == results;
  }

  /** The list `max` runs over: the sentinel, then every candidate. */
  function Matches(results: seq<AcoustidResult>, scorer: Scorer, basename: string): (ms: seq<Match>)
    ensures |ms| > 0 && ms[0] == Sentinel
  {
    [Sentinel] + AllCandidates(results, scorer, basename)
  }

  /**
   * Python's `max(ms, key=Key)`: scan from the left, replacing the best so far only by a strictly
   * greater key. The result is the first position with the greatest key.
   */
  function ArgMax(ms: seq<Match>): (k: nat)
    requires |ms| > 0
    ensures k < |ms|
    ensures forall j :: 0 <= j < |ms| ==> Key(ms[j]) <= Key(ms[k])
    ensures forall j :: 0 <= j < k ==> Key(ms[j]) < Key(ms[k])
  {
    if |ms| == 1 then 0
    else
      var k := ArgMax(ms[..|ms| - 1]);
      if Key(ms[|ms| - 1]) > Key(ms[k]) then |ms| - 1 else k
  }

  /** The match `find_best_match` returns. */
  function BestMatch(results: seq<AcoustidResult>, scorer: Scorer, basename: string): Match
  {
    var ms := Matches(results, scorer, basename);
    ms[ArgMax(ms)]
  }

  /** One pass of `find_best_match`'s inner loop: score the recording, pick its release, build the match. */
  method MatchRecording(audio: real, recording: AcoustidRecording, basename: string, scorer: Scorer) returns (m: Match)
    ensures m == Candidate(audio, recording, FileScore(scorer, recording, basename))
  {
    var fileScore := scorer(Label(recording), basename);
    var album := FindAlbum(recording.releases);
    var release: AcoustidRelease;
    if album.Some? {
      release := album.value;
    } else {
      var single := FindSingle(recording.releases);
      if single.Some? {
        release := single.value;
      } else {
        release := Fallback(recording);
      }
    }
    assert release == ChosenRelease(recording);
    var song := Song(recording.artist, recording.title, release.title);
    var score := Score(audio, fileScore, release.types[0]);
    m := Match(song, score);
  }

  /** The list grows by one result's candidates per pass of the outer loop. */
  lemma MatchesSnoc(results: seq<AcoustidResult>, scorer: Scorer, basename: string)
    requires results != []
    ensures Matches(results, scorer, basename) ==
      Matches(results[..|results| - 1], scorer, basename) + ResultCandidates(results[|results| - 1], scorer, basename)
  {
  }

  /** The inner loop of `find_best_match`: append one match per recording of the result, in order. */
  method AppendResultMatches(matches: seq<Match>, result: AcoustidResult, basename: string, scorer: Scorer)
    returns (extended: seq<Match>)
    ensures extended == matches + ResultCandidates(result, scorer, basename)
  {
    extended := matches;
    ghost var done := ResultCandidates(result, scorer, basename);
    var j := 0;
    while j < |result.recordings|
      invariant 0 <= j <= |result.recordings|
      invariant extended == matches + done[..j]
    {
      var candidate := MatchRecording(result.score, result.recordings[j], basename, scorer);
      assert done[..j + 1] == done[..j] + [candidate];
      extended := extended + [candidate];
      j := j + 1;
    }
    assert done[..j] == done;
  }

  /** `find_best_match`: build the candidate list result by result, then take its first maximum. */
  method FindBestMatch(results: seq<AcoustidResult>, basename: string, scorer: Scorer) returns (m: Match)
    ensures m == BestMatch(results, scorer, basename)
    ensures Key(Sentinel) <= Key(m)
    ensures forall c :: c in AllCandidates(results, scorer, basename) ==> Key(c) <= Key(m)
  {
    var matches := [Sentinel];
    var i := 0;
    while i < |results|
      invariant 0 <= i <= |results|
      invariant matches == Matches(results[..i], scorer, basename)
    {
      matches := AppendResultMatches(matches, results[i], basename, scorer);
      MatchesSnoc(results[..i + 1], scorer, basename);
      assert results[..i + 1][..i] == results[..i];
      i := i + 1;
    }
    assert results[..i] == results;
    m := matches[ArgMax(matches)];
    BestMatchIsMaximal(results, scorer, basename);
  }

  // ---------------------------------------------------------------------------------------------
  // What the ranking guarantees

  /** The winner's key is at least that of the sentinel and of every candidate. */
  lemma BestMatchIsMaximal(results: seq<AcoustidResult>, scorer: Scorer, basename: string)
    ensures var best := BestMatch(results, scorer, basename);
      && best in Matches(results, scorer, basename)
      && Key(best) >= Key(Sentinel) == 0
      && forall c :: c in AllCandidates(results, scorer, basename) ==> Key(c) <= Key(best)
  {
    var ms := Matches(results, scorer, basename);
    forall c | c in AllCandidates(results, scorer, basename)
      ensures Key(c) <= Key(ms[ArgMax(ms)])
    {
      var j :| 0 <= j < |AllCandidates(results, scorer, basename)| && AllCandidates(results, scorer, basename)[j] == c;
      assert ms[j + 1] == c;
    }
  }

  /** Ties go to the earlier entry: no entry with a key equal to an earlier entry's key wins. */
  lemma TieGoesToEarlier(ms: seq<Match>, i: nat, j: nat)
    requires i < j < |ms| && Key(ms[i]) == Key(ms[j])
    ensures ArgMax(ms) != j
  {
  }

  /** The winner has the highest file score of all candidates. */
  lemma BestMatchHasTopFileScore(results: seq<AcoustidResult>, scorer: Scorer, basename: string)
    ensures forall c :: c in AllCandidates(results, scorer, basename) ==>
      c.score.file <= BestMatch(results, scorer, basename).score.file
  {
    BestMatchIsMaximal(results, scorer, basename);
    var best := BestMatch(results, scorer, basename);
    forall c | c in AllCandidates(results, scorer, basename)
      ensures c.score.file <= best.score.file
    {
      FileScoreDominates(c, best);
    }
  }

  /** When every candidate's key is at most 0, the sentinel stays the winner. */
  lemma SentinelWinsWithoutPositiveKey(results: seq<AcoustidResult>, scorer: Scorer, basename: string)
    requires forall c :: c in AllCandidates(results, scorer, basename) ==> Key(c) <= 0
    ensures BestMatch(results, scorer, basename) == Sentinel
  {
    var ms := Matches(results, scorer, basename);
    var k := ArgMax(ms);
    if k > 0 {
      assert false;
    }
  }

  /** Results without recordings contribute no candidates. */
  lemma {:induction false} NoRecordingsNoCandidates(results: seq<AcoustidResult>, scorer: Scorer, basename: string)
    requires forall i :: 0 <= i < |results| ==> results[i].recordings == []
    ensures AllCandidates(results, scorer, basename) == []
  {
    if results != [] {
      NoRecordingsNoCandidates(results[..|results| - 1], scorer, basename);
    }
  }

  /** No results, or none with recordings, yield exactly the sentinel, which is not confident. */
  lemma NothingFoundGivesSentinel(results: seq<AcoustidResult>, scorer: Scorer, basename: string)
    requires forall i :: 0 <= i < |results| ==> results[i].recordings == []
    ensures BestMatch(results, scorer, basename) == Sentinel
    ensures !IsConfident(BestMatch(results, scorer, basename))
  {
    NoRecordingsNoCandidates(results, scorer, basename);
  }

  /** Every candidate comes from one recording of one result and carries that result's score. */
  lemma {:induction false} CandidateOrigin(results: seq<AcoustidResult>, scorer: Scorer, basename: string, k: nat)
    requires k < |AllCandidates(results, scorer, basename)|
    ensures exists i, j :: (0 <= i < |results| && 0 <= j < |results[i].recordings| &&
      AllCandidates(results, scorer, basename)[k] ==
        Candidate(results[i].score, results[i].recordings[j], FileScore(scorer, results[i].recordings[j], basename)))
  {
    var n := |results| - 1;
    var front := AllCandidates(results[..n], scorer, basename);
    if k < |front| {
      CandidateOrigin(results[..n], scorer, basename, k);
      var i, j :| 0 <= i < n && 0 <= j < |results[..n][i].recordings| &&
        front[k] == Candidate(results[..n][i].score, results[..n][i].recordings[j],
                              FileScore(scorer, results[..n][i].recordings[j], basename));
      assert results[..n][i] == results[i];
    } else {
      var j := k - |front|;
      assert AllCandidates(results, scorer, basename)[k] == ResultCandidates(results[n], scorer, basename)[j];
    }
  }

  /** A confident winner is a real candidate whose album came from an ALBUM or SINGLE release. */
  lemma ConfidentWinnerHasRealRelease(results: seq<AcoustidResult>, scorer: Scorer, basename: string)
    requires IsConfident(BestMatch(results, scorer, basename))
    ensures exists i, j :: (0 <= i < |results| && 0 <= j < |results[i].recordings| &&
      var recording := results[i].recordings[j];
      && BestMatch(results, scorer, basename).score.audio == results[i].score
      && BestMatch(results, scorer, basename).song.title == recording.title
      && (FirstRelease(recording.releases, Album).Some? || FirstRelease(recording.releases, Single).Some?))
  {
    var ms := Matches(results, scorer, basename);
    var k := ArgMax(ms);
    SentinelNotConfident();
    assert k > 0;
    CandidateOrigin(results, scorer, basename, k - 1);
    var i, j :| 0 <= i < |results| && 0 <= j < |results[i].recordings| &&
      ms[k] == Candidate(results[i].score, results[i].recordings[j], FileScore(scorer, results[i].recordings[j], basename));
    var recording := results[i].recordings[j];
    if FirstRelease(recording.releases, Album).None? && FirstRelease(recording.releases, Single).None? {
      FallbackNeverConfident(results[i].score, recording, FileScore(scorer, recording, basename));
    }
  }

  /** `max` depends on the keys alone: equal keys position by position give the same winner. */
  lemma {:induction false} ArgMaxByKeysOnly(a: seq<Match>, b: seq<Match>)
    requires |a| == |b| > 0
    requires forall i :: 0 <= i < |a| ==> Key(a[i]) == Key(b[i])
    ensures ArgMax(a) == ArgMax(b)
  {
    if |a| > 1 {
      ArgMaxByKeysOnly(a[..|a| - 1], b[..|b| - 1]);
    }
  }

  /** Two matches that agree on everything except the audio score. */
  predicate SameButAudio(x: Match, y: Match)
  {
    x.song == y.song && x.score.file == y.score.file && x.score.releaseType == y.score.releaseType
  }

  /** Results that differ only in their scores give candidates that differ only in audio. */
  lemma {:induction false} CandidatesIgnoreAudio(r1: seq<AcoustidResult>, r2: seq<AcoustidResult>, scorer: Scorer, basename: string)
    requires |r1| == |r2|
    requires forall i :: 0 <= i < |r1| ==> r1[i].recordings == r2[i].recordings
    ensures |AllCandidates(r1, scorer, basename)| == |AllCandidates(r2, scorer, basename)|
    ensures forall k :: 0 <= k < |AllCandidates(r1, scorer, basename)| ==>
      SameButAudio(AllCandidates(r1, scorer, basename)[k], AllCandidates(r2, scorer, basename)[k])
  {
    if r1 != [] {
      var n := |r1| - 1;
      CandidatesIgnoreAudio(r1[..n], r2[..n], scorer, basename);
    }
  }

  /** The audio score plays no part in the ranking: it only travels with the winner. */
  lemma AudioDoesNotRank(r1: seq<AcoustidResult>, r2: seq<AcoustidResult>, scorer: Scorer, basename: string)
    requires |r1| == |r2|
    requires forall i :: 0 <= i < |r1| ==> r1[i].recordings == r2[i].recordings
    ensures SameButAudio(BestMatch(r1, scorer, basename), BestMatch(r2, scorer, basename))
  {
    var m1 := Matches(r1, scorer, basename);
    var m2 := Matches(r2, scorer, basename);
    CandidatesIgnoreAudio(r1, r2, scorer, basename);
    forall i | 0 <= i < |m1|
      ensures SameButAudio(m1[i], m2[i]) && Key(m1[i]) == Key(m2[i])
    {
      if i > 0 {
        assert m1[i] == AllCandidates(r1, scorer, basename)[i - 1];
        assert m2[i] == AllCandidates(r2, scorer, basename)[i - 1];
      }
    }
    ArgMaxByKeysOnly(m1, m2);
  }
}
