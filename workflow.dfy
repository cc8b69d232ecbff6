/**
 * The per-file decisions around the best match (song.py:83-86, 230-236, 247-259, 289-294,
 * 321-323, 393-410): identifying a file, the blank-keeps-old override rule, routing an
 * unconfident match, the output file name, the cover lookup album and yt-dlp's output lines.
 */
module Workflow {
  import opened Wrappers
  import Text
  import opened AcoustidJson
  import opened Matching

  // ---------------------------------------------------------------------------------------------
  // Identifying one file (fingerprint_mp3file, after the lookup)

  /** Parse every raw result with `AcoustidResult.from_json`. */
  function ParseResults(raw: seq<RawResult>): (rs: seq<AcoustidResult>)
    ensures |rs| == |raw| && forall i :: 0 <= i < |raw| ==> rs[i] == ResultFromJson(raw[i])
  {
    seq(|raw|, i requires 0 <= i < |raw| => ResultFromJson(raw[i]))
  }

  /** Keep only results with at least one recording, in order. */
  function WithRecordings(results: seq<AcoustidResult>): (rs: seq<AcoustidResult>)
    ensures forall i :: 0 <= i < |rs| ==> |rs[i].recordings| > 0
    ensures forall r :: r in results && |r.recordings| > 0 ==> r in rs
    ensures forall r :: r in rs ==> r in results
  {
    if results == [] then []
    else
      var front := results[..|results| - 1];
      var last := results[|results| - 1];
      assert forall r :: r in results ==> r in front || r == last by {
        assert results == front + [last];
      }
      WithRecordings(front) + (if |last.recordings| > 0 then [last] else [])
  }

  /** Dropping the results without recordings removes no candidate. */
  lemma {:induction false} FilterKeepsCandidates(results: seq<AcoustidResult>, scorer: Scorer, basename: string)
    ensures AllCandidates(WithRecordings(results), scorer, basename) == AllCandidates(results, scorer, basename)
  {
    if results != [] {
      var n := |results| - 1;
      var last := results[n];
      FilterKeepsCandidates(results[..n], scorer, basename);
      if |last.recordings| > 0 {
        AllCandidatesSnoc(WithRecordings(results[..n]), last, scorer, basename);
      } else {
        assert WithRecordings(results) == WithRecordings(results[..n]) + [];
        assert WithRecordings(results) == WithRecordings(results[..n]);
        assert ResultCandidates(last, scorer, basename) == [];
        assert AllCandidates(results, scorer, basename) ==
          AllCandidates(results[..n], scorer, basename) + ResultCandidates(last, scorer, basename);
      }
    }
  }

  /** The song and the verdict for one file, given the raw `results` of its lookup. */
  function Identify(raw: seq<RawResult>, basename: string, scorer: Scorer): (Song, bool)
  {
    var best := BestMatch(WithRecordings(ParseResults(raw)), scorer, basename);
    (best.song, IsConfident(best))
  }

  /** The filtering step does not change which match is chosen. */
  lemma IdentifyIgnoresFilter(raw: seq<RawResult>, basename: string, scorer: Scorer)
    ensures Identify(raw, basename, scorer).0 == BestMatch(ParseResults(raw), scorer, basename).song
    ensures Identify(raw, basename, scorer).1 == IsConfident(BestMatch(ParseResults(raw), scorer, basename))
  {
    FilterKeepsCandidates(ParseResults(raw), scorer, basename);
  }

  /** An empty `results` list gives the empty song and no confidence. */
  lemma IdentifyNoResults(basename: string, scorer: Scorer)
    ensures Identify([], basename, scorer) == (Song("", "", ""), false)
  {
    NothingFoundGivesSentinel([], scorer, basename);
  }

  /** A single candidate with a positive key displaces the sentinel. */
  lemma BestOfOneCandidate(results: seq<AcoustidResult>, scorer: Scorer, basename: string, c: Match)
    requires AllCandidates(results, scorer, basename) == [c] && Key(c) > 0
    ensures BestMatch(results, scorer, basename) == c
  {
    var ms := Matches(results, scorer, basename);
    assert ms == [Sentinel, c];
    assert ms[..1] == [Sentinel];
    assert ArgMax(ms[..1]) == 0 && Key(ms[1]) > Key(ms[0]);
    assert ArgMax(ms) == 1;
  }

  /** The candidates of a single result. */
  lemma CandidatesOfOneResult(r: AcoustidResult, scorer: Scorer, basename: string)
    ensures AllCandidates([r], scorer, basename) == ResultCandidates(r, scorer, basename)
  {
    assert [r][..0] == [];
  }

  /** One recording credited to "Artist", titled "Song", with the given release groups. */
  function ExampleRecording(groups: Option<seq<RawReleaseGroup>>): RawRecording
  {
    RawRecording(Some([ArtistCredit("Artist", None)]), Some("Song"), groups)
  }

  /** A result with score 0.9 holding that one recording. */
  function ExampleResult(groups: Option<seq<RawReleaseGroup>>): RawResult
  {
    RawResult(Some(0.9), Some([ExampleRecording(groups)]))
  }

  /** The example result parses to one recording of "Artist" with the parsed releases. */
  lemma ParseExample(groups: Option<seq<RawReleaseGroup>>)
    ensures var rec := RecordingFromJson(ExampleRecording(groups));
      && rec.artist == "Artist" && rec.title == "Song" && Label(rec) == "Artist - Song"
      && ParseResults([ExampleResult(groups)]) == [AcoustidResult(0.9, [rec])]
  {
    assert JoinArtists([ArtistCredit("Artist", None)]) == "Artist";
    var rec := RecordingFromJson(ExampleRecording(groups));
    assert ResultFromJson(ExampleResult(groups)).recordings == [rec];
  }

  /** The example album release group parses to a release of type exactly ALBUM. */
  lemma AlbumGroupParses()
    ensures ReleaseFromJson(RawReleaseGroup(None, Some("Album Name"), Some("Album"), None))
      == AcoustidRelease("", "Album Name", [Album])
  {
    assert Text.Upper("Album") == "ALBUM";
    assert ParseTypes("Album", []) == [Album];
  }

  /** A single result with recordings passes the filter. */
  lemma KeepOneResult(result: AcoustidResult)
    requires |result.recordings| > 0
    ensures WithRecordings([result]) == [result]
  {
    assert [result][..0] == [];
  }

  /** A lookup that parses to one recording identifies that recording's candidate, if its key is positive. */
  lemma IdentifyOneRecording(raw: seq<RawResult>, audio: real, rec: AcoustidRecording, basename: string, scorer: Scorer)
    requires ParseResults(raw) == [AcoustidResult(audio, [rec])]
    requires Key(Candidate(audio, rec, FileScore(scorer, rec, basename))) > 0
    ensures var c := Candidate(audio, rec, FileScore(scorer, rec, basename));
      Identify(raw, basename, scorer) == (c.song, IsConfident(c))
  {
    var result := AcoustidResult(audio, [rec]);
    var c := Candidate(audio, rec, FileScore(scorer, rec, basename));
    KeepOneResult(result);
    CandidatesOfOneResult(result, scorer, basename);
    assert ResultCandidates(result, scorer, basename) == [c];
    BestOfOneCandidate([result], scorer, basename, c);
    assert Identify(raw, basename, scorer) == (BestMatch([result], scorer, basename).song, IsConfident(c));
  }

  /** The example recording on that album release group chooses the album. */
  lemma AlbumExampleRelease(groups: Option<seq<RawReleaseGroup>>)
    requires groups == Some([RawReleaseGroup(None, Some("Album Name"), Some("Album"), None)])
    ensures ChosenRelease(RecordingFromJson(ExampleRecording(groups))) == AcoustidRelease("", "Album Name", [Album])
  {
    AlbumGroupParses();
    var rec := RecordingFromJson(ExampleRecording(groups));
    assert rec.releases == [AcoustidRelease("", "Album Name", [Album])];
    assert FirstIndex(rec.releases, Album) == 0;
  }

  /** An album release group, with the file score at least 70: the album is taken, confidently. */
  lemma IdentifyAlbumExample(basename: string, scorer: Scorer)
    requires scorer("Artist - Song", basename) >= 70
    ensures Identify([ExampleResult(Some([RawReleaseGroup(None, Some("Album Name"), Some("Album"), None)]))], basename, scorer)
      == (Song("Artist", "Song", "Album Name"), true)
  {
    var groups := Some([RawReleaseGroup(None, Some("Album Name"), Some("Album"), None)]);
    ParseExample(groups);
    AlbumExampleRelease(groups);
    var rec := RecordingFromJson(ExampleRecording(groups));
    IdentifyOneRecording([ExampleResult(groups)], 0.9, rec, basename, scorer);
  }

  /** No release groups at all: the fallback album "Song - Single" wins but is never confident. */
  lemma IdentifyWithoutReleasesExample(basename: string, scorer: Scorer)
    requires scorer("Artist - Song", basename) >= 70
    ensures Identify([ExampleResult(None)], basename, scorer) == (Song("Artist", "Song", "Song - Single"), false)
  {
    ParseExample(None);
    var rec := RecordingFromJson(ExampleRecording(None));
    assert rec.releases == [];
    var c := Candidate(0.9, rec, FileScore(scorer, rec, basename));
    assert c.song == Song("Artist", "Song", "Song - Single") && !IsConfident(c);
    IdentifyOneRecording([ExampleResult(None)], 0.9, rec, basename, scorer);
  }

  /** A file score of 95 without releases beats a file score of 60 on an album. */
  lemma FileScoreBeatsAlbumExample(r1: AcoustidRecording, r2: AcoustidRecording, audio: real, basename: string, scorer: Scorer)
    requires r1.releases == [] && FirstRelease(r2.releases, Album).Some?
    requires FileScore(scorer, r1, basename) == 95 && FileScore(scorer, r2, basename) == 60
    ensures BestMatch([AcoustidResult(audio, [r1, r2])], scorer, basename) == Candidate(audio, r1, 95)
  {
    var result := AcoustidResult(audio, [r1, r2]);
    var c1 := Candidate(audio, r1, 95);
    var c2 := Candidate(audio, r2, 60);
    CandidatesOfOneResult(result, scorer, basename);
    assert ResultCandidates(result, scorer, basename) == [c1, c2];
    var ms := Matches([result], scorer, basename);
    assert ms == [Sentinel, c1, c2];
    assert Key(c1) == 95000 && Key(c2) == 60010;
    assert ms[..2] == [Sentinel, c1];
    assert ms[..2][..1] == [Sentinel];
    assert ArgMax(ms[..2]) == 1;
  }

  // ---------------------------------------------------------------------------------------------
  // Manual correction (ask_user)

  /** `input(prompt) or previous`: a blank answer keeps the previous value. */
  function Override(entered: string, previous: string): (r: string)
    ensures entered != "" ==> r == entered
    ensures entered == "" ==> r == previous
  {
    if entered == "" then previous else entered
  }

  /** The three answers typed after agreeing to manual adjustments. */
  datatype Answers = Answers(artist: string, title: string, album: string)

  /** `ask_user`: `None` when the user declines adjustments, otherwise each field overridden. */
  function AskUser(song: Song, answers: Option<Answers>): (r: Song)
    ensures answers.None? ==> r == song
    ensures answers.Some? ==>
      && r.artist == (if answers.value.artist == "" then song.artist else answers.value.artist)
      && r.title == (if answers.value.title == "" then song.title else answers.value.title)
      && r.album == (if answers.value.album == "" then song.album else answers.value.album)
  {
    match answers
    case None => song
    case Some(a) => Song(Override(a.artist, song.artist), Override(a.title, song.title), Override(a.album, song.album))
  }

  /** All-blank answers keep the song; each field is either the typed answer or the old value. */
  lemma AskUserFields(song: Song, a: Answers)
    ensures AskUser(song, Some(Answers("", "", ""))) == song
    ensures var r := AskUser(song, Some(a));
      && (r.artist == a.artist || r.artist == song.artist)
      && (r.title == a.title || r.title == song.title)
      && (r.album == a.album || r.album == song.album)
  {
  }

  // ---------------------------------------------------------------------------------------------
  // Routing one file (main)

  /** What `main` does with a file before `modify_mp3file`. */
  datatype Route = Accept | PlaceInSkipped | AskForCorrection

  function RouteFor(confident: bool, manual: bool, skip: bool): (r: Route)
    ensures r == Accept <==> confident && !manual
    ensures r == PlaceInSkipped <==> (!confident || manual) && skip
    ensures r == AskForCorrection <==> (!confident || manual) && !skip
  {
    if !confident || manual then (if skip then PlaceInSkipped else AskForCorrection) else Accept
  }

  /** The song `main` hands to `modify_mp3file`, which it calls on every route. */
  function TaggedSong(route: Route, song: Song, answers: Option<Answers>): (r: Song)
    ensures route != AskForCorrection ==> r == song
    ensures route == AskForCorrection ==> r == AskUser(song, answers)
  {
    match route
    case AskForCorrection => AskUser(song, answers)
    case _ => song
  }

  /** A skipped file is still renamed and tagged with the unconfident song, not left untouched. */
  lemma SkippedFileStillTagged(song: Song, manual: bool, answers: Option<Answers>)
    ensures RouteFor(false, manual, true) == PlaceInSkipped
    ensures TaggedSong(RouteFor(false, manual, true), song, answers) == song
  {
  }

  // ---------------------------------------------------------------------------------------------
  // What happens to the file itself (main, copy_or_move, rename_mp3file)

  /** The files on disk, by path, and whether a run ended in an exception. */
  datatype FileRun = Crashed | Done(files: set<string>, tagged: Option<string>)

  /** `copy_or_move`: copy (same file: a warning, nothing done) or `os.replace`; a missing source raises. */
  function CopyOrMove(files: set<string>, source: string, destination: string, keep: bool): (r: Option<set<string>>)
    ensures r.Some? <==> source in files
    ensures r.Some? ==> destination in r.value
    ensures r.Some? && keep ==> r.value == files + {destination}
    ensures r.Some? && !keep ==> r.value == files - {source} + {destination}
    ensures r.Some? && !keep ==> source != destination ==> source !in r.value
  {
    if source !in files then None
    else if keep then Some(files + {destination})
    else Some(files - {source} + {destination})
  }

  /** `rename_mp3file` then tagging: the file is moved or copied to `output` and tagged there. */
  function Modify(files: set<string>, source: string, output: string, keep: bool): (r: FileRun)
    ensures r.Done? <==> source in files
    ensures r.Done? ==> r.tagged == Some(output) && output in r.files
    ensures r.Done? && keep ==> r.files == files + {output}
    ensures r.Done? && !keep ==> r.files == files - {source} + {output}
  {
    match CopyOrMove(files, source, output, keep)
    case None => Crashed
    case Some(after) => Done(after, Some(output))
  }

  /** `main`'s handling of one file as written: the skip branch falls through to `modify_mp3file`. */
  function ProcessAsWritten(files: set<string>, source: string, skipped: string, output: string, route: Route, keep: bool): (r: FileRun)
    ensures source !in files ==> r.Crashed?
    ensures r.Done? ==> r.tagged == Some(output) && output in r.files
    ensures route == PlaceInSkipped && keep && r.Done? ==> skipped in r.files
  {
    if route == PlaceInSkipped then
      match CopyOrMove(files, source, skipped, keep)
      case None => Crashed
      case Some(after) => Modify(after, source, output, keep)
    else Modify(files, source, output, keep)
  }

  /** Skipping without `--keep` moves the file away and then raises when moving it again. */
  lemma SkipWithoutKeepCrashes(files: set<string>, source: string, skipped: string, output: string)
    requires source in files && source != skipped
    ensures ProcessAsWritten(files, source, skipped, output, PlaceInSkipped, false) == Crashed
  {
  }

  /** Skipping with `--keep` copies the file aside and still tags the original into the output. */
  lemma SkipWithKeepStillTags(files: set<string>, source: string, skipped: string, output: string)
    requires source in files
    ensures ProcessAsWritten(files, source, skipped, output, PlaceInSkipped, true) == Done(files + {skipped} + {output}, Some(output))
  {
  }

  /** The evident intent of `--skip`: place the file aside and do not process it. */
  function ProcessIntended(files: set<string>, source: string, skipped: string, output: string, route: Route, keep: bool): (r: FileRun)
    ensures source in files ==> r.Done?
    ensures route == PlaceInSkipped && source in files ==> r.tagged.None? && skipped in r.files
    ensures route == PlaceInSkipped && source in files && keep ==> r.files == files + {skipped}
    ensures route == PlaceInSkipped && source in files && !keep ==> r.files == files - {source} + {skipped}
    ensures route != PlaceInSkipped && source in files ==> r.tagged == Some(output) && output in r.files
  {
    if route == PlaceInSkipped then
      match CopyOrMove(files, source, skipped, keep)
      case None => Crashed
      case Some(after) => Done(after, None)
    else Modify(files, source, output, keep)
  }

  /** Outside the skip route the intended and the written handling agree. */
  lemma IntendedAgreesOffSkip(files: set<string>, source: string, skipped: string, output: string, route: Route, keep: bool)
    requires route != PlaceInSkipped
    ensures ProcessIntended(files, source, skipped, output, route, keep) == ProcessAsWritten(files, source, skipped, output, route, keep)
  {
  }

  // ---------------------------------------------------------------------------------------------
  // Output file name and cover lookup

  /** U+29F8 BIG SOLIDUS, which stands in for "/" in file names. */
  const Solidus: char := '\U{29F8}'

  /** The base name `rename_mp3file` gives the tagged file. */
  function Mp3Basename(song: Song): (name: string)
    ensures '/' !in name
    ensures Text.EndsWith(name, ".mp3")
    ensures |name| == |song.artist| + |song.title| + 7
  {
    var name := Text.ReplaceChar(song.artist + " - " + song.title + ".mp3", '/', Solidus);
    assert name[|name| - 4..] == ".mp3";
    name
  }

  /** Without "/" in artist or title, the base name is exactly "<artist> - <title>.mp3". */
  lemma Mp3BasenameWithoutSlash(song: Song)
    requires '/' !in song.artist && '/' !in song.title
    ensures Mp3Basename(song) == song.artist + " - " + song.title + ".mp3"
  {
    var s := song.artist + " - " + song.title + ".mp3";
    assert forall i :: 0 <= i < |s| ==> s[i] != '/';
  }

  /** The album searched for cover art: the album with a trailing " - Single" removed. */
  function CoverAlbum(song: Song): (album: string)
    ensures Text.EndsWith(song.album, " - Single") ==> album + " - Single" == song.album
    ensures !Text.EndsWith(song.album, " - Single") ==> album == song.album
  {
    Text.RemoveSuffix(song.album, " - Single")
  }

  /** A match on the fallback release looks its cover up under the recording's own title. */
  lemma FallbackCoverAlbum(audio: real, recording: AcoustidRecording, file: int)
    requires FirstRelease(recording.releases, Album).None? && FirstRelease(recording.releases, Single).None?
    ensures CoverAlbum(Candidate(audio, recording, file).song) == recording.title
  {
    Text.RemoveAppendedSuffix(recording.title, " - Single");
  }

  // ---------------------------------------------------------------------------------------------
  // yt-dlp output (download_mp3files)

  /** Index of the first space in `s`, or `|s|` when there is none. */
  function SpaceIndex(s: string): (k: nat)
    ensures k <= |s|
    ensures k < |s| ==> s[k] == ' '
    ensures forall j :: 0 <= j < k ==> s[j] != ' '
  {
    if s == [] then 0 else if s[0] == ' ' then 0 else 1 + SpaceIndex(s[1..])
  }

  /** `line.split(sep=" ", maxsplit=2)[-1]`: what follows the second space, else the first, else the line. */
  function LastSplitField(line: string): (r: string)
    ensures |r| <= |line| && line[|line| - |r|..] == r
    ensures SpaceIndex(line) == |line| ==> r == line
  {
    var k := SpaceIndex(line);
    if k == |line| then line
    else
      var rest := line[k + 1..];
      var k2 := SpaceIndex(rest);
      if k2 == |rest| then rest else rest[k2 + 1..]
  }

  /** The first space of `word + " " + rest`, for a space-free word, is right after the word. */
  lemma {:induction false} SpaceAfterWord(word: string, rest: string)
    requires ' ' !in word
    ensures SpaceIndex(word + " " + rest) == |word|
  {
    if word != [] {
      assert (word + " " + rest)[1..] == word[1..] + " " + rest;
      SpaceAfterWord(word[1..], rest);
    }
  }

  /** With exactly one space, what follows it is returned. */
  lemma LastSplitFieldOfOneSpaceLine(tag: string, rest: string)
    requires ' ' !in tag && ' ' !in rest
    ensures LastSplitField(tag + " " + rest) == rest
  {
    var line := tag + " " + rest;
    SpaceAfterWord(tag, rest);
    assert line[|tag| + 1..] == rest;
    assert SpaceIndex(rest) == |rest|;
  }

  /** After two space-free words, the rest of the line is returned whole, spaces and all. */
  lemma LastSplitFieldOfDestinationLine(tag: string, word: string, path: string)
    requires ' ' !in tag && ' ' !in word
    ensures LastSplitField(tag + " " + word + " " + path) == path
  {
    var line := tag + " " + word + " " + path;
    assert line == tag + " " + (word + " " + path);
    SpaceAfterWord(tag, word + " " + path);
    var rest := line[|tag| + 1..];
    assert rest == word + " " + path;
    SpaceAfterWord(word, path);
    assert rest[|word| + 1..] == path;
  }

  /** A line yields a file name when it mentions both "Destination" and "mp3". */
  predicate IsDestinationLine(line: string)
  {
    Text.Contains(line, "Destination") && Text.Contains(line, "mp3")
  }

  /** The file names `download_mp3files` reads from yt-dlp's output lines, in order. */
  function Mp3Files(lines: seq<string>): (files: seq<string>)
    ensures |files| <= |lines|
    ensures |lines| == 1 ==> files == (if IsDestinationLine(lines[0]) then [LastSplitField(lines[0])] else [])
    ensures forall f :: f in files ==> exists line :: line in lines && IsDestinationLine(line) && f == LastSplitField(line)
  {
    if lines == [] then []
    else
      var rest := Mp3Files(lines[1..]);
      var files := if IsDestinationLine(lines[0]) then [LastSplitField(lines[0])] + rest else rest;
      assert forall f :: f in files ==> exists line :: line in lines && IsDestinationLine(line) && f == LastSplitField(line) by {
        forall f | f in files
          ensures exists line :: line in lines && IsDestinationLine(line) && f == LastSplitField(line)
        {
          if f in rest {
            var line :| line in lines[1..] && IsDestinationLine(line) && f == LastSplitField(line);
            assert line in lines;
          } else {
            assert lines[0] in lines;
          }
        }
      }
      files
  }

  /** The output of two runs of lines gives the files of the first, then those of the second. */
  lemma {:induction false} Mp3FilesAppend(a: seq<string>, b: seq<string>)
    ensures Mp3Files(a + b) == Mp3Files(a) + Mp3Files(b)
  {
    if a == [] {
      assert a + b == b;
    } else {
      assert (a + b)[0] == a[0];
      assert (a + b)[1..] == a[1..] + b;
      Mp3FilesAppend(a[1..], b);
    }
  }
}
