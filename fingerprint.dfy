/**
 * The earlier single-file script (fingerprint.py:20-51): a dictionary from "<artists> - <title>"
 * to the result's score times 100, the error when it is empty, and the low-confidence warning.
 */
module Fingerprint {
  import opened Wrappers
  import opened AcoustidJson
  import Matching

  /** A recording that gets a dictionary entry: it has both a `title` and an `artists` key. */
  predicate Listed(recording: RawRecording)
  {
    recording.title.Some? && recording.artists.Some?
  }

  /** The dictionary key of a listed recording. */
  function EntryKey(recording: RawRecording): string
    requires Listed(recording)
  {
    JoinArtists(recording.artists.value) + " - " + recording.title.value
  }

  /** The dictionary so far, or the `KeyError` raised by `result['score']` on a result without score. */
  datatype Table = Table(matches: map<string, real>) | MissingScore

  /** One pass of the inner loop: skip unlisted recordings, else set the key, overwriting. */
  function AddRecording(table: Table, score: Option<real>, recording: RawRecording): (t: Table)
    ensures table.MissingScore? ==> t.MissingScore?
    ensures t.Table? ==> table.Table?
    ensures !Listed(recording) ==> t == table
    ensures table.Table? && Listed(recording) && score.Some? ==>
      t == Table(table.matches[EntryKey(recording) := score.value * 100.0])
    ensures table.Table? && Listed(recording) && score.None? ==> t.MissingScore?
  {
    match table
    case MissingScore => MissingScore
    case Table(m) =>
      if !Listed(recording) then table
      else if score.None? then MissingScore
      else Table(m[EntryKey(recording) := score.value * 100.0])
  }

  /** The inner loop over the recordings of one result, in order. */
  function AddRecordings(table: Table, score: Option<real>, recordings: seq<RawRecording>): (t: Table)
    ensures t.Table? ==> table.Table?
  {
    if recordings == [] then table
    else AddRecording(AddRecordings(table, score, recordings[..|recordings| - 1]), score, recordings[|recordings| - 1])
  }

  /** One pass of the outer loop: a result without `recordings` is skipped. */
  function AddResult(table: Table, result: RawResult): (t: Table)
    ensures result.recordings.None? ==> t == table
    ensures t.Table? ==> table.Table?
  {
    if result.recordings.None? then table else AddRecordings(table, result.score, result.recordings.value)
  }

  /** The dictionary after the outer loop over all results, in order. */
  function MatchTable(results: seq<RawResult>): Table
  {
    if results == [] then Table(map[])
    else AddResult(MatchTable(results[..|results| - 1]), results[|results| - 1])
  }

  /** `joined_artists`, built by the script's own inner loop. */
  method JoinedArtists(artists: seq<ArtistCredit>) returns (joined: string)
    ensures joined == JoinArtists(artists)
  {
    joined := "";
    var k := 0;
    while k < |artists|
      invariant 0 <= k <= |artists|
      invariant joined == JoinArtists(artists[..k])
    {
      ghost var before := joined;
      joined := joined + artists[k].name;
      if artists[k].joinphrase.Some? {
        joined := joined + artists[k].joinphrase.value;
      }
      assert joined == before + CreditText(artists[k]);
      assert artists[..k + 1] == artists[..k] + [artists[k]];
      JoinArtistsSnoc(artists[..k], artists[k]);
      k := k + 1;
    }
    assert artists[..k] == artists;
  }

  /** Once the script has raised, later recordings do not matter. */
  lemma {:induction false} RecordingsAfterMissingScore(table: Table, score: Option<real>, recordings: seq<RawRecording>, j: nat)
    requires j <= |recordings| && AddRecordings(table, score, recordings[..j]).MissingScore?
    ensures AddRecordings(table, score, recordings).MissingScore?
    decreases |recordings| - j
  {
    if j < |recordings| {
      assert recordings[..j + 1][..j] == recordings[..j];
      RecordingsAfterMissingScore(table, score, recordings, j + 1);
    } else {
      assert recordings[..j] == recordings;
    }
  }

  /** An inner loop started on a raised error ends in it. */
  lemma {:induction false} RecordingsOnMissingScore(score: Option<real>, recordings: seq<RawRecording>)
    ensures AddRecordings(MissingScore, score, recordings).MissingScore?
  {
    if recordings != [] {
      RecordingsOnMissingScore(score, recordings[..|recordings| - 1]);
    }
  }

  /** Once the script has raised, later results do not matter. */
  lemma {:induction false} ResultsAfterMissingScore(results: seq<RawResult>, i: nat)
    requires i <= |results| && MatchTable(results[..i]).MissingScore?
    ensures MatchTable(results).MissingScore?
    decreases |results| - i
  {
    if i < |results| {
      assert results[..i + 1][..i] == results[..i];
      if results[i].recordings.Some? {
        RecordingsOnMissingScore(results[i].score, results[i].recordings.value);
      }
      ResultsAfterMissingScore(results, i + 1);
    } else {
      assert results[..i] == results;
    }
  }

  /** The loop of lines 20-37: nested loops with `continue` guards, filling `matches`. */
  method BuildMatches(results: seq<RawResult>) returns (table: Table)
    ensures table == MatchTable(results)
  {
    var matches: map<string, real> := map[];
    var i := 0;
    while i < |results|
      invariant 0 <= i <= |results|
      invariant MatchTable(results[..i]) == Table(matches)
    {
      var result := results[i];
      assert results[..i + 1][..i] == results[..i];
      if result.recordings.None? {
        i := i + 1;
        continue;
      }
      var recordings := result.recordings.value;
      ghost var before := matches;
      var j := 0;
      while j < |recordings|
        invariant 0 <= j <= |recordings|
        invariant AddRecordings(Table(before), result.score, recordings[..j]) == Table(matches)
      {
        var recording := recordings[j];
        assert recordings[..j + 1][..j] == recordings[..j];
        if recording.title.None? {
          j := j + 1;
          continue;
        }
        var title := recording.title.value;
        if recording.artists.None? {
          j := j + 1;
          continue;
        }
        var joinedArtists := JoinedArtists(recording.artists.value);
        if result.score.None? {
          RecordingsAfterMissingScore(Table(before), result.score, recordings, j + 1);
          ResultsAfterMissingScore(results, i + 1);
          return MissingScore;
        }
        matches := matches[joinedArtists + " - " + title := result.score.value * 100.0];
        j := j + 1;
      }
      assert recordings[..j] == recordings;
      i := i + 1;
    }
    assert results[..i] == results;
    table := Table(matches);
  }

  // ---------------------------------------------------------------------------------------------
  // What the dictionary holds

  /** The keys the listed recordings of one recording list produce. */
  function RecordingKeys(recordings: seq<RawRecording>): set<string>
  {
    set recording | recording in recordings && Listed(recording) :: EntryKey(recording)
  }

  /** The keys every listed recording of every result with `recordings` produces. */
  function ListedKeys(results: seq<RawResult>): set<string>
  {
    if results == [] then {}
    else
      var last := results[|results| - 1];
      ListedKeys(results[..|results| - 1]) + (if last.recordings.Some? then RecordingKeys(last.recordings.value) else {})
  }

  /** Appending a recording adds its key exactly when it is listed. */
  lemma RecordingKeysSnoc(front: seq<RawRecording>, last: RawRecording)
    ensures RecordingKeys(front + [last]) == RecordingKeys(front) + (if Listed(last) then {EntryKey(last)} else {})
  {
    var all := front + [last];
    assert forall r :: r in all <==> r in front || r == last;
  }

  /** The inner loop adds exactly the keys of its listed recordings. */
  lemma {:induction false} AddRecordingsKeys(m: map<string, real>, score: Option<real>, recordings: seq<RawRecording>)
    requires AddRecordings(Table(m), score, recordings).Table?
    ensures AddRecordings(Table(m), score, recordings).matches.Keys == m.Keys + RecordingKeys(recordings)
  {
    if recordings == [] {
      assert RecordingKeys(recordings) == {};
    } else {
      var n := |recordings| - 1;
      var front := recordings[..n];
      var last := recordings[n];
      assert recordings == front + [last];
      var t := AddRecordings(Table(m), score, front);
      assert AddRecordings(Table(m), score, recordings) == AddRecording(t, score, last);
      assert t.Table?;
      AddRecordingsKeys(m, score, front);
      RecordingKeysSnoc(front, last);
    }
  }

  /** Unless the script raised, the dictionary's keys are exactly the listed recordings' keys. */
  lemma {:induction false} MatchTableKeys(results: seq<RawResult>)
    requires MatchTable(results).Table?
    ensures MatchTable(results).matches.Keys == ListedKeys(results)
  {
    if results != [] {
      var n := |results| - 1;
      var last := results[n];
      var t := MatchTable(results[..n]);
      MatchTableKeys(results[..n]);
      if last.recordings.Some? {
        AddRecordingsKeys(t.matches, last.score, last.recordings.value);
      }
    }
  }

  /** A recording list without keys has no listed recording. */
  lemma NoKeysNoListed(recordings: seq<RawRecording>)
    requires RecordingKeys(recordings) == {}
    ensures forall i :: 0 <= i < |recordings| ==> !Listed(recordings[i])
  {
    forall i | 0 <= i < |recordings| && Listed(recordings[i])
      ensures EntryKey(recordings[i]) in RecordingKeys(recordings)
    {
      assert recordings[i] in recordings;
    }
  }

  /** Without a listed recording the inner loop changes nothing, whatever the score. */
  lemma {:induction false} NoListedNoChange(table: Table, score: Option<real>, recordings: seq<RawRecording>)
    requires forall i :: 0 <= i < |recordings| ==> !Listed(recordings[i])
    ensures AddRecordings(table, score, recordings) == table
  {
    if recordings != [] {
      NoListedNoChange(table, score, recordings[..|recordings| - 1]);
    }
  }

  /** Without a listed recording anywhere the dictionary stays empty and nothing is raised. */
  lemma {:induction false} NoListedEmptyTable(results: seq<RawResult>)
    requires ListedKeys(results) == {}
    ensures MatchTable(results) == Table(map[])
  {
    if results != [] {
      var n := |results| - 1;
      NoListedEmptyTable(results[..n]);
      if results[n].recordings.Some? {
        NoKeysNoListed(results[n].recordings.value);
        NoListedNoChange(Table(map[]), results[n].score, results[n].recordings.value);
      }
    }
  }

  /** A recording without `title` or `artists` adds no entry: removing it changes nothing. */
  lemma SkippedRecordingChangesNothing(table: Table, score: Option<real>, recordings: seq<RawRecording>, recording: RawRecording)
    requires recording.title.None? || recording.artists.None?
    ensures AddRecordings(table, score, recordings + [recording]) == AddRecordings(table, score, recordings)
  {
    assert (recordings + [recording])[..|recordings|] == recordings;
  }

  /** The result lists a recording whose entry has key `k`. */
  predicate Holds(result: RawResult, k: string)
  {
    result.recordings.Some? && k in RecordingKeys(result.recordings.value)
  }

  /** The position of the last result that holds key `k`, or -1 when none does. */
  function LastHolder(results: seq<RawResult>, k: string): (i: int)
    ensures -1 <= i < |results|
    ensures 0 <= i ==> Holds(results[i], k)
    ensures forall j :: i < j < |results| ==> !Holds(results[j], k)
  {
    if results == [] then -1
    else if Holds(results[|results| - 1], k) then |results| - 1
    else LastHolder(results[..|results| - 1], k)
  }

  /** The inner loop sets every key of its listed recordings to its score and leaves the others alone. */
  lemma {:induction false} AddRecordingsValue(m: map<string, real>, score: Option<real>, recordings: seq<RawRecording>, k: string)
    requires AddRecordings(Table(m), score, recordings).Table?
    ensures var t := AddRecordings(Table(m), score, recordings).matches;
      && (k in RecordingKeys(recordings) ==> score.Some? && k in t && t[k] == score.value * 100.0)
      && (k !in RecordingKeys(recordings) ==> (k in t <==> k in m) && (k in m ==> t[k] == m[k]))
  {
    if recordings == [] {
      assert RecordingKeys(recordings) == {};
    } else {
      var n := |recordings| - 1;
      var front := recordings[..n];
      var last := recordings[n];
      assert recordings == front + [last];
      AddRecordingsValue(m, score, front, k);
      RecordingKeysSnoc(front, last);
    }
  }

  /**
   * Unless the script raised, the dictionary has a key exactly when some result holds it, and its
   * value is the score times 100 of the last such result: later entries overwrite earlier ones.
   */
  lemma {:induction false} MatchTableValues(results: seq<RawResult>, k: string)
    requires MatchTable(results).Table?
    ensures var i := LastHolder(results, k);
      && (k in MatchTable(results).matches <==> 0 <= i)
      && (0 <= i ==> results[i].score.Some? && MatchTable(results).matches[k] == results[i].score.value * 100.0)
  {
    if results != [] {
      var n := |results| - 1;
      var last := results[n];
      MatchTableValues(results[..n], k);
      if last.recordings.Some? {
        AddRecordingsValue(MatchTable(results[..n]).matches, last.score, last.recordings.value, k);
      }
    }
  }

  /** A later result's entry overwrites an earlier one with the same key. */
  lemma LaterEntryWins(s1: real, s2: real, a: RawRecording, b: RawRecording)
    requires Listed(a) && Listed(b) && EntryKey(a) == EntryKey(b)
    ensures MatchTable([RawResult(Some(s1), Some([a])), RawResult(Some(s2), Some([b]))])
      == Table(map[EntryKey(b) := s2 * 100.0])
  {
    var results := [RawResult(Some(s1), Some([a])), RawResult(Some(s2), Some([b]))];
    var first := [RawResult(Some(s1), Some([a]))];
    assert results[..1] == first && first[..0] == [];
    assert [a][..0] == [] && [b][..0] == [];
    assert AddRecordings(Table(map[]), Some(s1), [a]) == AddRecording(Table(map[]), Some(s1), a);
    assert AddResult(Table(map[]), first[0]) == Table(map[EntryKey(a) := s1 * 100.0]);
    assert MatchTable(first) == Table(map[EntryKey(a) := s1 * 100.0]);
    assert AddRecordings(Table(map[EntryKey(a) := s1 * 100.0]), Some(s2), [b])
      == AddRecording(Table(map[EntryKey(a) := s1 * 100.0]), Some(s2), b);
  }

  // ---------------------------------------------------------------------------------------------
  // The outcome and the warning

  /** How the script ends after the loop: an error exit, a raised `KeyError`, or a dictionary to score. */
  datatype Outcome = Scored(matches: map<string, real>) | NoMatches | ScoreKeyError

  /** Lines 20-40: build the dictionary, stop with an error when it is empty. */
  function Lookup(results: seq<RawResult>): (o: Outcome)
    ensures o.Scored? ==> o.matches != map[]
  {
    match MatchTable(results)
    case MissingScore => ScoreKeyError
    case Table(m) => if m == map[] then NoMatches else Scored(m)
  }

  /** The script stops before scoring exactly when no recording has both a title and artists. */
  lemma NoMatchesIff(results: seq<RawResult>)
    ensures Lookup(results) == NoMatches <==> ListedKeys(results) == {}
  {
    if ListedKeys(results) == {} {
      NoListedEmptyTable(results);
    } else if MatchTable(results).Table? {
      MatchTableKeys(results);
      var k :| k in ListedKeys(results);
      assert k in MatchTable(results).matches;
    }
  }

  /** Line 50: the warning, on the filename score and the dictionary value (score times 100). */
  predicate LowConfidence(filenameScore: int, audioScore: real)
  {
    filenameScore < 70 || audioScore < 40.0
  }

  /** The script's warning is song.py's gate without its release-type condition. */
  lemma WarningIsGateWithoutType(m: Matching.Match)
    ensures !LowConfidence(m.score.file, m.score.audio * 100.0) <==> m.score.file >= 70 && m.score.audio >= 0.40
    ensures Matching.IsConfident(m) ==> !LowConfidence(m.score.file, m.score.audio * 100.0)
    ensures m.score.releaseType != Other ==>
      (Matching.IsConfident(m) <==> !LowConfidence(m.score.file, m.score.audio * 100.0))
  {
  }

  /** A perfect match on the fallback release type draws no warning here, yet is not confident in song.py. */
  lemma WarningMissesFallback()
    ensures var m := Matching.Match(Matching.Song("a", "t", "t - Single"), Matching.Score(1.0, 100, Other));
      !LowConfidence(m.score.file, m.score.audio * 100.0) && !Matching.IsConfident(m)
  {
  }
}
