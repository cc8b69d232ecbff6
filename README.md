# Music-Tagger metadata resolution, modelled in Dafny

This project models how Music-Tagger turns an AcoustID lookup response into one song
(artist, title, album) and a confidence verdict. It also models the per-file decisions around that
verdict, and the dictionary loop of the older `fingerprint.py` script.

- `wrappers.dfy` (`Wrappers`): `Option`, used for JSON keys that may be absent.
- `text.dfy` (`Text`): the `str` operations the code relies on: ASCII `upper`, `in`,
  `removesuffix` (with the suffix test it makes) and one-character `replace`.
- `acoustid_json.dfy` (`AcoustidJson`): the raw JSON objects, with every optional key an `Option`.
  It also holds `parse_artist` (a loop, proved against `JoinArtists`), the release-type enum with
  its lookup by name, `parse_types`, and the three `from_json` constructors with their defaults.
- `matching.dfy` (`Matching`): `Score`, `Song`, `Match`, the confidence gate, and `find_album` /
  `find_single` (loops with early return). It also holds `find_best_match`: the loop over the results, whose inner loop over
  one result's recordings is `AppendResultMatches`, builds the candidate list after the sentinel;
  then Python's first-wins `max` on `file * 1000 + type` picks the winner. The lemmas state what the ranking guarantees.
- `workflow.dfy` (`Workflow`): identifying one file from the raw `results`. Also: the override
  rule of manual correction, the routing of an unconfident match, the output file name, the album
  used for the cover search, the yt-dlp output-line parsing, and a small model of what happens to
  the file on each route.
- `fingerprint.dfy` (`Fingerprint`): the nested loop of `fingerprint.py` that fills the dictionary,
  with its `continue` guards and the `KeyError` on a missing `score`. Also the empty-dictionary
  error and the low-confidence warning.

The filename similarity `fuzz.token_set_ratio` is foreign code, so it is a parameter
`scorer: (string, string) -> int`. No fact about it is assumed: no bound, no symmetry, and not
`score(x, x) == 100`.

The model follows what the code does, including where that is not what one might expect:
- Recordings without artists or title are not dropped. `from_json` makes them "" (song.py:147-148).
  The only filter drops results with no recordings (song.py:233), and that filter removes no
  candidate (`Workflow.FilterKeepsCandidates`).
- There are three release types, SINGLE, ALBUM and OTHER, scored 5, 10 and 0. A release's own
  artist is parsed but never compared with the recording's artist.
- A missing `type` is read as "" and so becomes OTHER. The release group is still kept.
- A skipped file is not left untouched: `main` calls `modify_mp3file` on every route
  (song.py:399-417). See `Workflow.TaggedSong` and the finding below.
- A response without a `results` key raises `KeyError` (song.py:232, fingerprint.py:21). It is not
  treated as an empty response.

## Model

| member | source | states |
|---|---|---|
| `AcoustidJson.ParseArtist` | song.py:89-95 | the loop returns `JoinArtists`: each credit's name then its join phrase ("" when absent), in list order; "" for an empty list |
| `AcoustidJson.CreditText` | song.py:92-94 | what one credit adds to the joined string: its name, then its join phrase or "" when absent |
| `AcoustidJson.JoinArtists` | song.py:89-95 | the reference definition of the joined artist string: each credit's name then its join phrase, credit by credit from the front (its properties are `JoinArtistsAppend` and the two loops proved equal to it) |
| `AcoustidJson.JoinArtistsAppend` | song.py:89-95 | joining credit lists distributes over concatenation, so every credit adds exactly its own piece, in order |
| `AcoustidJson.TypeNamed` | song.py:103-108 | returns the enum member whose name is the key; returns the default when no member has that name |
| `AcoustidJson.TypeNamedName` | song.py:103-108 | looking a member up by its own `.name` gives that member back, whatever the default |
| `AcoustidJson.ParseType` | song.py:118-119 | the reference definition of one type string's reading: upper-case it, look the member up by name, OTHER when none matches (characterised by `ParseTypeIff`) |
| `AcoustidJson.ParseTypeIff` | song.py:117-120 | a type string is ALBUM iff its upper-cased form is "ALBUM", SINGLE iff it is "SINGLE", and OTHER otherwise |
| `AcoustidJson.ParseTypeExamples` | song.py:117-134 | "Album" and "album" give ALBUM, "Single" gives SINGLE, "EP", "Compilation" and the absent type ("") give OTHER |
| `AcoustidJson.ParseTypeByLength` | song.py:117-120 | a type string of any length other than 5 or 6 reads as OTHER, since upper-casing keeps the length |
| `AcoustidJson.ParseTypes` | song.py:117-120 | the list has `1 + len(secondarytypes)` entries: the parsed primary type, then each secondary type parsed, in order |
| `AcoustidJson.ReleaseFromJson` | song.py:129-135 | an absent `artists` gives "", an absent `title` gives "", an absent `type` gives OTHER, and absent `secondarytypes` give a one-entry type list |
| `AcoustidJson.RecordingFromJson` | song.py:144-150 | an absent artists or title becomes "" (the recording is kept); one release per release group, in order; none when `releasegroups` is absent |
| `AcoustidJson.ResultFromJson` | song.py:158-163 | an absent score becomes 0.0 and absent recordings an empty list; otherwise one parsed recording per raw recording, in order |
| `AcoustidJson.SecondaryTypesLengthenTypes` | song.py:117-135 | a release group with any secondary type yields at least two types |
| `Text.Upper` | song.py:118-119 | same length; every ASCII lower-case letter is upper-cased and every other character is kept |
| `Text.ReplaceChar` | song.py:292 | same length; every occurrence of one character is replaced and every other character is kept |
| `Text.RemoveSuffix` | song.py:323 | when the string ends with the non-empty suffix, the result plus the suffix is the string; otherwise the string is unchanged |
| `Text.RemoveAppendedSuffix` | song.py:323 | removing a suffix just appended gives the original string back |
| `Text.Contains` | song.py:85 | the reference definition of `sub in s`: some window of `s` equals `sub` |
| `Matching.Points` | song.py:111-114 | type points (ALBUM 10, SINGLE 5, OTHER 0) lie in 0..10 |
| `Matching.Sentinel` | song.py:204 | the first entry of every candidate list: the empty song, audio 0.0, file 0 and type OTHER (its key is 0, and it is not confident: `SentinelNotConfident`) |
| `Matching.PointsOrder` | song.py:111-114 | ALBUM outranks SINGLE, which outranks OTHER |
| `Matching.IsConfident` | song.py:185-186 | the reference predicate of `is_confident`: audio >= 0.40, file >= 70 and type points at least SINGLE's (characterised by `ConfidentIff`) |
| `Matching.ConfidentIff` | song.py:185-186 | confident iff audio >= 0.40, file >= 70 and the release type is not OTHER |
| `Matching.ConfidenceNeedsAllThree` | song.py:185-186 | failing any one threshold makes a match unconfident, whatever the other two are |
| `Matching.SentinelNotConfident` | song.py:204 | the sentinel match is never confident |
| `Matching.Key` | song.py:223 | the key decodes back: `key / 1000` is the file score and `key % 1000` the type points, so the key orders by file score first and then by type |
| `Matching.FileScoreDominates` | song.py:223 | a strictly higher file score gives a strictly higher key whatever the types; for equal file scores the type alone orders the keys |
| `Matching.IsExactly` | song.py:191 | the test `len(release.types) == 1 and release.types[0] == t` that find_album and find_single (line 198) apply to each release |
| `Matching.FirstIndex` | song.py:189-200 | the index of the first release whose types are exactly `[t]`; every earlier release fails that test; the list length when none passes |
| `Matching.FirstRelease` | song.py:189-200 | `None` iff no release has types exactly `[t]`; otherwise a release of the list whose types are exactly `[t]` |
| `Matching.FindFirstRelease` | song.py:189-200 | the scan with early return gives `FirstRelease`: the first release in list order whose types are exactly `[t]` |
| `Matching.FindAlbum` | song.py:189-193 | returns the first release whose types are exactly `[ALBUM]`, or `None` |
| `Matching.FindSingle` | song.py:196-200 | returns the first release whose types are exactly `[SINGLE]`, or `None` |
| `Matching.SecondaryTypesNeverSelected` | song.py:189-200 | a release parsed from a group with secondary types never qualifies as album or single |
| `Matching.Label` | song.py:227 | the string a recording is scored by: `"<artist> - <title>"` |
| `Matching.FileScore` | song.py:226-227 | the reference definition of `score_recording_for_file`: the scorer applied to `"<artist> - <title>"` and the basename |
| `Matching.Fallback` | song.py:212 | the synthetic release `"<title> - Single"` of type OTHER, taken when there is neither an album nor a single (`FallbackNeverConfident`, `FallbackCoverAlbum`) |
| `Matching.ReleasesAfterAlbumIgnored` | song.py:189-221 | once a recording has an album, releases appended after it change neither its file score nor its candidate, since `find_album` returns the first album |
| `Matching.ChosenRelease` | song.py:209-213 | the chosen release (album, else single, else the fallback) has exactly one type |
| `Matching.Candidate` | song.py:209-221 | the reference definition of the match appended for one recording (its fields are stated by `CandidateFields`) |
| `Matching.CandidateFields` | song.py:209-221 | the candidate carries the recording's artist and title, the result's audio score and the file score; its album and points come from the album (10), else the single with its title unchanged (5), else `title + " - Single"` (0) |
| `Matching.FallbackNeverConfident` | song.py:209-213 | a candidate on the fallback release is never confident, even with perfect audio and file scores |
| `Matching.ResultCandidates` | song.py:206-221 | one candidate per recording of the result |
| `Matching.AllCandidates` | song.py:205-221 | the reference definition of the candidates the nested loops append: result by result, each result's candidates in order (`AllCandidatesSnoc`, `CandidateOrigin`, `FilterKeepsCandidates`) |
| `Matching.Matches` | song.py:204 | the list ranked by `max` is non-empty and starts with the sentinel |
| `Matching.ArgMax` | song.py:223 | the position `max` picks has the greatest key, and every earlier position has a strictly smaller key |
| `Matching.BestMatch` | song.py:203-223 | the reference definition of `find_best_match`: the entry of `Matches` at `ArgMax` (its properties are the ranking lemmas below) |
| `Matching.AppendResultMatches` | song.py:206-221 | the inner loop over one result's recordings appends exactly that result's candidates, in order, to the list so far |
| `Matching.MatchRecording` | song.py:207-221 | the inner-loop body builds exactly the candidate of the recording: file score, album-or-single-or-fallback release, song and score |
| `Matching.FindBestMatch` | song.py:203-223 | the loop over the results, each pass appending one result's candidates, followed by `max`, returns `BestMatch`; its key is at least the sentinel's and at least every candidate's |
| `Matching.BestMatchIsMaximal` | song.py:223 | the winner is in the list and its key is at least 0 and at least every candidate's key |
| `Matching.TieGoesToEarlier` | song.py:223 | of two entries with equal keys, the later one is never picked |
| `Matching.BestMatchHasTopFileScore` | song.py:223 | no candidate has a higher file score than the winner |
| `Matching.SentinelWinsWithoutPositiveKey` | song.py:204-223 | when no candidate has a key above 0, the sentinel is returned |
| `Matching.NoRecordingsNoCandidates` | song.py:205-206 | results without recordings contribute no candidates |
| `Matching.NothingFoundGivesSentinel` | song.py:203-223 | no results, or none with recordings, give exactly the sentinel, which is not confident |
| `Matching.CandidateOrigin` | song.py:205-221 | every candidate is the candidate of one recording of one result, built with that result's score |
| `Matching.ConfidentWinnerHasRealRelease` | song.py:185-223 | a confident winner has the audio score of its result, the title of its recording, and a real ALBUM or SINGLE release |
| `Matching.ArgMaxByKeysOnly` | song.py:223 | `max` depends only on the keys: equal keys at every position give the same pick |
| `Matching.CandidatesIgnoreAudio` | song.py:215-221 | results that differ only in score give candidates that differ only in audio |
| `Matching.AudioDoesNotRank` | song.py:216-223 | changing the audio scores never changes the winner's song, file score or type, so audio plays no part in the ranking |
| `Workflow.ParseResults` | song.py:232 | one parsed result per raw result, in order |
| `Workflow.WithRecordings` | song.py:233 | exactly the results of the input that have a recording are kept: every kept result comes from the input and has a recording, and every input result with one is kept |
| `Workflow.FilterKeepsCandidates` | song.py:233 | dropping results without recordings leaves the candidate list unchanged |
| `Workflow.Identify` | song.py:230-236 | the reference definition of `fingerprint_mp3file` after the lookup: parse, filter, take the best match, return its song and verdict |
| `Workflow.IdentifyIgnoresFilter` | song.py:230-236 | the song and the verdict are those of the best match over all parsed results |
| `Workflow.IdentifyNoResults` | song.py:230-236 | an empty `results` list gives `Song("", "", "")` and no confidence |
| `Workflow.IdentifyOneRecording` | song.py:230-236 | a lookup that parses to one result with one recording whose key is positive yields that recording's candidate song and its verdict |
| `Workflow.IdentifyAlbumExample` | song.py:230-236 | one recording on an "Album" release group with file score >= 70 and audio 0.9 gives that album, confidently |
| `Workflow.IdentifyWithoutReleasesExample` | song.py:230-236 | the same recording without release groups gets album "Song - Single" and is not confident |
| `Workflow.FileScoreBeatsAlbumExample` | song.py:223 | a file score of 95 without releases beats a file score of 60 on an album |
| `Workflow.Override` | song.py:256-258 | a non-blank answer replaces the value; a blank answer keeps the previous value |
| `Workflow.AskUser` | song.py:247-259 | declining keeps the song; otherwise each field is the non-blank answer or else the previous value |
| `Workflow.AskUserFields` | song.py:255-259 | all-blank answers keep the song; each field ends as the typed answer or the previous value |
| `Workflow.RouteFor` | song.py:399-407 | a file is accepted iff confident and not manual; sent to the skip directory iff (unconfident or manual) and skip; else the user is asked |
| `Workflow.TaggedSong` | song.py:399-417 | `modify_mp3file` gets the fingerprinted song on the accept and skip routes, and the corrected song on the ask route |
| `Workflow.SkippedFileStillTagged` | song.py:399-417 | an unconfident file under skip is routed aside, and the unconfident song is still handed to tagging |
| `Workflow.CopyOrMove` | song.py:277-286 | succeeds iff the source exists; a copy adds the destination and keeps every file; a move removes the source, adds the destination and keeps every other file |
| `Workflow.Modify` | song.py:371-377 | `modify_mp3file` runs iff the source exists; the file is then tagged at the output path; the files are the old ones plus the output, minus the source unless keep |
| `Workflow.ProcessAsWritten` | song.py:399-417 | as written: a missing source raises; every run that does not raise tags the file into the output, on the skip route too; with keep the skip copy also exists |
| `Workflow.SkipWithoutKeepCrashes` | song.py:399-417 | as written, skipping without keep moves the file aside and then raises when it moves the file again |
| `Workflow.SkipWithKeepStillTags` | song.py:399-417 | as written, skipping with keep copies the file aside and still tags the original into the output directory |
| `Workflow.ProcessIntended` | song.py:399-417 | intended handling: an existing file never crashes; a skipped file is not tagged, and the files are the old ones plus the skip path, minus the source unless keep; otherwise it is tagged in the output |
| `Workflow.IntendedAgreesOffSkip` | song.py:399-417 | off the skip route the intended handling is the written one |
| `Workflow.Mp3Basename` | song.py:292 | the output basename contains no "/", ends in ".mp3" and has the length of `artist + " - " + title + ".mp3"` |
| `Workflow.Mp3BasenameWithoutSlash` | song.py:292 | without "/" in artist or title the basename is exactly `artist + " - " + title + ".mp3"` |
| `Workflow.CoverAlbum` | song.py:323 | an album ending in " - Single" is searched without that suffix; any other album is searched unchanged |
| `Workflow.FallbackCoverAlbum` | song.py:323 | a match on the fallback release searches cover art under the recording's own title |
| `Workflow.SpaceIndex` | song.py:85 | the index of the first space, or the length when there is none |
| `Workflow.LastSplitField` | song.py:85 | the last field of `split(" ", maxsplit=2)` is a suffix of the line, and a line without a space is its own last field |
| `Workflow.LastSplitFieldOfOneSpaceLine` | song.py:85 | with exactly one space, the last field is what follows it |
| `Workflow.LastSplitFieldOfDestinationLine` | song.py:85 | after two space-free words, the whole rest of the line is returned, spaces included |
| `Workflow.IsDestinationLine` | song.py:85 | the comprehension's filter: the line contains both "Destination" and "mp3" |
| `Workflow.Mp3Files` | song.py:84-85 | at most one file per line; every file is the last split field of a line containing "Destination" and "mp3"; a single line yields its last split field iff it contains both |
| `Workflow.Mp3FilesAppend` | song.py:85 | the files of two runs of lines are those of the first, then those of the second: each line contributes on its own, in order |
| `Fingerprint.Listed` | fingerprint.py:25-30 | the two `continue` guards: a recording gets an entry iff it has both a `title` and an `artists` key |
| `Fingerprint.EntryKey` | fingerprint.py:37 | the dictionary key `"<joined artists> - <title>"`, joining the credits as `JoinArtists` does |
| `Fingerprint.AddRecording` | fingerprint.py:24-37 | a recording without title or artists leaves the table alone; otherwise its key is set to score times 100, overwriting; a missing score raises |
| `Fingerprint.AddRecordings` | fingerprint.py:24-37 | the inner loop over one result's recordings as a fold, in order; a run that ends with a dictionary started from one, so the `KeyError` is never undone (`AddRecordingsKeys`, `AddRecordingsValue`) |
| `Fingerprint.AddResult` | fingerprint.py:21-23 | a result without `recordings` leaves the table alone |
| `Fingerprint.MatchTable` | fingerprint.py:20-37 | the reference fold of the outer loop over the results, in order, from the empty dictionary (its properties are the lemmas below) |
| `Fingerprint.JoinedArtists` | fingerprint.py:31-35 | the inner loop builds `JoinArtists` of the credits |
| `Fingerprint.BuildMatches` | fingerprint.py:20-37 | the nested loops with `continue` guards and early `KeyError` return `MatchTable` of the results |
| `Fingerprint.ResultsAfterMissingScore` | fingerprint.py:37 | once a `KeyError` is raised, later results do not matter |
| `Fingerprint.MatchTableKeys` | fingerprint.py:20-37 | unless a `KeyError` was raised, the keys are exactly `"<joined artists> - <title>"` of the recordings that have title and artists, in results that have recordings |
| `Fingerprint.NoListedEmptyTable` | fingerprint.py:20-37 | without such a recording the dictionary stays empty and nothing is raised |
| `Fingerprint.SkippedRecordingChangesNothing` | fingerprint.py:25-30 | a recording without title or artists adds no entry |
| `Fingerprint.LastHolder` | fingerprint.py:21-37 | the position of the last result that lists a recording of the key, or -1; no later result lists one |
| `Fingerprint.AddRecordingsValue` | fingerprint.py:24-37 | the inner loop sets each key of its listed recordings to score times 100 (the score is then present) and leaves every other key as it was |
| `Fingerprint.MatchTableValues` | fingerprint.py:20-37 | unless a `KeyError` was raised, a key is in the dictionary iff some result lists it, and its value is score times 100 of the last such result |
| `Fingerprint.LaterEntryWins` | fingerprint.py:37 | example: two results each with one recording of the same key leave one entry, with the later score |
| `Fingerprint.Lookup` | fingerprint.py:38-40 | scoring only happens on a non-empty dictionary |
| `Fingerprint.NoMatchesIff` | fingerprint.py:20-40 | the script stops with the no-matches error iff no recording has both title and artists |
| `Fingerprint.LowConfidence` | fingerprint.py:50 | the reference predicate of the warning: filename score below 70 or dictionary value below 40 |
| `Fingerprint.WarningIsGateWithoutType` | fingerprint.py:50 | no warning iff file >= 70 and score >= 0.40; this agrees with song.py's gate exactly when the type is not OTHER |
| `Fingerprint.WarningMissesFallback` | fingerprint.py:50 | a perfect match on type OTHER draws no warning here, yet song.py calls it unconfident |

## Left out

- Subprocesses: yt-dlp, sacad and ffmpeg-normalize, with their exit-code checks and `sys.exit`.
  Only the parsing of yt-dlp's output lines (song.py:85) is modelled.
- `Workflow.Mp3Files`: takes the output already split into lines. `str.splitlines` and its line
  breaks other than "\n" are not modelled.
- Network calls: `acoustid.match`, `acoustid.fingerprint_file` and `acoustid.submit`. The lookup
  response is an input, and the optional correction submission (song.py:261-272) is not modelled.
- Filesystem and tags: `os.makedirs`, `os.path.join`/`basename`, ID3 writing, cover download and
  `normalize_mp3file`. `Workflow.CopyOrMove` keeps only which paths exist, so that the skip-route
  finding can be stated. Directory joining is left to the caller's paths.
- Interaction and CLI: `input`, `bool_input` and its retry loop, argparse, logging, dotenv and
  `print`. The answers to the prompts are parameters (`Workflow.Answers`).
- `fuzz.token_set_ratio` is the uninterpreted `scorer` parameter. No bound, symmetry or
  `score(x, x) == 100` is assumed, because the code never relies on them.
- Dictionary order: `Fingerprint.Table` holds a `map`, so its insertion order is not modelled. An
  overwrite keeps a key's first position in Python, and `process.extractOne` breaks ties in
  `list(matches.keys())` order (fingerprint.py:43), so which of two equally scored keys is picked is not
  captured.
- `process.extractOne` (fingerprint.py:42-48) is foreign code. It yields the picked key and its
  filename score. `Fingerprint.LowConfidence` takes that filename score and the dictionary value
  `matches[best_match]` of the picked key (fingerprint.py:44) as its inputs.
- `Text.Upper`: upper-cases ASCII only. Python's `str.upper` also maps some non-ASCII letters to
  ASCII ones (U+0131 to "I"), so such spellings of "single" are not read as SINGLE here.
- JSON values of the wrong type or `null` are not modelled. Each present key has the type the code
  expects.
- `artist["name"]` raises `KeyError` when the key is absent. The model's credits always have a name.
- A response without `results` raises `KeyError` in both files. The model takes the `results` list
  as its input.
- Floating point: audio scores are `real`. IEEE rounding of `score * 100` is not modelled.
  `Fingerprint.WarningIsGateWithoutType` states its equivalence over reals only. In IEEE doubles,
  0.39999999999999997 * 100 rounds to 40.0: fingerprint.py gives no warning for that score, yet it
  fails song.py's `audio >= 0.40`.
- `main`'s loop over files (song.py:393-418) and the final `os.rmdir` are not modelled. The model
  covers one file at a time, which leaves out two effects across files:
  - the loop has no exception handler, so an exception on one file ends the whole run and the
    later files stay unprocessed. This includes the `FileNotFoundError` under "## Findings" and the
    `KeyError` on a response without `results` (song.py:232);
  - `rename_mp3file` (song.py:291-292) gives two files with the same artist and title the same
    output path, so the second `os.replace` or `copy2` overwrites the first file's output.

## Findings

| source | as written | input that shows it | evidently intended | confidence | as-written member | corrected member |
|---|---|---|---|---|---|---|
| song.py:399-417 | after the skip branch moves the file into the skip directory, `main` still calls `modify_mp3file` on the original path | an unconfident match with `--skip` and without `--keep`: `os.replace` has moved the file away, so the second `os.replace` raises `FileNotFoundError` | a skipped file is only placed in the skip directory and is not renamed, tagged or normalized (the `--skip` help text says "Skip processing") | high; not executed | `Workflow.SkipWithoutKeepCrashes` | `Workflow.ProcessIntended` |
