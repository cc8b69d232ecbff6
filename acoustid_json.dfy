/**
 * The AcoustID lookup response as the tagger reads it (song.py:89-163): raw JSON objects whose
 * keys may be absent, and the typed records `from_json` builds from them with defaults.
 */
module AcoustidJson {
  import opened Wrappers
  import Text

  // ---------------------------------------------------------------------------------------------
  // Raw JSON: every optional key is an Option.

  /** An artist-credit object. `name` is read with `artist["name"]`; `joinphrase` is optional. */
  datatype ArtistCredit = ArtistCredit(name: string, joinphrase: Option<string>)

  /** A `releasegroups` entry; `releaseType` is the JSON key `type`. */
  datatype RawReleaseGroup = RawReleaseGroup(
    artists: Option<seq<ArtistCredit>>,
    title: Option<string>,
    releaseType: Option<string>,
    secondarytypes: Option<seq<string>>)

  /** A `recordings` entry. */
  datatype RawRecording = RawRecording(
    artists: Option<seq<ArtistCredit>>,
    title: Option<string>,
    releasegroups: Option<seq<RawReleaseGroup>>)

  /** An entry of the response's `results` list. */
  datatype RawResult = RawResult(score: Option<real>, recordings: Option<seq<RawRecording>>)

  // ---------------------------------------------------------------------------------------------
  // Artist credits

  /** What one credit adds to the joined artist string: its name, then its join phrase or "". */
  function CreditText(credit: ArtistCredit): string
  {
    credit.name + credit.joinphrase.GetOr("")
  }

  /** The joined artist string of a credit list, credit by credit in list order. */
  function JoinArtists(credits: seq<ArtistCredit>): string
  {
    if credits == [] then "" else CreditText(credits[0]) + JoinArtists(credits[1..])
  }

  /** Joining distributes over concatenation of credit lists. */
  lemma {:induction false} JoinArtistsAppend(a: seq<ArtistCredit>, b: seq<ArtistCredit>)
    ensures JoinArtists(a + b) == JoinArtists(a) + JoinArtists(b)
  {
    if a == [] {
      assert a + b == b;
    } else {
      assert (a + b)[0] == a[0];
      assert (a + b)[1..] == a[1..] + b;
      JoinArtistsAppend(a[1..], b);
    }
  }

  /** Appending one credit appends exactly its text. */
  lemma JoinArtistsSnoc(credits: seq<ArtistCredit>, credit: ArtistCredit)
    ensures JoinArtists(credits + [credit]) == JoinArtists(credits) + CreditText(credit)
  {
    JoinArtistsAppend(credits, [credit]);
    assert [credit][1..] == [];
  }

  /** `parse_artist`: accumulate name and join phrase of every credit, in order. */
  method ParseArtist(artists: seq<ArtistCredit>) returns (artistJoined: string)
    ensures artistJoined == JoinArtists(artists)
    ensures artists == [] ==> artistJoined == ""
  {
    artistJoined := "";
    var i := 0;
    while i < |artists|
      invariant 0 <= i <= |artists|
      invariant artistJoined == JoinArtists(artists[..i])
    {
      var artist := artists[i];
      ghost var before := artistJoined;
      artistJoined := artistJoined + artist.name;
      if artist.joinphrase.Some? {
        artistJoined := artistJoined + artist.joinphrase.value;
      }
      assert artistJoined == before + CreditText(artist);
      assert artists[..i + 1] == artists[..i] + [artist];
      JoinArtistsSnoc(artists[..i], artist);
      i := i + 1;
    }
    assert artists[..i] == artists;
  }

  // ---------------------------------------------------------------------------------------------
  // Release types

  /** `AcoustidReleaseType`: SINGLE, ALBUM, OTHER. */
  datatype ReleaseType = Single | Album | Other

  /** The enum member's `.name`. */
  function Name(t: ReleaseType): string
  {
    match t
    case Single => "SINGLE"
    case Album => "ALBUM"
    case Other => "OTHER"
  }

  /** `AcoustidReleaseType.get(key, default)`: the member named `key`, else `default`. */
  function TypeNamed(key: string, default: ReleaseType): (r: ReleaseType)
    ensures forall t: ReleaseType :: Name(t) == key ==> r == t
    ensures (forall t: ReleaseType :: Name(t) != key) ==> r == default
  {
    if key == "SINGLE" then assert Name(Single) == key; Single
    else if key == "ALBUM" then assert Name(Album) == key; Album
    else if key == "OTHER" then assert Name(Other) == key; Other
    else default
  }

  /** Looking a member up by its own name gives that member back, whatever the default. */
  lemma TypeNamedName(t: ReleaseType, default: ReleaseType)
    ensures TypeNamed(Name(t), default) == t
  {
  }

  /** One type string as `parse_types` reads it: upper-cased, looked up, OTHER when unknown. */
  function ParseType(s: string): ReleaseType
  {
    TypeNamed(Text.Upper(s), Other)
  }

  /** A type string reads as ALBUM, or as SINGLE, exactly when its upper-cased form is that name. */
  lemma ParseTypeIff(s: string)
    ensures ParseType(s) == Album <==> Text.Upper(s) == "ALBUM"
    ensures ParseType(s) == Single <==> Text.Upper(s) == "SINGLE"
    ensures ParseType(s) == Other <==> Text.Upper(s) != "ALBUM" && Text.Upper(s) != "SINGLE"
  {
    assert Name(Album) == "ALBUM" && Name(Single) == "SINGLE";
  }

  /** A type string whose length is neither 5 nor 6 can name neither ALBUM nor SINGLE. */
  lemma ParseTypeByLength(s: string)
    requires |s| != 5 && |s| != 6
    ensures ParseType(s) == Other
  {
    ParseTypeIff(s);
  }

  /** "Album" and "album" both upper-case to "ALBUM". */
  lemma AlbumSpellings()
    ensures ParseType("Album") == Album && ParseType("album") == Album
  {
    assert Text.Upper("Album") == "ALBUM" by {
      var u := Text.Upper("Album");
      assert u[0] == 'A' && u[1] == 'L' && u[2] == 'B' && u[3] == 'U' && u[4] == 'M';
    }
    assert Text.Upper("album") == "ALBUM" by {
      var u := Text.Upper("album");
      assert u[0] == 'A' && u[1] == 'L' && u[2] == 'B' && u[3] == 'U' && u[4] == 'M';
    }
  }

  /** "Single" upper-cases to "SINGLE". */
  lemma SingleSpelling()
    ensures ParseType("Single") == Single
  {
    assert Text.Upper("Single") == "SINGLE" by {
      var u := Text.Upper("Single");
      assert u[0] == 'S' && u[1] == 'I' && u[2] == 'N' && u[3] == 'G' && u[4] == 'L' && u[5] == 'E';
    }
  }

  /** The spellings MusicBrainz uses, and the absent type (""), read as expected. */
  lemma ParseTypeExamples()
    ensures ParseType("Album") == Album && ParseType("album") == Album
    ensures ParseType("Single") == Single
    ensures ParseType("EP") == Other && ParseType("Compilation") == Other
    ensures ParseType("") == Other
  {
    AlbumSpellings();
    SingleSpelling();
    ParseTypeByLength("EP");
    ParseTypeByLength("Compilation");
    ParseTypeByLength("");
  }

  /** `parse_types`: the primary type first, then one entry per secondary type, in order. */
  function ParseTypes(primary: string, secondarytypes: seq<string>): (ts: seq<ReleaseType>)
    ensures |ts| == 1 + |secondarytypes|
    ensures ts[0] == ParseType(primary)
    ensures forall i :: 0 <= i < |secondarytypes| ==> ts[i + 1] == ParseType(secondarytypes[i])
  {
    [ParseType(primary)] + seq(|secondarytypes|, i requires 0 <= i < |secondarytypes| => ParseType(secondarytypes[i]))
  }

  // ---------------------------------------------------------------------------------------------
  // Typed records and `from_json`

  datatype AcoustidRelease = AcoustidRelease(artist: string, title: string, types: seq<ReleaseType>)

  datatype AcoustidRecording = AcoustidRecording(artist: string, title: string, releases: seq<AcoustidRelease>)

  datatype AcoustidResult = AcoustidResult(score: real, recordings: seq<AcoustidRecording>)

  /** `AcoustidRelease.from_json`. */
  function ReleaseFromJson(json: RawReleaseGroup): (r: AcoustidRelease)
    ensures r.artist == (if json.artists.Some? then JoinArtists(json.artists.value) else "")
    ensures r.title == (if json.title.Some? then json.title.value else "")
    ensures |r.types| == 1 + (if json.secondarytypes.Some? then |json.secondarytypes.value| else 0)
    ensures json.releaseType.None? ==> r.types[0] == Other
    ensures json.releaseType.Some? ==> r.types[0] == ParseType(json.releaseType.value)
    ensures json.secondarytypes.None? ==> r.types == [r.types[0]]
  {
    AcoustidRelease(
      JoinArtists(json.artists.GetOr([])),
      json.title.GetOr(""),
      ParseTypes(json.releaseType.GetOr(""), json.secondarytypes.GetOr([])))
  }

  /** `AcoustidRecording.from_json`: absent artists or title become "", never a dropped recording. */
  function RecordingFromJson(json: RawRecording): (r: AcoustidRecording)
    ensures r.artist == (if json.artists.Some? then JoinArtists(json.artists.value) else "")
    ensures r.title == (if json.title.Some? then json.title.value else "")
    ensures json.releasegroups.None? ==> r.releases == []
    ensures json.releasegroups.Some? ==>
      |r.releases| == |json.releasegroups.value| &&
      forall i :: 0 <= i < |r.releases| ==> r.releases[i] == ReleaseFromJson(json.releasegroups.value[i])
  {
    var groups := json.releasegroups.GetOr([]);
    AcoustidRecording(
      JoinArtists(json.artists.GetOr([])),
      json.title.GetOr(""),
      seq(|groups|, i requires 0 <= i < |groups| => ReleaseFromJson(groups[i])))
  }

  /** `AcoustidResult.from_json`: an absent score is 0.0, absent recordings an empty list. */
  function ResultFromJson(json: RawResult): (r: AcoustidResult)
    ensures r.score == (if json.score.Some? then json.score.value else 0.0)
    ensures json.recordings.None? ==> r.recordings == []
    ensures json.recordings.Some? ==>
      |r.recordings| == |json.recordings.value| &&
      forall i :: 0 <= i < |r.recordings| ==> r.recordings[i] == RecordingFromJson(json.recordings.value[i])
  {
    var recordings := json.recordings.GetOr([]);
    AcoustidResult(
      json.score.GetOr(0.0),
      seq(|recordings|, i requires 0 <= i < |recordings| => RecordingFromJson(recordings[i])))
  }

  /** A release group with any secondary type yields a type list longer than one entry. */
  lemma SecondaryTypesLengthenTypes(json: RawReleaseGroup)
    requires json.secondarytypes.Some? && json.secondarytypes.value != []
    ensures |ReleaseFromJson(json).types| >= 2
  {
  }
}
