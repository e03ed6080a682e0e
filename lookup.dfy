/** The `/tracks/{id}` and `/stream/{id}` endpoints: a bounds-checked lookup
    by position, and the choice of the audio file to stream. */
module TrackLookup {
  import opened Wrappers
  import opened Text
  import opened CatalogStore
  import opened TrackSearch

  /** What a failed request answers: an HTTPException with its status code
      and detail, or the KeyError raised by indexing a record without the key. */
  datatype ApiError = HttpError(status: int, detail: string) | KeyError(key: string)

  const TrackNotFound: ApiError := HttpError(404, "Track not found")
  const AudioFileNotFound: ApiError := HttpError(404, "Audio file not found")

  /** The successful `/stream/{id}` answer: the file under the audio root to
      read from start to end, and the declared content type. */
  datatype AudioStream = AudioStream(relativePath: string, mediaType: string)

  /** `get_track(id)`: the record at position `id`, or 404 "Track not found". */
  function GetTrack(db: seq<Track>, id: int): (r: Result<Track, ApiError>)
    ensures r.Ok? <==> 0 <= id < |db|
    ensures r.Ok? ==> r.value == db[id]
    ensures r.Err? ==> r.error == TrackNotFound
  {
    if id < 0 || id >= |db| then Err(TrackNotFound) else Ok(db[id])
  }

  /** `stream_track(id)` up to the response: the same guard as `get_track`,
      then the record's "audio_path" (a KeyError when the record has none),
      then the existence check against `audioFiles`, the paths present under
      the audio root. */
  function StreamTrack(db: seq<Track>, id: int, audioFiles: set<string>): (r: Result<AudioStream, ApiError>)
    ensures !(0 <= id < |db|) ==> r == Err(TrackNotFound)
    ensures 0 <= id < |db| && db[id].audioPath.None? ==> r == Err(KeyError("audio_path"))
    ensures 0 <= id < |db| && db[id].audioPath.Some? && db[id].audioPath.value !in audioFiles ==>
      r == Err(AudioFileNotFound)
    ensures r.Ok? <==> 0 <= id < |db| && db[id].audioPath.Some? && db[id].audioPath.value in audioFiles
    ensures r.Ok? ==> r.value == AudioStream(db[id].audioPath.value, "audio/mpeg")
  {
    if id < 0 || id >= |db| then
      Err(TrackNotFound)
    else
      var track := db[id];
      match track.audioPath
      case None => Err(KeyError("audio_path"))
      case Some(p) =>
        if p !in audioFiles then Err(AudioFileNotFound) else Ok(AudioStream(p, "audio/mpeg"))
  }

  /** Streaming and lookup agree: streaming answers "Track not found" exactly
      when lookup does, whatever files exist, and a stream always plays the
      audio path of the record lookup returns. */
  lemma StreamSharesLookupGuard(db: seq<Track>, id: int, audioFiles: set<string>)
    ensures StreamTrack(db, id, audioFiles) == Err(TrackNotFound) <==> GetTrack(db, id).Err?
    ensures StreamTrack(db, id, audioFiles).Ok? ==>
      GetTrack(db, id).Ok? && GetTrack(db, id).value.audioPath == Some(StreamTrack(db, id, audioFiles).value.relativePath)
  {
  }

  /** On a loaded catalog, looking up `id` succeeds exactly for the ids that
      numbering handed out, and returns the record numbered `id`, otherwise as
      parsed. */
  lemma LookupAfterLoad(parsed: seq<Track>, id: int)
    ensures GetTrack(WithIds(parsed), id).Ok? <==> 0 <= id < |parsed|
    ensures GetTrack(WithIds(parsed), id).Ok? ==>
      GetTrack(WithIds(parsed), id).value == parsed[id].(id := Some(id))
  {
  }

  /** On a loaded catalog, every search result carries an id, and looking that
      id up returns the same record. */
  lemma SearchResultsResolveById(parsed: seq<Track>, q: string)
    ensures forall t :: t in Search(WithIds(parsed), q) ==>
      t.id.Some? && GetTrack(WithIds(parsed), t.id.value) == Ok(t)
  {
  }

  /** A one-track catalog: the track is numbered 0 and found by id 0, by
      "queen" and by "QUEEN"; id 1 is not found; streaming it without its file
      under the audio root answers "Audio file not found". */
  lemma OneTrackScenario()
    ensures var db := WithIds([Track(None, Some("Bohemian Rhapsody"), Some("Queen"),
                                     Some("A Night at the Opera"), Some("q1.mp3"), map[])]);
      && db[0].id == Some(0)
      && GetTrack(db, 0) == Ok(db[0])
      && Search(db, "queen") == db
      && Search(db, "QUEEN") == db
      && GetTrack(db, 1) == Err(TrackNotFound)
      && StreamTrack(db, 0, {}) == Err(AudioFileNotFound)
  {
    assert Lower("Queen") == "queen";
    assert Lower("QUEEN") == "queen";
  }
}
