/** The catalog store: the track records and the in-memory list `tracks_db`
    that `load_data` fills once at startup. */
module CatalogStore {
  import opened Wrappers

  /** One parsed JSON object of `music.json`. A field that the object does not
      carry is `None`. `id` is whatever the file held under "id", if anything;
      `extra` holds every other key, passed through untouched. The keys "id",
      "title", "artist", "album" and "audio_path" never appear in `extra`:
      they live in their own fields, so each JSON object has exactly one
      `Track`. */
  datatype Track = Track(
    id: Option<int>,
    title: Option<string>,
    artist: Option<string>,
    album: Option<string>,
    audioPath: Option<string>,
    extra: map<string, string>)

  /** Why startup fails: the data file is missing (FileNotFoundError), or its
      contents are not valid JSON. */
  datatype LoadError = DataFileNotFound | InvalidJson

  /** The catalog as it stands after numbering: every record of `parsed`, in
      order, with its "id" set to its zero-based position. Numbering changes
      nothing but "id": same length, same order, and every other field of
      every record as parsed; an "id" already in the file is overwritten. */
  function WithIds(parsed: seq<Track>): (db: seq<Track>)
    ensures |db| == |parsed|
    ensures forall i :: 0 <= i < |db| ==> db[i].id == Some(i)
    ensures forall i :: 0 <= i < |db| ==> db[i].(id := parsed[i].id) == parsed[i]
  {
    seq(|parsed|, i requires 0 <= i < |parsed| => parsed[i].(id := Some(i)))
  }

  /** The ids are exactly 0 .. n-1: no gaps, no duplicates, nothing else. */
  lemma IdsAreExactlyPositions(parsed: seq<Track>)
    ensures (set t | t in WithIds(parsed) :: t.id) == (set i | 0 <= i < |parsed| :: Some(i))
    ensures forall i, j :: 0 <= i < j < |parsed| ==> WithIds(parsed)[i].id != WithIds(parsed)[j].id
  {
    var db := WithIds(parsed);
    forall i | 0 <= i < |parsed|
      ensures Some(i) in (set t | t in db :: t.id)
    {
      assert db[i] in db;
    }
  }

  /** The module-level store `tracks_db`. */
  class Catalog {
    var tracks: seq<Track>

    /** `tracks_db = []` before startup. */
    constructor()
      ensures tracks == []
    {
      tracks := [];
    }

    /** `load_data`: fails when the data file is absent or unparsable, leaving
        the store as it was; otherwise replaces the store with the parsed list
        and numbers it. `dataFileExists` and `parsed` stand for the file-system
        check and `json.load`. */
    method Load(dataFileExists: bool, parsed: Option<seq<Track>>) returns (r: Result<(), LoadError>)
      modifies this
      ensures !dataFileExists ==> r == Err(DataFileNotFound) && tracks == old(tracks)
      ensures dataFileExists && parsed.None? ==> r == Err(InvalidJson) && tracks == old(tracks)
      ensures dataFileExists && parsed.Some? ==> r == Ok(()) && tracks == WithIds(parsed.value)
    {
      if !dataFileExists {
        return Err(DataFileNotFound);
      }
      if parsed.None? {
        return Err(InvalidJson);
      }
      tracks := parsed.value;
      AssignIds();
      r := Ok(());
    }

    /** The loop `for i, track in enumerate(tracks_db): track["id"] = i`,
        writing each record's "id" in place. */
    method AssignIds()
      modifies this
      ensures tracks == WithIds(old(tracks))
    {
      var i := 0;
      while i < |tracks|
        invariant 0 <= i <= |tracks| == |old(tracks)|
        invariant forall k :: 0 <= k < i ==> tracks[k] == old(tracks)[k].(id := Some(k))
        invariant forall k :: i <= k < |tracks| ==> tracks[k] == old(tracks)[k]
      {
        tracks := tracks[i := tracks[i].(id := Some(i))];
        i := i + 1;
      }
    }
  }
}
