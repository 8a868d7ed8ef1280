/**
 How the pieces combine in one session of the application: the catalog feeds
 the checkbox form, a saved playlist is what the playback buttons read, and
 the Remove Song button acts on the same store.
 */
module Session {
  import opened Builtins
  import opened Catalog
  import opened Store
  import opened Player

  /** Right after a successful save, Play plays the first ticked song (in
      catalog order), and Previous plays the last ticked song. */
  lemma SavedPlaylistPlays(store: Playlists, name: string, songs: seq<Song>, ticked: seq<bool>)
    requires name != "" && Keep(songs, ticked) != []
    ensures var saved := SavePlaylist(store, name, songs, ticked);
      var selected := Keep(songs, ticked);
      && PlayButton(saved, Some(name)) == Play(selected[0].url)
      && PreviousButton(saved, Some(name)) == Play(selected[|selected| - 1].url)
  {
  }

  /** A save that fails validation leaves every button's action unchanged. */
  lemma RejectedSaveChangesNothing(store: Playlists, name: string, songs: seq<Song>, ticked: seq<bool>, selected: Option<string>)
    requires name == "" || Keep(songs, ticked) == []
    ensures var saved := SavePlaylist(store, name, songs, ticked);
      && PlayButton(saved, selected) == PlayButton(store, selected)
      && NextButton(saved, selected) == NextButton(store, selected)
      && PreviousButton(saved, selected) == PreviousButton(store, selected)
  {
  }

  /** The catalog of the walk-through folder: the three songs, in order, and
      not the text file. */
  lemma RoadTripCatalog()
    ensures LoadSongs(["A.mp3", "B.mp3", "C.mp3", "notes.txt"]) == RoadTripSongs()
  {
    RoadTripSuffixes();
    LoadSongsCons(["notes.txt"]);
    LoadSongsCons(["C.mp3", "notes.txt"]);
    LoadSongsCons(["B.mp3", "C.mp3", "notes.txt"]);
    LoadSongsCons(["A.mp3", "B.mp3", "C.mp3", "notes.txt"]);
  }

  /** Which of the walk-through files pass the `.mp3` test. */
  lemma RoadTripSuffixes()
    ensures EndsWith("A.mp3", Mp3Suffix) && EndsWith("B.mp3", Mp3Suffix) && EndsWith("C.mp3", Mp3Suffix)
    ensures !EndsWith("notes.txt", Mp3Suffix)
  {
    assert "notes.txt"[5..] != Mp3Suffix;
  }

  /** Ticking every box selects every song. */
  lemma {:induction false} AllTickedSelectsAll(songs: seq<Song>, ticked: seq<bool>)
    requires |ticked| == |songs|
    requires forall i :: 0 <= i < |ticked| ==> ticked[i]
    ensures Keep(songs, ticked) == songs
  {
    if |songs| > 0 {
      AllTickedSelectsAll(songs[1..], ticked[1..]);
      assert songs == [songs[0]] + songs[1..];
    }
  }

  /** The three walk-through songs, as the catalog makes them. */
  function RoadTripSongs(): seq<Song>
  {
    [SongFor("A.mp3"), SongFor("B.mp3"), SongFor("C.mp3")]
  }

  /** Saving all three ticked songs as "Road Trip" into an empty store. */
  lemma RoadTripSaved()
    ensures SavePlaylist(map[], "Road Trip", RoadTripSongs(), [true, true, true]) == map["Road Trip" := RoadTripSongs()]
  {
    AllTickedSelectsAll(RoadTripSongs(), [true, true, true]);
  }

  /** The buttons on the saved "Road Trip" playlist. */
  lemma RoadTripButtons()
    ensures var store := map["Road Trip" := RoadTripSongs()];
      && PlayButton(store, Some("Road Trip")) == Play("songs/A.mp3")
      && NextButton(store, Some("Road Trip")) == Play("songs/C.mp3")
      && PreviousButton(store, Some("Road Trip")) == Play("songs/C.mp3")
      && RemoveButton(store, Some("Road Trip")) == store
  {
    var store := map["Road Trip" := RoadTripSongs()];
    RoadTripUrls();
    RemoveButtonIgnoresSongs(store, "Road Trip");
  }

  /** The URLs and names of the walk-through songs. */
  lemma RoadTripUrls()
    ensures |RoadTripSongs()| == 3
    ensures RoadTripSongs()[0].url == "songs/A.mp3" && RoadTripSongs()[2].url == "songs/C.mp3"
    ensures forall s :: s in RoadTripSongs() ==> s.name != "Road Trip"
  {
    assert SongFor("A.mp3").url == "songs/A.mp3";
    assert SongFor("C.mp3").url == "songs/C.mp3";
  }

  /** The walk-through of a fresh session: the folder holds `A.mp3`, `B.mp3`,
      `C.mp3` and `notes.txt`; all three songs are ticked and saved as "Road
      Trip". Play then plays A, Next plays C (the button always starts from
      index 1), Previous plays C (the last song), and Remove Song leaves the
      playlist as it was, since no song is named "Road Trip". */
  lemma RoadTrip()
    ensures
      var songs := LoadSongs(["A.mp3", "B.mp3", "C.mp3", "notes.txt"]);
      var store := SavePlaylist(map[], "Road Trip", songs, [true, true, true]);
      && store == map["Road Trip" := songs]
      && PlayButton(store, Some("Road Trip")) == Play("songs/A.mp3")
      && NextButton(store, Some("Road Trip")) == Play("songs/C.mp3")
      && PreviousButton(store, Some("Road Trip")) == Play("songs/C.mp3")
      && RemoveButton(store, Some("Road Trip")) == store
  {
    RoadTripCatalog();
    RoadTripSaved();
    RoadTripButtons();
  }
}
