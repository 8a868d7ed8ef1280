/**
 The playlist store: a map from playlist name to its ordered list of songs,
 with the two mutations the application performs on it (saving a playlist
 from the checkbox form, and removing entries by song name). Writing the map
 to the playlists document after each mutation is I/O and is not modelled.
 */
module Store {
  import opened Builtins
  import opened Catalog

  /** Playlist name to its songs, in the order they were selected. */
  type Playlists = map<string, seq<Song>>

  /** The Save Playlist button: the songs whose checkbox is ticked, in catalog
      order, are stored under the typed name, replacing any playlist already
      saved under it. Nothing happens when the name is empty or no box is
      ticked. */
  function SavePlaylist(store: Playlists, name: string, songs: seq<Song>, ticked: seq<bool>): (r: Playlists)
    ensures name == "" || Keep(songs, ticked) == [] ==> r == store
    ensures name != "" && Keep(songs, ticked) != [] ==>
      && r.Keys == store.Keys + {name}
      && r[name] == Keep(songs, ticked)
      && |r[name]| > 0
    ensures forall k :: k in store && k != name ==> k in r && r[k] == store[k]
  {
    var selected := Keep(songs, ticked);
    if name != "" && |selected| > 0 then store[name := selected] else store
  }

  /** `[song for song in entries if song["name"] != key]`: every entry whose
      display name differs from `key`, in order. */
  function WithoutName(entries: seq<Song>, key: string): (r: seq<Song>)
    ensures |r| <= |entries|
    ensures forall s :: s in r ==> s in entries && s.name != key
    ensures forall s :: s in entries && s.name != key ==> s in r
  {
    if |entries| == 0 then []
    else
      var rest := WithoutName(entries[1..], key);
      assert forall s :: s in entries[1..] ==> s in entries;
      assert forall s :: s in entries && s != entries[0] ==> s in entries[1..];
      (if entries[0].name != key then [entries[0]] else []) + rest
  }

  /** For each entry, whether its name differs from `key` (whether it is kept). */
  function OtherNames(entries: seq<Song>, key: string): (mask: seq<bool>)
    ensures |mask| == |entries|
    ensures forall i :: 0 <= i < |entries| ==> mask[i] == (entries[i].name != key)
  {
    seq(|entries|, i requires 0 <= i < |entries| => entries[i].name != key)
  }

  /** Removal by name is the filtered comprehension with the "name differs" flags. */
  lemma {:induction false} WithoutNameIsKeep(entries: seq<Song>, key: string)
    ensures WithoutName(entries, key) == Keep(entries, OtherNames(entries, key))
  {
    if |entries| > 0 {
      WithoutNameIsKeep(entries[1..], key);
      assert OtherNames(entries, key)[1..] == OtherNames(entries[1..], key);
    }
  }

  /** Removal keeps exactly the entries whose name differs from `key`, in their
      original relative order, and drops every entry carrying that name. */
  lemma WithoutNameExact(entries: seq<Song>, key: string)
    ensures Picks(WithoutName(entries, key), entries, MarkedIndices(|entries|, OtherNames(entries, key)))
    ensures forall i :: 0 <= i < |entries| ==>
      (entries[i].name != key <==> i in MarkedIndices(|entries|, OtherNames(entries, key)))
  {
    WithoutNameIsKeep(entries, key);
    KeepPicksMarked(entries, OtherNames(entries, key));
  }

  /** Removing a name that no entry carries changes nothing. */
  lemma {:induction false} WithoutAbsentName(entries: seq<Song>, key: string)
    requires forall s :: s in entries ==> s.name != key
    ensures WithoutName(entries, key) == entries
  {
    if |entries| > 0 {
      assert entries[0] in entries;
      assert forall s :: s in entries[1..] ==> s in entries;
      WithoutAbsentName(entries[1..], key);
      assert entries == [entries[0]] + entries[1..];
    }
  }

  /** Removing the same name twice is the same as removing it once. */
  lemma WithoutNameIdempotent(entries: seq<Song>, key: string)
    ensures WithoutName(WithoutName(entries, key), key) == WithoutName(entries, key)
  {
    WithoutAbsentName(WithoutName(entries, key), key);
  }

  /** When some entry carries the name, removal really shortens the list. */
  lemma {:induction false} WithoutPresentNameShrinks(entries: seq<Song>, key: string)
    requires exists s :: s in entries && s.name == key
    ensures |WithoutName(entries, key)| < |entries|
  {
    if entries[0].name != key {
      var s :| s in entries && s.name == key;
      assert s in entries[1..];
      WithoutPresentNameShrinks(entries[1..], key);
    }
  }

  /** Removal of every entry named `key` from the playlist `playlist`. An
      unknown playlist leaves the store as it was; otherwise only that
      playlist changes, it keeps its key, it no longer holds an entry named
      `key`, and it keeps every entry with another name. */
  function RemoveSong(store: Playlists, playlist: string, key: string): (r: Playlists)
    ensures playlist !in store ==> r == store
    ensures r.Keys == store.Keys
    ensures playlist in store ==>
      && |r[playlist]| <= |store[playlist]|
      && (forall s :: s in r[playlist] ==> s in store[playlist] && s.name != key)
      && (forall s :: s in store[playlist] && s.name != key ==> s in r[playlist])
    ensures forall k :: k in store && k != playlist ==> r[k] == store[k]
  {
    if playlist in store then store[playlist := WithoutName(store[playlist], key)] else store
  }

  /** Removing the same song name twice is the same as removing it once. */
  lemma RemoveSongIdempotent(store: Playlists, playlist: string, key: string)
    ensures RemoveSong(RemoveSong(store, playlist, key), playlist, key) == RemoveSong(store, playlist, key)
  {
    if playlist in store {
      WithoutNameIdempotent(store[playlist], key);
    }
  }

  /** Removing a song name that the playlist holds takes out every entry
      with that name, and at least one entry. */
  lemma RemoveSongRemovesChosen(store: Playlists, playlist: string, key: string)
    requires playlist in store
    requires exists s :: s in store[playlist] && s.name == key
    ensures |RemoveSong(store, playlist, key)[playlist]| < |store[playlist]|
    ensures forall s :: s in RemoveSong(store, playlist, key)[playlist] ==> s.name != key
  {
    WithoutPresentNameShrinks(store[playlist], key);
  }

  /** The Remove Song button as wired: the dropdown's playlist name is also
      used as the name of the song to remove, so the button removes the
      entries whose song name equals the playlist's name. A dropdown with no
      value selects no playlist. */
  function RemoveButton(store: Playlists, selected: Option<string>): (r: Playlists)
    ensures r.Keys == store.Keys
    ensures selected.None? || selected.value !in store ==> r == store
    ensures selected.Some? && selected.value in store ==>
      var name := selected.value;
      && (forall s :: s in r[name] ==> s in store[name] && s.name != name)
      && (forall s :: s in store[name] && s.name != name ==> s in r[name])
    ensures forall k :: k in store && (selected.None? || k != selected.value) ==> r[k] == store[k]
  {
    match selected
    case None => store
    case Some(name) => RemoveSong(store, name, name)
  }

  /** Consequently the button leaves the store untouched whenever no song in
      the selected playlist happens to share the playlist's name. */
  lemma RemoveButtonIgnoresSongs(store: Playlists, name: string)
    requires name in store
    requires forall s :: s in store[name] ==> s.name != name
    ensures RemoveButton(store, Some(name)) == store
  {
    WithoutAbsentName(store[name], name);
    assert store[name := store[name]] == store;
  }

  /** A playlist whose only song is `a.mp3`: pressing Remove Song leaves it
      as is, while removing the song by its own name empties it. */
  lemma RemoveButtonCounterexample()
    ensures var store := map["Road Trip" := [Song("a.mp3", "songs/a.mp3")]];
      && RemoveButton(store, Some("Road Trip")) == store
      && RemoveSong(store, "Road Trip", "a.mp3")["Road Trip"] == []
  {
    var store := map["Road Trip" := [Song("a.mp3", "songs/a.mp3")]];
    assert "a.mp3" != "Road Trip";
    RemoveButtonIgnoresSongs(store, "Road Trip");
  }

  /** Every playlist name in the store is non-empty. */
  ghost predicate NamedPlaylists(store: Playlists)
  {
    forall k :: k in store ==> k != ""
  }

  /** Every song in every playlist comes from the catalog `songs`. */
  ghost predicate FromCatalog(store: Playlists, songs: seq<Song>)
  {
    forall k, s :: k in store && s in store[k] ==> s in songs
  }

  /** Saving never introduces an empty playlist name, and a playlist built
      from the catalog's checkboxes only holds catalog songs. */
  lemma SaveKeepsInvariants(store: Playlists, name: string, songs: seq<Song>, ticked: seq<bool>)
    ensures NamedPlaylists(store) ==> NamedPlaylists(SavePlaylist(store, name, songs, ticked))
    ensures FromCatalog(store, songs) ==> FromCatalog(SavePlaylist(store, name, songs, ticked), songs)
  {
  }

  /** Removal keeps both invariants: it never adds a name or a song. */
  lemma RemoveKeepsInvariants(store: Playlists, playlist: string, key: string, songs: seq<Song>)
    ensures NamedPlaylists(store) ==> NamedPlaylists(RemoveSong(store, playlist, key))
    ensures FromCatalog(store, songs) ==> FromCatalog(RemoveSong(store, playlist, key), songs)
  {
  }
}
