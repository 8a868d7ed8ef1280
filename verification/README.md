# Music Organizer — playlist core in Dafny

The Music Organizer is a single-window Flet application. It lists the `.mp3`
files of a `songs` folder, lets the user tick songs and save them as a named
playlist, keeps every playlist in a map from name to an ordered list of
`{name, url}` song records, and has Play, Stop, Next, Previous and Remove Song
buttons that act on the playlist chosen in a dropdown.

This project models the logic inside those callbacks as pure functions over
immutable values:

- `builtins.dfy` (module `Builtins`): the Python behaviour the code relies on.
  This covers list indexing (negative indices count from the end, anything
  else raises IndexError), case-sensitive `str.endswith` and POSIX
  `os.path.join`. It also covers the filtered `zip` comprehension that keeps
  the ticked songs (`Keep`), with the proof that it keeps exactly the flagged
  positions in order.
- `catalog.dfy` (module `Catalog`): the `Song` record and `load_songs`. The
  directory listing is an input.
- `store.dfy` (module `Store`): the playlist map. It has the Save Playlist
  callback, removal by song name (`RemoveSong`), and the Remove Song button
  as it is wired (`RemoveButton`).
- `player.dfy` (module `Player`): the index arithmetic of Next and Previous,
  and `play_song`, `play_next_song` and `play_previous_song`. It also has the
  three buttons with the fixed indices they pass. A button press yields an
  `Action`: play a URL, do nothing, or raise IndexError.
- `session.dfy` (module `Session`): properties that join the pieces, ending
  with a walk-through of a whole session.

The dropdown's value is an `Option<string>`, because a Flet dropdown has no
value (`None`) until something is picked, and `None in playlists` is false.
There is no stored "current song". Every button passes a constant index
(Play 0, Next 1, Previous -1). So Next always plays the third song, or the
first when the playlist has at most two. Previous always plays the last song.

The header comments of the program (Music_organaizer.py:1 and :6) announce
more than the code does: scanning for WAV as well as MP3 files, and adding,
removing and reordering songs within a playlist. The code has no way to add
or reorder songs. Its Remove Song button does remove entries, matched by
display name, but only the entries whose name equals the playlist's own name
(Music_organaizer.py:121). This model follows the code. Save overwrites a
playlist of the same name. The scan accepts only a lower-case `.mp3` suffix.
Next never steps from the song being played: it always starts from index 1,
so on a three-song playlist it plays the third song (`Session.RoadTrip`).

## Model

| member | source | states |
|---|---|---|
| Builtins.Join | Music_organaizer.py:43 | the joined path ends with the file name |
| Builtins.EndsWithChars | Music_organaizer.py:43 | `endswith` holds exactly when the suffix is no longer than the name and matches its last characters one by one, that is, when the name is some prefix followed by the suffix |
| Builtins.Index | Music_organaizer.py:49 | a list lookup succeeds exactly for positions from `-len` to `len - 1`, and then yields the element at that position modulo `len`; any other position raises IndexError |
| Builtins.Keep | Music_organaizer.py:66 | the selection is no longer than either the song list or the checkbox list, and holds only catalog songs |
| Builtins.KeepPicksMarked | Music_organaizer.py:66 | the selection is exactly the songs at the ticked positions, in catalog order; a position is taken precisely when its box is ticked |
| Builtins.KeepIsSubsequence | Music_organaizer.py:66 | the selection is a subsequence of the catalog |
| Catalog.SongFor | Music_organaizer.py:43 | a listed file's song record has the file name as its name and, for a relative file name, the URL `songs/<name>` |
| Catalog.SongForInjective | Music_organaizer.py:43 | two relative file names that give the same URL are the same name, so the URL identifies the file it was made from |
| Catalog.LoadSongs | Music_organaizer.py:42-43 | every catalog song is a listed file ending in `.mp3`, with URL `join("songs", name)`; every listed `.mp3` file is in the catalog; the catalog is never longer than the listing |
| Catalog.LoadSongsNamesAreKept | Music_organaizer.py:43 | the catalog's names are the listing filtered by the `.mp3` suffix test |
| Catalog.LoadSongsExact | Music_organaizer.py:43 | the catalog keeps exactly the `.mp3` files, in listing order |
| Catalog.LoadSongsSkipsOtherExtensions | Music_organaizer.py:43 | files ending in `.wav` or upper-case `.MP3` never enter the catalog |
| Store.SavePlaylist | Music_organaizer.py:65-68 | with an empty name or nothing ticked the store is unchanged; otherwise the name maps to the ticked songs (overwriting an old playlist of that name), and every other playlist is unchanged |
| Store.SaveKeepsInvariants | Music_organaizer.py:66-68 | saving never adds an empty playlist name, and only adds catalog songs |
| Store.WithoutName | Music_organaizer.py:122 | the filtered list has no entry with the removed name, keeps every entry with another name, and is no longer than before |
| Store.WithoutNameIsKeep | Music_organaizer.py:122 | removal by name is the comprehension that keeps the entries whose name differs |
| Store.WithoutNameExact | Music_organaizer.py:122 | removal keeps exactly the entries with another name, in their original relative order |
| Store.WithoutAbsentName | Music_organaizer.py:122 | removing a name no entry has changes nothing |
| Store.WithoutNameIdempotent | Music_organaizer.py:122 | removing a name twice equals removing it once |
| Store.WithoutPresentNameShrinks | Music_organaizer.py:122 | removing a name some entry has makes the list strictly shorter |
| Store.RemoveSong | Music_organaizer.py:118-122 | an unknown playlist leaves the store unchanged; otherwise the keys stay the same, the playlist loses every entry with the key and keeps the rest, and other playlists are untouched |
| Store.RemoveSongIdempotent | Music_organaizer.py:120-122 | removal applied twice equals removal applied once |
| Store.RemoveSongRemovesChosen | Music_organaizer.py:120-122 | removing a song name the playlist holds removes at least one entry and leaves none with that name |
| Store.RemoveKeepsInvariants | Music_organaizer.py:120-122 | removal keeps playlist names non-empty and songs drawn from the catalog |
| Store.RemoveButton | Music_organaizer.py:118-122 | with no selection or an unknown playlist nothing changes; otherwise the selected playlist loses exactly the entries named like the playlist itself, and other playlists are untouched |
| Store.RemoveButtonIgnoresSongs | Music_organaizer.py:121-122 | when no song is named like its playlist, the Remove Song button changes nothing |
| Store.RemoveButtonCounterexample | Music_organaizer.py:121 | on a playlist holding only `a.mp3`, the button removes nothing, while removal by that song's name empties the playlist |
| Player.NextIndex | Music_organaizer.py:96-98 | from -1 or a valid position of a non-empty playlist, the next index is a valid position; it is either 0 or one more |
| Player.PreviousIndex | Music_organaizer.py:109-111 | from any position up to the length of a non-empty playlist, the previous index is a valid position; it is either the last position or one less |
| Player.NextIndexIsSuccessorMod | Music_organaizer.py:96-98 | Next is `(i + 1) mod len` |
| Player.PreviousIndexIsPredecessorMod | Music_organaizer.py:109-111 | Previous is `(i - 1 + len) mod len` |
| Player.PreviousUndoesNext | Music_organaizer.py:96-111 | Previous after Next returns to the starting position |
| Player.NextUndoesPrevious | Music_organaizer.py:96-111 | Next after Previous returns to the starting position |
| Player.NextTimesAdds | Music_organaizer.py:96-98 | up to one lap, k applications of the index step at lines 96-98 add k and wrap once past the end (no button sequence chains these steps; each press starts from a fixed index) |
| Player.NextTimesFullCycle | Music_organaizer.py:96-98 | `len` applications of the index step at lines 96-98 return to the start (a property of the step alone; no button sequence performs it) |
| Player.PlaySong | Music_organaizer.py:46-54 | something happens exactly when the dropdown names a stored non-empty playlist, and then a valid index plays that song's URL; an index from `-len` to `len - 1` plays the song at that index modulo `len`, and any other index raises IndexError |
| Player.Resolve | Music_organaizer.py:99-100 | the lookup of a position never yields "nothing happens"; it plays exactly for positions from `-len` to `len - 1`, then the URL of the song at that position modulo `len`, and raises IndexError otherwise |
| Player.PlayNext | Music_organaizer.py:92-102 | something happens exactly when the dropdown names a stored playlist; an empty one raises IndexError; otherwise, when the passed index is at least -1, the song at the next index is played; for any passed index, a next index from `-len` to `len - 1` plays the song at that index modulo `len` and any other raises IndexError |
| Player.PlayPrevious | Music_organaizer.py:105-115 | something happens exactly when the dropdown names a stored playlist; an empty one raises IndexError; otherwise, when the passed index is at most the playlist length, the song at the previous index is played; for any passed index, a song plays exactly when the playlist is non-empty and the previous index is below its length, and it is the song at that index |
| Player.PlayButton | Music_organaizer.py:84 | Play plays the first song of a non-empty selected playlist and does nothing otherwise |
| Player.NextButton | Music_organaizer.py:86 | Next plays the third song, or the first when there are at most two, and raises IndexError on an empty playlist |
| Player.PreviousButton | Music_organaizer.py:87 | Previous plays the last song, and raises IndexError on an empty playlist |
| Session.SavedPlaylistPlays | Music_organaizer.py:65-68 | right after a save, Play plays the first ticked song and Previous the last ticked song |
| Session.RejectedSaveChangesNothing | Music_organaizer.py:67 | a save with an empty name or nothing ticked changes no button's action |
| Session.AllTickedSelectsAll | Music_organaizer.py:66 | ticking every box selects the whole catalog |
| Session.RoadTripCatalog | Music_organaizer.py:43 | a folder with `A.mp3`, `B.mp3`, `C.mp3` and `notes.txt` gives the three songs, in order |
| Session.RoadTripSaved | Music_organaizer.py:66-68 | saving the three ticked songs as "Road Trip" into an empty store yields that one playlist |
| Session.RoadTripButtons | Music_organaizer.py:84-88 | on that playlist Play plays A, Next plays C, Previous plays C, and Remove Song changes nothing |
| Session.RoadTrip | Music_organaizer.py:43-122 | the whole walk-through, from the folder listing to the buttons |

## Left out

- Flet user interface: page setup, the text field, checkboxes, dropdown options, snackbar, the show/hide list (`toggle_playlist_songs`), `main` and `ft.app`. These are widget plumbing. Adding the saved name to the dropdown again when a playlist is overwritten is part of this.
- Audio: `ft.Audio` (`src`, `update`, `play`) is an outside device. A press only yields the URL it would play. `stop_song` only calls `audio.pause()` and is not modelled.
- File and JSON I/O: loading `playlists.json` at startup, `json.dump` after save and remove, `os.path.exists` and `os.listdir` (the listing is an input `seq<string>`). No JSON round trip is modelled.
- Catalog.LoadSongs: `os.path.join` is modelled as the POSIX join of two parts. Other platforms' separators are not modelled.
- The `print` calls in `play_song` and `remove_song_from_playlist` only write to the console.
- Features the code does not have are not modelled: stable song ids, adding or reordering songs, deleting a whole playlist, rejecting a duplicate name, a stored current index or Stopped/Playing state, atomic writes, and WAV support.
- Store.SavePlaylist: the name is a `string`, so "no value" and the empty string are one case. Python treats both as false in the same way.

## Findings

| source | as written | input that shows it | evidently intended | confidence | as-written member | corrected member |
|---|---|---|---|---|---|---|
| Music_organaizer.py:121 | Remove Song passes the selected playlist's name as the name of the song to remove | playlist "Road Trip" holding only `a.mp3`: pressing Remove Song leaves it unchanged | remove the song the user chose, matched by that song's name | high: the line is marked as a placeholder; not executed | Store.RemoveButton, Store.RemoveButtonCounterexample | Store.RemoveSong, Store.RemoveSongRemovesChosen |
