/**
 The song catalog: the songs found in the songs directory, each a record of a
 display name and a URL. The directory listing itself comes from the operating
 system and is an input here.
 */
module Catalog {
  import opened Builtins

  /** One song record, as stored in memory and in the playlists document. */
  datatype Song = Song(name: string, url: string)

  /** The directory the catalog is read from. */
  const SongDir: string := "songs"

  /** The only extension the catalog accepts. */
  const Mp3Suffix: string := ".mp3"

  /** The song record the catalog makes for a listed file name: the name is
      the file name, and a relative file name is found at `songs/<name>`. */
  function SongFor(file: string): (song: Song)
    ensures song.name == file
    ensures |file| > 0 && file[0] != '/' ==> song.url == "songs/" + file
  {
    assert SongDir[|SongDir| - 1] == 's';
    assert SongDir + "/" + file == "songs/" + file;
    Song(file, Join(SongDir, file))
  }

  /** Two relative file names never share a URL, so a song's URL identifies the
      file it was made from. */
  lemma SongForInjective(a: string, b: string)
    requires |a| > 0 && a[0] != '/' && |b| > 0 && b[0] != '/'
    requires SongFor(a).url == SongFor(b).url
    ensures a == b
  {
    assert a == ("songs/" + a)[6..];
    assert b == ("songs/" + b)[6..];
  }

  /** The catalog built from a directory listing: every file whose name ends
      in `.mp3` (case-sensitive), in listing order, paired with its path under
      the songs directory. */
  function LoadSongs(listing: seq<string>): (r: seq<Song>)
    ensures |r| <= |listing|
    ensures forall s :: s in r ==> s.name in listing && EndsWith(s.name, Mp3Suffix)
    ensures forall s :: s in r ==> s.url == Join(SongDir, s.name) && EndsWith(s.url, s.name)
    ensures forall f :: f in listing && EndsWith(f, Mp3Suffix) ==> SongFor(f) in r
  {
    if |listing| == 0 then []
    else
      var rest := LoadSongs(listing[1..]);
      var r := (if EndsWith(listing[0], Mp3Suffix) then [SongFor(listing[0])] else []) + rest;
      assert forall f :: f in listing[1..] ==> f in listing;
      assert forall f :: f in listing && f != listing[0] ==> f in listing[1..];
      r
  }

  /** One step of the catalog scan: the first listed file is kept exactly
      when it ends in `.mp3`, ahead of the catalog of the rest. */
  lemma LoadSongsCons(listing: seq<string>)
    requires |listing| > 0
    ensures LoadSongs(listing) == (if EndsWith(listing[0], Mp3Suffix) then [SongFor(listing[0])] else []) + LoadSongs(listing[1..])
  {
  }

  /** For each listed file, whether its name ends in `.mp3`. */
  function Mp3Mask(listing: seq<string>): (mask: seq<bool>)
    ensures |mask| == |listing|
    ensures forall i :: 0 <= i < |listing| ==> mask[i] == EndsWith(listing[i], Mp3Suffix)
  {
    seq(|listing|, i requires 0 <= i < |listing| => EndsWith(listing[i], Mp3Suffix))
  }

  /** The display names of a list of songs. */
  function Names(songs: seq<Song>): (names: seq<string>)
    ensures |names| == |songs|
    ensures forall i :: 0 <= i < |songs| ==> names[i] == songs[i].name
  {
    seq(|songs|, i requires 0 <= i < |songs| => songs[i].name)
  }

  /** The `.mp3` flags of a listing without its first file are the flags of
      the listing without their first entry. */
  lemma Mp3MaskTail(listing: seq<string>)
    requires |listing| > 0
    ensures Mp3Mask(listing)[1..] == Mp3Mask(listing[1..])
  {
  }

  /** The catalog's names are the listing filtered by the `.mp3` test. */
  lemma {:induction false} LoadSongsNamesAreKept(listing: seq<string>)
    ensures Names(LoadSongs(listing)) == Keep(listing, Mp3Mask(listing))
  {
    if |listing| > 0 {
      var mask := Mp3Mask(listing);
      var head := if mask[0] then [SongFor(listing[0])] else [];
      var tail := LoadSongs(listing[1..]);
      LoadSongsCons(listing);
      NamesAppend(head, tail);
      assert Names(head) == if mask[0] then [listing[0]] else [];
      LoadSongsNamesAreKept(listing[1..]);
      Mp3MaskTail(listing);
      KeepUnfold(listing, mask);
    }
  }

  lemma NamesAppend(a: seq<Song>, b: seq<Song>)
    ensures Names(a + b) == Names(a) + Names(b)
  {
  }

  /** The catalog holds exactly the listed files ending in `.mp3`, in listing
      order: its names are the listing taken at the positions of those files,
      and a position is taken precisely when its file ends in `.mp3`. */
  lemma LoadSongsExact(listing: seq<string>)
    ensures Picks(Names(LoadSongs(listing)), listing, MarkedIndices(|listing|, Mp3Mask(listing)))
    ensures forall i :: 0 <= i < |listing| ==>
      (EndsWith(listing[i], Mp3Suffix) <==> i in MarkedIndices(|listing|, Mp3Mask(listing)))
  {
    LoadSongsNamesAreKept(listing);
    KeepPicksMarked(listing, Mp3Mask(listing));
  }

  /** Only the lower-case `.mp3` extension is accepted: a listed WAV file or an
      upper-case `.MP3` name never makes it into the catalog. */
  lemma LoadSongsSkipsOtherExtensions(listing: seq<string>, file: string)
    requires EndsWith(file, ".wav") || EndsWith(file, ".MP3")
    ensures forall s :: s in LoadSongs(listing) ==> s.name != file
  {
    var n := |file|;
    assert file[n - 3] == file[n - 4..][1];
    assert file[n - 3] != 'm';
    assert !EndsWith(file, Mp3Suffix);
  }
}
