/**
 Playback: which song the Play, Next and Previous buttons hand to the audio
 player. The audio element is an outside device; the model only says which
 URL it is told to play, or that the lookup raised IndexError. There is no
 stored "current song": every button passes a fixed index.
 */
module Player {
  import opened Builtins
  import opened Catalog
  import opened Store

  /** What one button press does to the audio element. */
  datatype Action =
    | Play(url: string)  // the URL is loaded into the audio element and played
    | Idle               // no playlist matched; nothing is played
    | IndexError         // the list lookup raised IndexError

  /** The action for looking up position `k` of a playlist with Python
      indexing: a position from `-len` to `len - 1` plays that song (counting
      from the end when negative), any other position raises IndexError. */
  function Resolve(playlist: seq<Song>, k: int): (r: Action)
    ensures r != Idle
    ensures r.Play? <==> -|playlist| <= k < |playlist|
    ensures r.Play? ==> r.url == playlist[(k + |playlist|) % |playlist|].url
  {
    match Index(playlist, k)
    case Some(song) => Play(song.url)
    case None => IndexError
  }

  /** The index after `i`, wrapping to 0 once it reaches the end. */
  function NextIndex(i: int, len: nat): (r: int)
    ensures len > 0 && -1 <= i ==> 0 <= r < len
    ensures r == 0 || r == i + 1
  {
    if i + 1 >= len then 0 else i + 1
  }

  /** The index before `i`, wrapping to the last position once it drops below 0. */
  function PreviousIndex(i: int, len: nat): (r: int)
    ensures len > 0 && i <= len ==> 0 <= r < len
    ensures r == len - 1 || r == i - 1
  {
    if i - 1 < 0 then len - 1 else i - 1
  }

  /** From any position of a non-empty playlist, or from -1, Next is the
      successor modulo the length. */
  lemma NextIndexIsSuccessorMod(i: int, len: nat)
    requires 0 < len && -1 <= i < len
    ensures NextIndex(i, len) == (i + 1) % len
  {
    WrapIndex(i + 1, len);
  }

  /** From any position of a non-empty playlist, or from one past the end,
      Previous is the predecessor modulo the length. */
  lemma PreviousIndexIsPredecessorMod(i: int, len: nat)
    requires 0 < len && 0 <= i <= len
    ensures PreviousIndex(i, len) == (i - 1 + len) % len
  {
    WrapIndex(i - 1 + len, len);
  }

  /** Previous undoes Next. */
  lemma PreviousUndoesNext(i: int, len: nat)
    requires 0 <= i < len
    ensures PreviousIndex(NextIndex(i, len), len) == i
  {
  }

  /** Next undoes Previous. */
  lemma NextUndoesPrevious(i: int, len: nat)
    requires 0 <= i < len
    ensures NextIndex(PreviousIndex(i, len), len) == i
  {
  }

  /** `k` applications of the Next index step starting from `i`. The buttons
      never chain steps (each press starts again from a fixed index); this
      only describes the step function itself. */
  function NextTimes(i: int, len: nat, k: nat): int
  {
    if k == 0 then i else NextIndex(NextTimes(i, len, k - 1), len)
  }

  /** Up to one full lap, applying the step `k` times is adding `k` and
      wrapping once past the end. */
  lemma {:induction false} NextTimesAdds(i: int, len: nat, k: nat)
    requires 0 <= i < len && k <= len
    ensures NextTimes(i, len, k) == if i + k < len then i + k else i + k - len
  {
    if k > 0 {
      NextTimesAdds(i, len, k - 1);
    }
  }

  /** Applying the step once per song of the playlist comes back to the start. */
  lemma NextTimesFullCycle(i: int, len: nat)
    requires 0 <= i < len
    ensures NextTimes(i, len, len) == i
  {
    NextTimesAdds(i, len, len);
  }

  /** `play_song`: plays position `i` of the selected playlist, but only when
      the dropdown names a stored playlist that is non-empty. */
  function PlaySong(store: Playlists, selected: Option<string>, i: int): (r: Action)
    ensures r != Idle <==> selected.Some? && selected.value in store && |store[selected.value]| > 0
    ensures r != Idle && 0 <= i < |store[selected.value]| ==> r == Play(store[selected.value][i].url)
    ensures r != Idle ==>
      var playlist := store[selected.value];
      && (r.Play? <==> -|playlist| <= i < |playlist|)
      && (r.Play? ==> r.url == playlist[(i + |playlist|) % |playlist|].url)
  {
    if selected.Some? && selected.value in store && |store[selected.value]| > 0 then
      Resolve(store[selected.value], i)
    else
      Idle
  }

  /** `play_next_song`: plays the position after `i` in the selected playlist.
      There is no emptiness check, so an empty playlist raises IndexError. */
  function PlayNext(store: Playlists, selected: Option<string>, i: int): (r: Action)
    ensures r != Idle <==> selected.Some? && selected.value in store
    ensures r != Idle && |store[selected.value]| == 0 ==> r == IndexError
    ensures r != Idle && |store[selected.value]| > 0 && -1 <= i ==>
      r == Play(store[selected.value][NextIndex(i, |store[selected.value]|)].url)
    ensures r != Idle ==>
      var playlist := store[selected.value];
      var j := NextIndex(i, |playlist|);
      && (r.Play? <==> -|playlist| <= j < |playlist|)
      && (r.Play? ==> r.url == playlist[(j + |playlist|) % |playlist|].url)
  {
    if selected.Some? && selected.value in store then
      var playlist := store[selected.value];
      Resolve(playlist, NextIndex(i, |playlist|))
    else
      Idle
  }

  /** `play_previous_song`: plays the position before `i` in the selected
      playlist. There is no emptiness check, so an empty playlist raises
      IndexError. */
  function PlayPrevious(store: Playlists, selected: Option<string>, i: int): (r: Action)
    ensures r != Idle <==> selected.Some? && selected.value in store
    ensures r != Idle && |store[selected.value]| == 0 ==> r == IndexError
    ensures r != Idle && |store[selected.value]| > 0 && i <= |store[selected.value]| ==>
      r == Play(store[selected.value][PreviousIndex(i, |store[selected.value]|)].url)
    ensures r != Idle ==>
      var playlist := store[selected.value];
      && (r.Play? <==> |playlist| > 0 && i - 1 < |playlist|)
      && (r.Play? ==> r.url == playlist[PreviousIndex(i, |playlist|)].url)
  {
    if selected.Some? && selected.value in store then
      var playlist := store[selected.value];
      Resolve(playlist, PreviousIndex(i, |playlist|))
    else
      Idle
  }

  /** The Play button always passes index 0: it plays the first song of a
      non-empty selected playlist. */
  function PlayButton(store: Playlists, selected: Option<string>): (r: Action)
    ensures r != Idle <==> selected.Some? && selected.value in store && |store[selected.value]| > 0
    ensures r != Idle ==> r == Play(store[selected.value][0].url)
  {
    PlaySong(store, selected, 0)
  }

  /** The Next button always passes index 1, so it plays the third song, or
      the first when the playlist has at most two; an empty playlist raises
      IndexError. */
  function NextButton(store: Playlists, selected: Option<string>): (r: Action)
    ensures r != Idle <==> selected.Some? && selected.value in store
    ensures r != Idle ==>
      var playlist := store[selected.value];
      && (|playlist| > 2 ==> r == Play(playlist[2].url))
      && (0 < |playlist| <= 2 ==> r == Play(playlist[0].url))
      && (|playlist| == 0 ==> r == IndexError)
  {
    PlayNext(store, selected, 1)
  }

  /** The Previous button always passes index -1, so it plays the last song;
      an empty playlist raises IndexError. */
  function PreviousButton(store: Playlists, selected: Option<string>): (r: Action)
    ensures r != Idle <==> selected.Some? && selected.value in store
    ensures r != Idle ==>
      var playlist := store[selected.value];
      && (|playlist| > 0 ==> r == Play(playlist[|playlist| - 1].url))
      && (|playlist| == 0 ==> r == IndexError)
  {
    PlayPrevious(store, selected, -1)
  }
}
