/**
 Small models of the Python built-ins the music organizer leans on: list
 indexing (with negative indices and IndexError), `str.endswith`, POSIX
 `os.path.join`, and the filtered `zip` comprehension used to keep the songs
 whose checkbox is ticked.
 */
module Builtins {

  /** The usual Some/None wrapper; `None` stands for "no value" (a Python `None`
      dropdown value, or an IndexError from a list lookup). */
  datatype Option<+T> = None | Some(value: T)

  /** Python's `s[k]` on a list: a negative `k` counts from the end, and an index
      outside `[-|s|, |s|)` raises IndexError, modelled as `None`. */
  function Index<T>(s: seq<T>, k: int): (r: Option<T>)
    ensures r.Some? <==> -|s| <= k < |s|
    ensures r.Some? ==> r.value == s[(k + |s|) % |s|]
  {
    if 0 <= k < |s| then
      WrapIndex(k + |s|, |s|);
      Some(s[k])
    else if -|s| <= k < 0 then
      WrapIndex(k + |s|, |s|);
      Some(s[|s| + k])
    else None
  }

  /** Reducing a number below twice the modulus subtracts the modulus at most once. */
  lemma WrapIndex(x: int, n: int)
    requires 0 <= x < 2 * n
    ensures x % n == if x < n then x else x - n
  {
    if x < n {
      assert x == 0 * n + x;
    } else {
      assert x == 1 * n + (x - n);
    }
  }

  /** Python's `s.endswith(suffix)`: case-sensitive, character by character. */
  predicate EndsWith(s: string, suffix: string)
  {
    |suffix| <= |s| && s[|s| - |suffix|..] == suffix
  }

  /** `endswith` compares the last characters one by one, and a string ends
      with `suffix` exactly when it is some prefix followed by `suffix`. */
  lemma EndsWithChars(s: string, suffix: string)
    ensures EndsWith(s, suffix) <==>
      |suffix| <= |s| && forall i :: 0 <= i < |suffix| ==> s[|s| - |suffix| + i] == suffix[i]
    ensures EndsWith(s, suffix) <==> |suffix| <= |s| && s == s[..|s| - |suffix|] + suffix
  {
    if |suffix| <= |s| && forall i :: 0 <= i < |suffix| ==> s[|s| - |suffix| + i] == suffix[i] {
      assert s[|s| - |suffix|..] == suffix;
    }
    if |suffix| <= |s| && s == s[..|s| - |suffix|] + suffix {
      assert s[|s| - |suffix|..] == suffix;
    }
  }

  /** POSIX `os.path.join(dir, name)` for two components: an absolute `name`
      replaces `dir`, otherwise a single `/` separates them unless `dir` is
      empty or already ends in one. */
  function Join(dir: string, name: string): (r: string)
    ensures EndsWith(r, name)
  {
    if |name| > 0 && name[0] == '/' then name
    else if |dir| == 0 || dir[|dir| - 1] == '/' then
      assert (dir + name)[|dir + name| - |name|..] == name;
      dir + name
    else
      assert (dir + "/" + name)[|dir + "/" + name| - |name|..] == name;
      dir + "/" + name
  }

  /** `[x for m, x in zip(mask, s) if m]`: the elements of `s` whose flag is
      set, in order; like `zip`, it stops at the shorter of the two lists. */
  function Keep<T>(s: seq<T>, mask: seq<bool>): (r: seq<T>)
    ensures |r| <= |s| && |r| <= |mask|
    ensures forall x :: x in r ==> x in s
  {
    if |s| == 0 || |mask| == 0 then []
    else (if mask[0] then [s[0]] else []) + Keep(s[1..], mask[1..])
  }

  /** Every index of `idx` moved one place to the right. */
  function Shift(idx: seq<int>): (r: seq<int>)
    ensures |r| == |idx|
    ensures forall j :: 0 <= j < |idx| ==> r[j] == idx[j] + 1
  {
    seq(|idx|, j requires 0 <= j < |idx| => idx[j] + 1)
  }

  /** The positions below `n` whose flag is set, in increasing order. */
  function MarkedIndices(n: nat, mask: seq<bool>): seq<int>
  {
    if n == 0 || |mask| == 0 then []
    else (if mask[0] then [0] else []) + Shift(MarkedIndices(n - 1, mask[1..]))
  }

  /** `r` is the subsequence of `s` taken at the strictly increasing positions `idx`. */
  ghost predicate Picks<T>(r: seq<T>, s: seq<T>, idx: seq<int>)
  {
    && |idx| == |r|
    && (forall j :: 0 <= j < |idx| ==> 0 <= idx[j] < |s| && r[j] == s[idx[j]])
    && (forall j, k :: 0 <= j < k < |idx| ==> idx[j] < idx[k])
  }

  /** `r` is a subsequence of `s`: same elements, same relative order. */
  ghost predicate IsSubsequence<T>(r: seq<T>, s: seq<T>)
  {
    exists idx :: Picks(r, s, idx)
  }

  /** Every index in `idx` is strictly smaller than the next. */
  ghost predicate Increasing(idx: seq<int>)
  {
    forall j, k :: 0 <= j < k < |idx| ==> idx[j] < idx[k]
  }

  /** One step of `MarkedIndices`: position 0 if its flag is set, then the
      positions of the rest moved one to the right. */
  lemma MarkedUnfold(n: nat, mask: seq<bool>)
    requires n > 0 && |mask| > 0
    ensures MarkedIndices(n, mask) == (if mask[0] then [0] else []) + Shift(MarkedIndices(n - 1, mask[1..]))
  {
  }

  /** Shifting bounded, increasing, non-negative positions and putting 0 in
      front keeps them bounded (one higher) and increasing. */
  lemma ConsShift(tailIdx: seq<int>, keepHead: bool, n: int, m: int)
    requires n > 0 && m > 0
    requires forall x :: x in tailIdx ==> 0 <= x < n - 1 && x < m - 1
    requires Increasing(tailIdx)
    ensures var idx := (if keepHead then [0] else []) + Shift(tailIdx);
      && (forall x :: x in idx ==> 0 <= x < n && x < m)
      && Increasing(idx)
  {
    var headIdx := if keepHead then [0] else [];
    var idx := headIdx + Shift(tailIdx);
    var h := |headIdx|;
    forall x | x in idx
      ensures 0 <= x < n && x < m
    {
      if x !in headIdx {
        InShift(tailIdx, x);
      }
    }
    forall j, k | 0 <= j < k < |idx|
      ensures idx[j] < idx[k]
    {
      assert idx[k] == tailIdx[k - h] + 1;
      assert tailIdx[k - h] in tailIdx;
      if j >= h {
        assert idx[j] == tailIdx[j - h] + 1;
      } else {
        assert idx[j] == 0;
      }
    }
  }

  /** Marked positions lie below `n` and below the length of the mask, and come
      out strictly increasing. */
  lemma {:induction false} MarkedIndicesBounded(n: nat, mask: seq<bool>)
    ensures forall x :: x in MarkedIndices(n, mask) ==> 0 <= x < n && x < |mask|
    ensures Increasing(MarkedIndices(n, mask))
  {
    if n > 0 && |mask| > 0 {
      MarkedIndicesBounded(n - 1, mask[1..]);
      MarkedUnfold(n, mask);
      ConsShift(MarkedIndices(n - 1, mask[1..]), mask[0], n, |mask|);
    }
  }

  /** A position below `n` is marked exactly when its flag is set. */
  lemma {:induction false} MarkedIndicesExact(n: nat, mask: seq<bool>)
    ensures forall i :: 0 <= i < n && i < |mask| ==> (mask[i] <==> i in MarkedIndices(n, mask))
  {
    if n > 0 && |mask| > 0 {
      MarkedIndicesExact(n - 1, mask[1..]);
      MarkedIndicesBounded(n - 1, mask[1..]);
      MarkedUnfold(n, mask);
      forall i | 0 <= i < n && i < |mask|
        ensures mask[i] <==> i in MarkedIndices(n, mask)
      {
        MarkedExactStep(MarkedIndices(n - 1, mask[1..]), mask, i);
      }
    }
  }

  /** The step of `MarkedIndicesExact` for one position `i`: if the tail's
      marked positions are exactly its flagged ones, position `i` of the whole
      mask is marked exactly when its flag is set. */
  lemma MarkedExactStep(tailIdx: seq<int>, mask: seq<bool>, i: int)
    requires 0 <= i < |mask|
    requires forall x :: x in tailIdx ==> 0 <= x
    requires i > 0 ==> (mask[1..][i - 1] <==> i - 1 in tailIdx)
    ensures mask[i] <==> i in (if mask[0] then [0] else []) + Shift(tailIdx)
  {
    InShift(tailIdx, i);
    if i > 0 {
      assert mask[i] == mask[1..][i - 1];
    } else {
      assert -1 !in tailIdx;
    }
  }

  lemma InShift(idx: seq<int>, x: int)
    ensures x in Shift(idx) <==> x - 1 in idx
  {
    if x - 1 in idx {
      var t :| 0 <= t < |idx| && idx[t] == x - 1;
      assert Shift(idx)[t] == x;
    }
  }

  /** One step of `Keep`: the head is kept exactly when its flag is set. */
  lemma KeepUnfold<T>(s: seq<T>, mask: seq<bool>)
    requires |s| > 0 && |mask| > 0
    ensures Keep(s, mask) == (if mask[0] then [s[0]] else []) + Keep(s[1..], mask[1..])
    ensures MarkedIndices(|s|, mask) == (if mask[0] then [0] else []) + Shift(MarkedIndices(|s| - 1, mask[1..]))
  {
    MarkedUnfold(|s|, mask);
  }

  /** Prepending the head (or nothing) to a picked tail, with the tail's
      positions moved one to the right, picks from the whole list. */
  lemma PickConsAt<T>(s: seq<T>, tail: seq<T>, tailIdx: seq<int>, keepHead: bool)
    requires |s| > 0
    requires |tailIdx| == |tail|
    requires forall t :: 0 <= t < |tail| ==> 0 <= tailIdx[t] < |s| - 1 && tail[t] == s[1..][tailIdx[t]]
    ensures var r := (if keepHead then [s[0]] else []) + tail;
      var idx := (if keepHead then [0] else []) + Shift(tailIdx);
      |idx| == |r| && forall j :: 0 <= j < |r| ==> 0 <= idx[j] < |s| && r[j] == s[idx[j]]
  {
    var head: seq<T> := if keepHead then [s[0]] else [];
    var headIdx: seq<int> := if keepHead then [0] else [];
    var r := head + tail;
    var idx := headIdx + Shift(tailIdx);
    var h := |head|;
    forall j | 0 <= j < |r|
      ensures 0 <= idx[j] < |s| && r[j] == s[idx[j]]
    {
      if j < h {
        assert r[j] == s[0] && idx[j] == 0;
      } else {
        var t := j - h;
        assert r[j] == tail[t];
        assert idx[j] == Shift(tailIdx)[t] == tailIdx[t] + 1;
        assert s[1..][tailIdx[t]] == s[tailIdx[t] + 1];
      }
    }
  }

  /** `Keep` takes element `j` of its result from the `j`-th marked position. */
  lemma {:induction false} KeepAtMarked<T>(s: seq<T>, mask: seq<bool>)
    ensures |MarkedIndices(|s|, mask)| == |Keep(s, mask)|
    ensures forall j :: 0 <= j < |Keep(s, mask)| ==>
      0 <= MarkedIndices(|s|, mask)[j] < |s| && Keep(s, mask)[j] == s[MarkedIndices(|s|, mask)[j]]
  {
    if |s| > 0 && |mask| > 0 {
      KeepAtMarked(s[1..], mask[1..]);
      KeepUnfold(s, mask);
      PickConsAt(s, Keep(s[1..], mask[1..]), MarkedIndices(|s| - 1, mask[1..]), mask[0]);
    }
  }

  /** `Keep` returns exactly the elements at the flagged positions (within the
      common length of the two lists), in their original order. */
  lemma KeepPicksMarked<T>(s: seq<T>, mask: seq<bool>)
    ensures Picks(Keep(s, mask), s, MarkedIndices(|s|, mask))
    ensures forall x :: x in MarkedIndices(|s|, mask) ==> 0 <= x < |s| && x < |mask|
    ensures forall i :: 0 <= i < |s| && i < |mask| ==> (mask[i] <==> i in MarkedIndices(|s|, mask))
  {
    KeepAtMarked(s, mask);
    MarkedIndicesBounded(|s|, mask);
    MarkedIndicesExact(|s|, mask);
  }

  /** Hence the kept elements always form a subsequence of the input. */
  lemma KeepIsSubsequence<T>(s: seq<T>, mask: seq<bool>)
    ensures IsSubsequence(Keep(s, mask), s)
  {
    KeepPicksMarked(s, mask);
  }
}
