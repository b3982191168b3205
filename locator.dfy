/** `findIndex` (js/index.js:45-53): which lyric line is current at a given
    playback time. The playback position is a parameter rather than a read of
    the audio element. */
module Locator {
  import opened Wrappers
  import opened Numbers
  import opened Lyrics

  /** The first record whose time lies strictly after `t`, or the length when
      there is none. A NaN time never lies after `t`. */
  function FirstAfter(lyrics: seq<Lyric>, t: real): (k: nat)
    ensures k <= |lyrics|
    ensures forall j :: 0 <= j < k ==> !Less(t, lyrics[j].time)
    ensures k < |lyrics| ==> Less(t, lyrics[k].time)
    decreases |lyrics|
  {
    if lyrics == [] || Less(t, lyrics[0].time) then 0
    else 1 + FirstAfter(lyrics[1..], t)
  }

  /** The index `findIndex` answers: the one before the first record after `t`. */
  function ActiveIndex(lyrics: seq<Lyric>, t: real): (r: int)
    ensures -1 <= r < |lyrics|
  {
    FirstAfter(lyrics, t) - 1
  }

  /** The scan itself: the first `i` with `currentTime < lyrics[i].time` gives
      `i - 1`; a scan that finds none gives the last index. */
  method FindIndex(lyrics: seq<Lyric>, currentTime: real) returns (index: int)
    ensures -1 <= index < |lyrics|
    ensures forall j :: 0 <= j <= index ==> !Less(currentTime, lyrics[j].time)
    ensures index + 1 < |lyrics| ==> Less(currentTime, lyrics[index + 1].time)
    ensures index == ActiveIndex(lyrics, currentTime)
  {
    for i := 0 to |lyrics|
      invariant forall j :: 0 <= j < i ==> !Less(currentTime, lyrics[j].time)
    {
      if Less(currentTime, lyrics[i].time) {
        return i - 1;
      }
    }
    return |lyrics| - 1;
  }

  /** Times that are all numbers and never decrease, as a well-formed lyrics file has. */
  predicate Sorted(lyrics: seq<Lyric>)
  {
    (forall i :: 0 <= i < |lyrics| ==> lyrics[i].time.Val?) &&
    (forall i, j :: 0 <= i < j < |lyrics| ==> lyrics[i].time.v <= lyrics[j].time.v)
  }

  /** On sorted records the answer is the floor search: exactly the indices up
      to the answer have a time at or before `t`. */
  lemma ActiveIndexIsFloor(lyrics: seq<Lyric>, t: real)
    requires Sorted(lyrics)
    ensures forall j :: 0 <= j < |lyrics| ==>
      (j <= ActiveIndex(lyrics, t) <==> lyrics[j].time.v <= t)
  {
    var r := ActiveIndex(lyrics, t);
    forall j | 0 <= j < |lyrics|
      ensures j <= r <==> lyrics[j].time.v <= t
    {
      if j > r {
        assert lyrics[r + 1].time.v <= lyrics[j].time.v;
      }
    }
  }

  /** Before the first cue the answer is -1, "before the first line". */
  lemma ActiveIndexBeforeFirst(lyrics: seq<Lyric>, t: real)
    requires |lyrics| > 0 && Less(t, lyrics[0].time)
    ensures ActiveIndex(lyrics, t) == -1
  {
  }

  /** When no record's time lies after `t`, the answer is the last index. */
  lemma ActiveIndexPastLast(lyrics: seq<Lyric>, t: real)
    requires forall j :: 0 <= j < |lyrics| ==> !Less(t, lyrics[j].time)
    ensures ActiveIndex(lyrics, t) == |lyrics| - 1
  {
  }

  /** For any records, sorted or not, a later time never gives an earlier line. */
  lemma ActiveIndexMonotone(lyrics: seq<Lyric>, t1: real, t2: real)
    requires t1 <= t2
    ensures ActiveIndex(lyrics, t1) <= ActiveIndex(lyrics, t2)
  {
    var k2 := FirstAfter(lyrics, t2);
    if k2 < |lyrics| {
      assert Less(t1, lyrics[k2].time);
    }
  }

  /** Three lines, at 0, 5 and 10 seconds. */
  const ThreeLines: seq<Lyric> := [Lyric(Val(0.0), Some("a")), Lyric(Val(5.0), Some("b")), Lyric(Val(10.0), Some("c"))]

  /** The three lines looked up at 0, 4.9, 5 and 12 seconds. */
  lemma ActiveIndexExample()
    ensures ActiveIndex(ThreeLines, 0.0) == 0
    ensures ActiveIndex(ThreeLines, 4.9) == 0
    ensures ActiveIndex(ThreeLines, 5.0) == 1
    ensures ActiveIndex(ThreeLines, 12.0) == 2
  {
    assert ThreeLines[1..][1..] == ThreeLines[2..];
    assert FirstAfter(ThreeLines[2..], 5.0) == 0;
    assert FirstAfter(ThreeLines[1..], 0.0) == 0;
  }
}
