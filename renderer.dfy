/** The state update of `setOffset` (js/index.js:103-116): the scroll position
    of the list and the `active` marker on its items. The list is reduced to one
    flag per item (does it carry the `active` class?) and the amount of its
    `translateY` transform. */
module Renderer {
  import opened Wrappers
  import opened Lyrics
  import opened Locator

  /** `index * liHeight + liHeight / 2`: the distance from the top of the list
      to the middle of line `index` when every line is `liHeight` high, that is
      the midpoint of the band `[index * h, (index + 1) * h]` the line occupies. */
  function Offset(index: int, liHeight: nat): (r: real)
    ensures index as real * liHeight as real <= r <= (index + 1) as real * liHeight as real
    ensures r - index as real * liHeight as real == (index + 1) as real * liHeight as real - r
  {
    index as real * liHeight as real + liHeight as real / 2.0
  }

  /** Before the first line the offset is minus half a line. */
  lemma OffsetBeforeFirst(liHeight: nat)
    ensures Offset(-1, liHeight) == -(liHeight as real) / 2.0
  {
  }

  /** For the answers `findIndex` gives (never below -1), the offset is negative
      exactly before the first line, and then only when lines have a height. */
  lemma OffsetNegative(index: int, liHeight: nat)
    requires index >= -1
    ensures Offset(index, liHeight) < 0.0 <==> index == -1 && liHeight > 0
  {
    if index >= 0 {
      assert index as real * liHeight as real >= 0.0;
    }
  }

  /** With a positive line height a later line always lies further down. */
  lemma OffsetStrictlyIncreasing(i: int, j: int, liHeight: nat)
    requires liHeight > 0 && i < j
    ensures Offset(i, liHeight) < Offset(j, liHeight)
  {
    var h := liHeight as real;
    assert Offset(j, liHeight) - Offset(i, liHeight) == (j - i) as real * h;
    assert (j - i) as real >= 1.0;
    assert (j - i) as real * h >= h by {
      assert ((j - i) as real - 1.0) * h >= 0.0;
    }
  }

  /** The translation the list has after `style.transform = translateY(-${offset}px)`.
      The number is printed with its own sign, so a negative offset gives
      `translateY(--…px)`, which is not a CSS length: the assignment is then
      ignored and the list keeps its `previous` translation. Otherwise the list
      moves up by `offset`. */
  function AppliedTranslation(previous: real, offset: real): (t: real)
    ensures offset >= 0.0 ==> t == -offset
    ensures offset < 0.0 ==> t == previous
  {
    if offset >= 0.0 then -offset else previous
  }

  /** From the first line on, the list is moved so that the current line's
      middle is at its top, whatever its translation was before. */
  lemma TranslationFromFirstLine(previous: real, index: int, liHeight: nat)
    requires index >= 0
    ensures AppliedTranslation(previous, Offset(index, liHeight)) == -Offset(index, liHeight)
  {
    OffsetNegative(index, liHeight);
  }

  /** Before the first line, with lines that have a height, the list stays
      where it was. */
  lemma TranslationBeforeFirst(previous: real, liHeight: nat)
    requires liHeight > 0
    ensures AppliedTranslation(previous, Offset(-1, liHeight)) == previous
  {
    OffsetNegative(-1, liHeight);
  }

  /** Seeking back from line 3 into the intro (10-pixel lines) leaves the list
      35 pixels up, further up than line 0 itself would put it. */
  lemma StaleScrollAfterSeekBack()
    ensures AppliedTranslation(AppliedTranslation(0.0, Offset(3, 10)), Offset(-1, 10)) == -35.0
    ensures AppliedTranslation(0.0, Offset(0, 10)) == -5.0
  {
    TranslationFromFirstLine(0.0, 3, 10);
    TranslationBeforeFirst(-35.0, 10);
    TranslationFromFirstLine(0.0, 0, 10);
  }

  /** The translation evidently meant: the list moved up by the offset, also
      when the offset is negative (the intro then sits below the top). */
  function IntendedTranslation(offset: real): (t: real)
    ensures t + offset == 0.0
  {
    -offset
  }

  /** With the intended translation, the list moves up strictly as the line
      advances, from the intro (-1) on, whatever was shown before. */
  lemma IntendedTranslationDecreasing(i: int, j: int, liHeight: nat)
    requires liHeight > 0 && -1 <= i < j
    ensures IntendedTranslation(Offset(j, liHeight)) < IntendedTranslation(Offset(i, liHeight))
  {
    OffsetStrictlyIncreasing(i, j, liHeight);
  }

  /** `querySelector(".active")`: the first item that carries the marker. */
  function FirstMarked(flags: seq<bool>): (r: Option<nat>)
    ensures r.Some? ==> r.value < |flags| && flags[r.value]
    ensures r.Some? ==> forall k :: 0 <= k < r.value ==> !flags[k]
    ensures r.None? ==> forall k :: 0 <= k < |flags| ==> !flags[k]
    decreases |flags|
  {
    if flags == [] then None
    else if flags[0] then Some(0)
    else match FirstMarked(flags[1..])
      case None => None
      case Some(k) => Some(k + 1)
  }

  /** The update of the markers: unmark the first marked item, if any, then
      mark item `index` if there is such an item. */
  function Highlight(flags: seq<bool>, index: int): (r: seq<bool>)
    ensures |r| == |flags|
    ensures 0 <= index < |r| ==> r[index]
    ensures forall k :: 0 <= k < |r| && k != index && FirstMarked(flags) != Some(k) ==> r[k] == flags[k]
    ensures FirstMarked(flags).Some? && FirstMarked(flags).value != index ==> !r[FirstMarked(flags).value]
  {
    var cleared := match FirstMarked(flags)
      case None => flags
      case Some(k) => flags[k := false];
    if 0 <= index < |cleared| then cleared[index := true] else cleared
  }

  /** At most one item is marked: the invariant the list keeps. */
  predicate AtMostOneMarked(flags: seq<bool>)
  {
    forall i, j :: 0 <= i < |flags| && 0 <= j < |flags| && flags[i] && flags[j] ==> i == j
  }

  /** From a list with at most one marker, the update leaves exactly item
      `index` marked, or no item when `index` is out of range. */
  lemma HighlightMarksExactly(flags: seq<bool>, index: int)
    requires AtMostOneMarked(flags)
    ensures forall k :: 0 <= k < |flags| ==> (Highlight(flags, index)[k] <==> k == index)
  {
    var r := Highlight(flags, index);
    forall k | 0 <= k < |flags|
      ensures r[k] <==> k == index
    {
      if k != index && flags[k] {
        assert FirstMarked(flags) == Some(k);
      }
    }
  }

  /** The update keeps the invariant. */
  lemma HighlightKeepsAtMostOne(flags: seq<bool>, index: int)
    requires AtMostOneMarked(flags)
    ensures AtMostOneMarked(Highlight(flags, index))
  {
    HighlightMarksExactly(flags, index);
  }

  /** Repeating the update for the same line changes nothing. */
  lemma HighlightIdempotent(flags: seq<bool>, index: int)
    requires AtMostOneMarked(flags)
    ensures Highlight(Highlight(flags, index), index) == Highlight(flags, index)
  {
    var once := Highlight(flags, index);
    HighlightMarksExactly(flags, index);
    HighlightKeepsAtMostOne(flags, index);
    HighlightMarksExactly(once, index);
    var twice := Highlight(once, index);
    assert forall k :: 0 <= k < |twice| ==> twice[k] == once[k];
  }

  /** Only the first marker is removed: from two markers, the second survives.
      The invariant is what rules this case out. */
  lemma HighlightTwoMarkers()
    ensures Highlight([true, true, false], 2) == [false, true, true]
  {
    assert FirstMarked([true, true, false]) == Some(0);
  }

  /** The rendered list: one `active` flag per `<li>` and the `translateY`
      amount of the `<ul>` in pixels (negative is up). */
  class LyricList {
    var active: array<bool>
    var translation: real

    ghost predicate Valid()
      reads this, active
    {
      AtMostOneMarked(active[..])
    }

    /** One unmarked item per record, as `createLyrics` appends them; no transform yet. */
    constructor (lyrics: seq<Lyric>)
      ensures Valid() && fresh(active)
      ensures active.Length == |lyrics|
      ensures forall k :: 0 <= k < active.Length ==> !active[k]
      ensures translation == 0.0
    {
      active := new bool[|lyrics|](_ => false);
      translation := 0.0;
    }

    /** One `timeupdate`: locate the line for `currentTime`, move the list so
        that line's middle is at the top, and move the marker to it. */
    method SetOffset(lyrics: seq<Lyric>, liHeight: nat, currentTime: real)
      requires Valid()
      modifies this, active
      ensures Valid() && active == old(active)
      ensures translation == AppliedTranslation(old(translation), Offset(ActiveIndex(lyrics, currentTime), liHeight))
      ensures ActiveIndex(lyrics, currentTime) >= 0 ==> translation == -Offset(ActiveIndex(lyrics, currentTime), liHeight)
      ensures ActiveIndex(lyrics, currentTime) == -1 && liHeight > 0 ==> translation == old(translation)
      ensures active[..] == Highlight(old(active[..]), ActiveIndex(lyrics, currentTime))
      ensures forall k :: 0 <= k < active.Length ==> (active[k] <==> k == ActiveIndex(lyrics, currentTime))
    {
      var index := FindIndex(lyrics, currentTime);
      var offset := Offset(index, liHeight);
      translation := AppliedTranslation(translation, offset);
      var currentLine := FirstMarked(active[..]);
      if currentLine.Some? {
        active[currentLine.value] := false;
      }
      if 0 <= index < active.Length {
        active[index] := true;
      }
      OffsetNegative(index, liHeight);
      HighlightMarksExactly(old(active[..]), index);
      HighlightKeepsAtMostOne(old(active[..]), index);
    }
  }
}
