/** The verse-list builder behind `fetchAyahsWithAudio`: the text edition and the
    reciter's audio edition of one chapter are zipped by position, and the result
    is cut down to the requested range of verse numbers. The two HTTP responses
    are inputs; `None` stands for a response without usable data. */
module QuranService {
  import opened Types

  /** The verse lies in the requested range of verse numbers. */
  predicate InRange(a: Ayah, start: int, end: int) {
    a.numberInSurah >= start && a.numberInSurah <= end
  }

  /** The audio reference position `i` receives: `audioAyahs[i]?.audio || ''`. */
  function AudioAt(audioAyahs: seq<Ayah>, i: nat): (url: string)
    ensures i < |audioAyahs| && audioAyahs[i].audio.Some? ==> url == audioAyahs[i].audio.value
    ensures i >= |audioAyahs| || audioAyahs[i].audio.None? ==> url == ""
  {
    if i < |audioAyahs| then
      match audioAyahs[i].audio
      case Some(url) => url
      case None => ""
    else ""
  }

  /** The text verses, each carrying the audio reference of the audio verse at the same position. */
  function Merge(textAyahs: seq<Ayah>, audioAyahs: seq<Ayah>): (merged: seq<Ayah>)
    ensures |merged| == |textAyahs|
    ensures forall i :: 0 <= i < |merged| ==> merged[i].(audio := textAyahs[i].audio) == textAyahs[i]
    ensures forall i :: 0 <= i < |merged| && i < |audioAyahs| && audioAyahs[i].audio.Some? ==>
      merged[i].audio == audioAyahs[i].audio
    ensures forall i :: 0 <= i < |merged| && (i >= |audioAyahs| || audioAyahs[i].audio.None?) ==>
      merged[i].audio == Some("")
  {
    seq(|textAyahs|, i requires 0 <= i < |textAyahs| => textAyahs[i].(audio := Some(AudioAt(audioAyahs, i))))
  }

  /** The verses whose number lies in [start, end], in their original order. */
  function FilterRange(xs: seq<Ayah>, start: int, end: int): (r: seq<Ayah>)
    ensures |r| <= |xs|
    ensures forall a :: a in r ==> a in xs && InRange(a, start, end)
  {
    if xs == [] then []
    else if InRange(xs[0], start, end) then [xs[0]] + FilterRange(xs[1..], start, end)
    else FilterRange(xs[1..], start, end)
  }

  /** The whole builder once both responses are in. */
  function FetchAyahsWithAudio(textAyahs: Option<seq<Ayah>>, audioAyahs: Option<seq<Ayah>>, start: int, end: int): (r: seq<Ayah>)
    ensures textAyahs.None? || audioAyahs.None? ==> r == []
    ensures textAyahs.Some? ==> |r| <= |textAyahs.value|
    ensures forall a :: a in r ==> InRange(a, start, end) && a.audio.Some?
  {
    if textAyahs.None? || audioAyahs.None? then []
    else FilterRange(Merge(textAyahs.value, audioAyahs.value), start, end)
  }

  /** Every verse in range is kept: with the contract of FilterRange, membership is an equivalence. */
  lemma {:induction false} FilterRangeKeeps(xs: seq<Ayah>, start: int, end: int, a: Ayah)
    requires a in xs && InRange(a, start, end)
    ensures a in FilterRange(xs, start, end)
  {
    if xs[0] != a {
      FilterRangeKeeps(xs[1..], start, end, a);
    }
  }

  /** Filtering distributes over concatenation, so relative order is preserved. */
  lemma {:induction false} FilterRangeAppend(xs: seq<Ayah>, ys: seq<Ayah>, start: int, end: int)
    ensures FilterRange(xs + ys, start, end) == FilterRange(xs, start, end) + FilterRange(ys, start, end)
  {
    if xs == [] {
      assert xs + ys == ys;
    } else {
      assert (xs + ys)[1..] == xs[1..] + ys;
      FilterRangeAppend(xs[1..], ys, start, end);
    }
  }

  /** Nothing in range: nothing returned. */
  lemma {:induction false} FilterRangeNone(xs: seq<Ayah>, start: int, end: int)
    requires forall i :: 0 <= i < |xs| ==> !InRange(xs[i], start, end)
    ensures FilterRange(xs, start, end) == []
  {
    if xs != [] {
      FilterRangeNone(xs[1..], start, end);
    }
  }

  /** Everything in range: the list comes back unchanged. */
  lemma {:induction false} FilterRangeAll(xs: seq<Ayah>, start: int, end: int)
    requires forall i :: 0 <= i < |xs| ==> InRange(xs[i], start, end)
    ensures FilterRange(xs, start, end) == xs
  {
    if xs != [] {
      FilterRangeAll(xs[1..], start, end);
      assert [xs[0]] + xs[1..] == xs;
    }
  }

  /** An inverted range selects nothing. */
  lemma FilterRangeInverted(xs: seq<Ayah>, start: int, end: int)
    requires start > end
    ensures FilterRange(xs, start, end) == []
  {
    FilterRangeNone(xs, start, end);
  }

  /** For a chapter whose verses are numbered consecutively from `first`, the range
      [start, end] selects exactly the slice of positions start - first .. end - first. */
  lemma FilterRangeConsecutive(xs: seq<Ayah>, first: int, start: int, end: int)
    requires forall i :: 0 <= i < |xs| ==> xs[i].numberInSurah == first + i
    requires first <= start <= end + 1 && end < first + |xs|
    ensures FilterRange(xs, start, end) == xs[start - first .. end - first + 1]
  {
    var lo, hi := start - first, end - first + 1;
    var below, inside, above := xs[..lo], xs[lo..hi], xs[hi..];
    assert xs == below + inside + above;
    FilterRangeNone(below, start, end);
    FilterRangeAll(inside, start, end);
    FilterRangeNone(above, start, end);
    FilterRangeAppend(below + inside, above, start, end);
    FilterRangeAppend(below, inside, start, end);
  }

  /** A seven-verse chapter and the range [2, 4] give the verses numbered 2, 3 and 4. */
  lemma SevenVersesTwoToFour(xs: seq<Ayah>)
    requires |xs| == 7
    requires forall i :: 0 <= i < |xs| ==> xs[i].numberInSurah == i + 1
    ensures var r := FilterRange(xs, 2, 4);
      |r| == 3 && r[0].numberInSurah == 2 && r[1].numberInSurah == 3 && r[2].numberInSurah == 4
  {
    FilterRangeConsecutive(xs, 1, 2, 4);
  }

  /** With both editions present, a verse is returned exactly when it is the merge of
      some text verse with the audio at its position and its number is in range. */
  lemma FetchMembership(textAyahs: seq<Ayah>, audioAyahs: seq<Ayah>, start: int, end: int, a: Ayah)
    ensures a in FetchAyahsWithAudio(Some(textAyahs), Some(audioAyahs), start, end) <==>
      (exists i :: 0 <= i < |textAyahs| && a == textAyahs[i].(audio := Some(AudioAt(audioAyahs, i)))) && InRange(a, start, end)
  {
    var merged := Merge(textAyahs, audioAyahs);
    if a in merged && InRange(a, start, end) {
      FilterRangeKeeps(merged, start, end, a);
    }
    if a in merged {
      var i :| 0 <= i < |merged| && merged[i] == a;
      assert a == textAyahs[i].(audio := Some(AudioAt(audioAyahs, i)));
    }
    if exists i :: 0 <= i < |textAyahs| && a == textAyahs[i].(audio := Some(AudioAt(audioAyahs, i))) {
      var i :| 0 <= i < |textAyahs| && a == textAyahs[i].(audio := Some(AudioAt(audioAyahs, i)));
      assert merged[i] == a;
    }
  }

  /** For a chapter numbered 1..n and a range inside it, the k-th returned verse is the
      text verse numbered start + k carrying the audio verse at the same position. */
  lemma FetchConsecutive(textAyahs: seq<Ayah>, audioAyahs: seq<Ayah>, start: int, end: int)
    requires forall i :: 0 <= i < |textAyahs| ==> textAyahs[i].numberInSurah == i + 1
    requires 1 <= start <= end + 1 && end <= |textAyahs|
    ensures var r := FetchAyahsWithAudio(Some(textAyahs), Some(audioAyahs), start, end);
      && |r| == end - start + 1
      && forall k :: 0 <= k < |r| ==>
           && r[k].(audio := textAyahs[start - 1 + k].audio) == textAyahs[start - 1 + k]
           && r[k].audio == Some(AudioAt(audioAyahs, start - 1 + k))
  {
    var merged := Merge(textAyahs, audioAyahs);
    forall i | 0 <= i < |merged| ensures merged[i].numberInSurah == i + 1 {
      assert merged[i].numberInSurah == merged[i].(audio := textAyahs[i].audio).numberInSurah;
    }
    FilterRangeConsecutive(merged, 1, start, end);
    var r := merged[start - 1 .. end];
    forall k | 0 <= k < |r|
      ensures r[k].(audio := textAyahs[start - 1 + k].audio) == textAyahs[start - 1 + k]
      ensures r[k].audio == Some(AudioAt(audioAyahs, start - 1 + k))
    {
      assert r[k] == merged[start - 1 + k];
    }
  }
}
