/** The preview's playback controller: which verse is active, whether the recitation
    plays, and how far the current verse's audio has got. The media elements'
    events and the user's buttons drive it through named transitions. */
module VideoPreview {
  import opened Types

  /** The three state variables the transitions update. `progress` is a percentage. */
  datatype Playback = Playback(isPlaying: bool, index: nat, progress: real)

  /** The active index is a position of the list of `count` verses, or 0 when the list is empty. */
  predicate IndexValid(index: nat, count: nat) {
    if count == 0 then index == 0 else index < count
  }

  /** State on mount and after every change of verse list or reciter. */
  const Initial := Playback(false, 0, 0.0)

  /** The recitation of the active verse finished: move on, or stop at the start after the last one. */
  function Ended(p: Playback, count: nat): (q: Playback)
    ensures IndexValid(p.index, count) ==> IndexValid(q.index, count)
    ensures q.isPlaying ==> p.isPlaying
    ensures q.progress == p.progress
  {
    if p.index < count - 1 then p.(index := p.index + 1)
    else p.(isPlaying := false, index := 0)
  }

  /** The audio reports its position; `duration` None is an unknown (NaN) duration. */
  function TimeUpdate(p: Playback, currentTime: real, duration: Option<real>): (q: Playback)
    ensures q.isPlaying == p.isPlaying && q.index == p.index
    ensures duration.Some? && duration.value != 0.0 ==> q.progress * duration.value == currentTime * 100.0
    ensures duration.None? || duration.value == 0.0 ==> q.progress == p.progress
  {
    if duration.Some? && duration.value != 0.0 then p.(progress := (currentTime / duration.value) * 100.0)
    else p
  }

  /** The play/pause button: disabled for an empty list, and without effect while no audio element is mounted. */
  function Toggle(p: Playback, count: nat, audioMounted: bool): (q: Playback)
    ensures q.index == p.index && q.progress == p.progress
    ensures q.isPlaying != p.isPlaying <==> count > 0 && audioMounted
  {
    if count > 0 && audioMounted then p.(isPlaying := !p.isPlaying) else p
  }

  /** The restart button: back to the first verse, paused; the progress bar is left as it is. */
  function Restart(p: Playback): (q: Playback)
    ensures q.(progress := Initial.progress) == Initial
    ensures q.progress == p.progress
  {
    p.(isPlaying := false, index := 0)
  }

  /** Play state of the background video after the sync effect: it follows the playing
      flag while a video background is mounted, and is left alone otherwise. */
  function SyncBackgroundVideo(videoPlaying: bool, isPlaying: bool, bgType: BackgroundType, videoMounted: bool): (playing: bool)
    ensures bgType == Video && videoMounted ==> playing == isPlaying
    ensures bgType != Video || !videoMounted ==> playing == videoPlaying
  {
    if bgType == Video && videoMounted then isPlaying else videoPlaying
  }

  /** The position classes of the channel logo. */
  function GetLogoClass(pos: string): (cls: string)
    ensures pos !in {"top-left", "top-right", "bottom-left", "bottom-right"} ==> cls == "top-6 right-6"
  {
    match pos
    case "top-left" => "top-6 left-6"
    case "top-right" => "top-6 right-6"
    case "bottom-left" => "bottom-20 left-6"
    case "bottom-right" => "bottom-20 right-6"
    case _ => "top-6 right-6"
  }

  /** Each of the four positions gets its own classes. */
  lemma LogoClassDistinct(p: LogoPosition, q: LogoPosition)
    ensures p != q ==> GetLogoClass(p.Key()) != GetLogoClass(q.Key())
  {
  }

  /** The bottom positions sit `bottom-20` (above the progress bar) and the top ones
      `top-6`; the left positions sit `left-6` and the right ones `right-6`. */
  lemma LogoClassPlacement(p: LogoPosition)
    ensures var cls := GetLogoClass(p.Key());
      && |cls| >= 12
      && (cls[..9] == "bottom-20" <==> p.BottomLeft? || p.BottomRight?)
      && (cls[..5] == "top-6" <==> p.TopLeft? || p.TopRight?)
      && (cls[|cls| - 6..] == "left-6" <==> p.TopLeft? || p.BottomLeft?)
      && (cls[|cls| - 7..] == "right-6" <==> p.TopRight? || p.BottomRight?)
  {
    var cls := GetLogoClass(p.Key());
    match p
    case TopLeft =>
      assert cls == "top-6 left-6";
      assert cls[..9] == "top-6 lef" && cls[..5] == "top-6";
      assert cls[|cls| - 6..] == "left-6" && cls[|cls| - 7..] == " left-6";
    case TopRight =>
      assert cls == "top-6 right-6";
      assert cls[..9] == "top-6 rig" && cls[..5] == "top-6";
      assert cls[|cls| - 6..] == "ight-6" && cls[|cls| - 7..] == "right-6";
    case BottomLeft =>
      assert cls == "bottom-20 left-6";
      assert cls[..9] == "bottom-20" && cls[..5] == "botto";
      assert cls[|cls| - 6..] == "left-6" && cls[|cls| - 7..] == " left-6";
    case BottomRight =>
      assert cls == "bottom-20 right-6";
      assert cls[..9] == "bottom-20" && cls[..5] == "botto";
      assert cls[|cls| - 6..] == "ight-6" && cls[|cls| - 7..] == "right-6";
  }

  /** Applying `k` ended events in a row. */
  function EndedTimes(p: Playback, count: nat, k: nat): Playback
    decreases k
  {
    if k == 0 then p else EndedTimes(Ended(p, count), count, k - 1)
  }

  /** Before the last verse an ended event advances by one and keeps playing as it was. */
  lemma EndedAdvances(p: Playback, count: nat)
    requires p.index < count - 1
    ensures Ended(p, count) == Playback(p.isPlaying, p.index + 1, p.progress)
  {
  }

  /** After the last verse an ended event stops at the first verse. */
  lemma EndedWraps(p: Playback, count: nat)
    requires count >= 1 && p.index == count - 1
    ensures Ended(p, count) == Playback(false, 0, p.progress)
  {
  }

  /** Every transition keeps the active index a valid position. */
  lemma TransitionsKeepIndexValid(p: Playback, count: nat, currentTime: real, duration: Option<real>, audioMounted: bool)
    requires IndexValid(p.index, count)
    ensures IndexValid(Ended(p, count).index, count)
    ensures IndexValid(TimeUpdate(p, currentTime, duration).index, count)
    ensures IndexValid(Toggle(p, count, audioMounted).index, count)
    ensures IndexValid(Restart(p).index, count)
    ensures IndexValid(Initial.index, count)
  {
  }

  /** Any number of ended events keeps the active index valid. */
  lemma {:induction false} EndedTimesKeepsIndexValid(p: Playback, count: nat, k: nat)
    requires IndexValid(p.index, count)
    ensures IndexValid(EndedTimes(p, count, k).index, count)
    decreases k
  {
    if k > 0 {
      EndedTimesKeepsIndexValid(Ended(p, count), count, k - 1);
    }
  }

  /** While verses remain, `k` ended events advance the index by `k` and do not pause. */
  lemma {:induction false} EndedTimesAdvance(p: Playback, count: nat, k: nat)
    requires p.index + k < count
    ensures EndedTimes(p, count, k) == p.(index := p.index + k)
    decreases k
  {
    if k > 0 {
      EndedTimesAdvance(Ended(p, count), count, k - 1);
    }
  }

  /** `a + b` ended events are `a` of them followed by `b` more. */
  lemma {:induction false} EndedTimesSplit(p: Playback, count: nat, a: nat, b: nat)
    ensures EndedTimes(p, count, a + b) == EndedTimes(EndedTimes(p, count, a), count, b)
    decreases a
  {
    if a > 0 {
      EndedTimesSplit(Ended(p, count), count, a - 1, b);
    }
  }

  /** From the first verse, exactly `count` ended events bring the preview back to the
      first verse, paused; every shorter run is still on a later verse, playing as before. */
  lemma EndedCycle(p: Playback, count: nat)
    requires count >= 1 && p.index == 0
    ensures EndedTimes(p, count, count) == p.(isPlaying := false)
    ensures forall k :: 0 < k < count ==> EndedTimes(p, count, k) == p.(index := k)
  {
    EndedTimesSplit(p, count, count - 1, 1);
    EndedTimesAdvance(p, count, count - 1);
    forall k | 0 < k < count ensures EndedTimes(p, count, k) == p.(index := k) {
      EndedTimesAdvance(p, count, k);
    }
  }

  /** A time update with a known, non-zero duration sets the progress to the elapsed
      percentage; otherwise it changes nothing. Only the progress ever changes. */
  lemma TimeUpdateProgress(p: Playback, currentTime: real, duration: Option<real>)
    ensures var q := TimeUpdate(p, currentTime, duration);
      && q.(progress := p.progress) == p
      && (duration.Some? && duration.value != 0.0 ==> q.progress * duration.value == currentTime * 100.0)
      && (duration.None? || duration.value == 0.0 ==> q == p)
  {
  }

  /** While the position lies within the duration, the progress lies within 0 .. 100,
      and it reaches 100 exactly at the end. */
  lemma TimeUpdateBounds(p: Playback, currentTime: real, duration: real)
    requires 0.0 < duration && 0.0 <= currentTime <= duration
    ensures var q := TimeUpdate(p, currentTime, Some(duration));
      0.0 <= q.progress <= 100.0 && (q.progress == 100.0 <==> currentTime == duration)
  {
    var f := currentTime / duration;
    assert f * duration == currentTime;
    assert 0.0 <= f <= 1.0;
  }

  /** The toggle flips the playing flag when it can act, and two toggles cancel out. */
  lemma ToggleFlips(p: Playback, count: nat, audioMounted: bool)
    ensures count > 0 && audioMounted ==> Toggle(p, count, audioMounted) == p.(isPlaying := !p.isPlaying)
    ensures count == 0 || !audioMounted ==> Toggle(p, count, audioMounted) == p
    ensures Toggle(Toggle(p, count, audioMounted), count, audioMounted) == p
  {
  }

  /** Restart is the reset except for the progress bar, which it keeps. */
  lemma RestartIsResetKeepingProgress(p: Playback)
    ensures Restart(p) == Initial.(progress := p.progress)
    ensures Restart(Restart(p)) == Restart(p)
  {
  }

  /** The component: its playback state, the length of the verse list it shows, and the
      play state of the background video element. */
  class Player {
    var isPlaying: bool
    var currentAyahIndex: nat
    var progress: real
    var ayahCount: nat
    var backgroundVideoPlaying: bool

    function State(): Playback
      reads this
    {
      Playback(isPlaying, currentAyahIndex, progress)
    }

    ghost predicate Valid()
      reads this
    {
      IndexValid(currentAyahIndex, ayahCount)
    }

    /** Mounted with an empty verse list. */
    constructor ()
      ensures Valid() && State() == Initial && ayahCount == 0 && !backgroundVideoPlaying
    {
      isPlaying, currentAyahIndex, progress := false, 0, 0.0;
      ayahCount := 0;
      backgroundVideoPlaying := false;
    }

    /** The reset effect, run when a new verse list of `newCount` verses arrives or the reciter changes. */
    method Reset(newCount: nat)
      modifies this
      ensures Valid() && State() == Initial && ayahCount == newCount
      ensures backgroundVideoPlaying == old(backgroundVideoPlaying)
    {
      ayahCount := newCount;
      isPlaying := false;
      currentAyahIndex := 0;
      progress := 0.0;
    }

    /** The audio element's `ended` event. */
    method HandleEnded()
      requires Valid()
      modifies this
      ensures Valid() && State() == Ended(old(State()), ayahCount)
      ensures ayahCount == old(ayahCount) && backgroundVideoPlaying == old(backgroundVideoPlaying)
    {
      if currentAyahIndex < ayahCount - 1 {
        currentAyahIndex := currentAyahIndex + 1;
      } else {
        isPlaying := false;
        currentAyahIndex := 0;
      }
    }

    /** The audio element's `timeupdate` event. */
    method HandleTimeUpdate(currentTime: real, duration: Option<real>)
      requires Valid()
      modifies this
      ensures Valid() && State() == TimeUpdate(old(State()), currentTime, duration)
      ensures ayahCount == old(ayahCount) && backgroundVideoPlaying == old(backgroundVideoPlaying)
    {
      if duration.Some? && duration.value != 0.0 {
        progress := (currentTime / duration.value) * 100.0;
      }
    }

    /** A click on the play/pause button. */
    method TogglePlay(audioMounted: bool)
      requires Valid()
      modifies this
      ensures Valid() && State() == Toggle(old(State()), ayahCount, audioMounted)
      ensures ayahCount == old(ayahCount) && backgroundVideoPlaying == old(backgroundVideoPlaying)
    {
      if ayahCount > 0 && audioMounted {
        isPlaying := !isPlaying;
      }
    }

    /** A click on the restart button. */
    method RestartPlayback()
      requires Valid()
      modifies this
      ensures Valid() && State() == Restart(old(State()))
      ensures ayahCount == old(ayahCount) && backgroundVideoPlaying == old(backgroundVideoPlaying)
    {
      isPlaying := false;
      currentAyahIndex := 0;
    }

    /** The background sync effect, run after the playing flag or the background changed. */
    method SyncBackground(bgType: BackgroundType, videoMounted: bool)
      requires Valid()
      modifies this`backgroundVideoPlaying
      ensures Valid()
      ensures backgroundVideoPlaying == SyncBackgroundVideo(old(backgroundVideoPlaying), isPlaying, bgType, videoMounted)
    {
      if bgType == Video && videoMounted {
        backgroundVideoPlaying := isPlaying;
      }
    }
  }
}
