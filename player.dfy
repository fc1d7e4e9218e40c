/** The podcast player page: the `m:ss` clock, the lookup of the chapter timestamp that is
    playing, the simulated one-second tick, and the handlers that drive the audio
    element. Times are whole seconds; the volume is a whole number of steps. */
module PodcastPlayer {
  import opened Options
  import opened Text

  // ---------------------------------------------------------------------------
  // The clock

  /** The seconds of a minute as two digits: a `0` in front below ten. */
  function TwoDigits(n: nat): string {
    (if n < 10 then "0" else "") + NatToString(n)
  }


  /** Seconds below a minute always take exactly two digits, whose value they are. */
  lemma TwoDigitsSpec(n: nat)
    requires n < 60
    ensures |TwoDigits(n)| == 2 && AllDigits(TwoDigits(n))
    ensures ParseNat(TwoDigits(n)) == Some(n)
  {
    var s := TwoDigits(n);
    ParseNatToString(n);
    if n < 10 {
      assert s == ['0', DigitChar(n)];
      assert s[..|s| - 1] == "0";
      assert "0"[..|"0"| - 1] == "";
      assert DigitsValue(s) == DigitValue(DigitChar(n));
    } else {
      assert s == NatToString(n);
    }
  }

  /** A clock reading `m:ss` read back into seconds; anything else is not a reading. */
  function ParseClock(t: string): Option<nat> {
    var parts := Split(t, ':');
    if |parts| != 2 || |parts[1]| != 2 then None
    else
      var m, s := ParseNat(parts[0]), ParseNat(parts[1]);
      if m.Some? && s.Some? && s.value < 60 then Some(60 * m.value + s.value) else None
  }

  lemma DigitsHaveNoColon(s: string)
    requires AllDigits(s)
    ensures ':' !in s
  {
    assert forall k | 0 <= k < |s| :: s[k] != ':';
  }

  /** Two runs of digits with a colon between split back into the two runs. */
  lemma ClockParts(m: string, ss: string)
    requires AllDigits(m) && AllDigits(ss)
    ensures Split(m + ":" + ss, ':') == [m, ss]
  {
    DigitsHaveNoColon(m);
    DigitsHaveNoColon(ss);
    SplitAtSeparator(m, ':', ss);
    SplitNoSeparator(ss, ':');
    assert m + ":" + ss == m + [':'] + ss;
  }

  lemma ParseClockOf(minutes: nat, secs: nat, total: nat)
    requires secs < 60 && total == 60 * minutes + secs
    ensures Split(NatToString(minutes) + ":" + TwoDigits(secs), ':') == [NatToString(minutes), TwoDigits(secs)]
    ensures ParseClock(NatToString(minutes) + ":" + TwoDigits(secs)) == Some(total)
  {
    TwoDigitsSpec(secs);
    ClockParts(NatToString(minutes), TwoDigits(secs));
    ParseNatToString(minutes);
  }

  /** `formatTime(seconds)`: whole minutes, a colon, and the seconds left over. The clock
      splits into the minutes and the two-digit seconds, and reading it back gives the
      seconds it shows. */
  function FormatTime(seconds: nat): (r: string)
    ensures Split(r, ':') == [NatToString(seconds / 60), TwoDigits(seconds % 60)]
    ensures ParseClock(r) == Some(seconds)
  {
    ParseClockOf(seconds / 60, seconds % 60, seconds);
    NatToString(seconds / 60) + ":" + TwoDigits(seconds % 60)
  }

  /** The readings the page's comments give for 120, 600 and 2730 seconds. */
  lemma FormatTimeExamples()
    ensures FormatTime(120) == "2:00"
    ensures FormatTime(600) == "10:00"
    ensures FormatTime(2730) == "45:30"
  {
    assert NatToString(0) == "0";
    assert NatToString(2) == "2";
    assert NatToString(1) == "1";
    assert NatToString(10) == "10";
    assert NatToString(4) == "4";
    assert NatToString(45) == "45";
    assert NatToString(3) == "3";
    assert NatToString(30) == "30";
  }

  // ---------------------------------------------------------------------------
  // Chapters

  /** A chapter mark of the episode. */
  datatype Timestamp = Timestamp(id: string, time: nat, title: string, description: string)

  /** The reversed-list `find` of `handleTimeUpdate`: the index of the last chapter, in
      list order, that starts at or before `now`. */
  function ActiveIndex(ts: seq<Timestamp>, now: nat): (r: Option<nat>)
    ensures r.Some? ==> r.value < |ts| && ts[r.value].time <= now
    ensures r.Some? ==> forall j | r.value < j < |ts| :: ts[j].time > now
    ensures r.None? ==> forall j | 0 <= j < |ts| :: ts[j].time > now
    decreases |ts|
  {
    if ts == [] then None
    else if ts[|ts| - 1].time <= now then Some(|ts| - 1)
    else ActiveIndex(ts[..|ts| - 1], now)
  }

  function ActiveTimestamp(ts: seq<Timestamp>, now: nat): Option<Timestamp> {
    match ActiveIndex(ts, now)
    case Some(k) => Some(ts[k])
    case None => None
  }

  // ---------------------------------------------------------------------------
  // Time arithmetic

  /** The length of the simulated episode (28:32). */
  const EpisodeLength: nat := 1712

  /** `skipForward`: ten seconds on, never past the end. */
  function Forward(t: int, duration: int): (r: int)
    ensures r <= duration && r <= t + 10
    ensures r == t + 10 || r == duration
  {
    if t + 10 <= duration then t + 10 else duration
  }

  /** `skipBackward`: ten seconds back, never before the start. */
  function Backward(t: int): (r: int)
    ensures r >= 0 && r >= t - 10
    ensures r == t - 10 || r == 0
  {
    if t - 10 >= 0 then t - 10 else 0
  }

  /** A time within the episode stays within it when skipped either way. */
  lemma SkipsStayInside(t: int, duration: int)
    requires 0 <= t <= duration
    ensures 0 <= Forward(t, duration) <= duration
    ensures 0 <= Backward(t) <= duration
  {
  }

  /** One tick of the simulated playback: one second on, back to 0 at the end. */
  function NextTime(t: nat): (r: nat)
    ensures r < EpisodeLength
    ensures t + 1 < EpisodeLength ==> r == t + 1
    ensures t + 1 >= EpisodeLength ==> r == 0
  {
    if t + 1 >= EpisodeLength then 0 else t + 1
  }

  // ---------------------------------------------------------------------------
  // State

  /** The fields of the audio element the page sets or reads. */
  class AudioElement {
    var currentTime: nat
    var duration: nat
    var volume: nat
    var muted: bool
    var paused: bool

    constructor(duration: nat, volume: nat)
      ensures this.duration == duration && this.volume == volume
      ensures currentTime == 0 && !muted && paused
    {
      this.duration := duration;
      this.volume := volume;
      currentTime := 0;
      muted := false;
      paused := true;
    }
  }

  class Player {
    const timestamps: seq<Timestamp>
    var isPlaying: bool
    var currentTime: nat
    var duration: int
    var volume: nat
    var isMuted: bool
    var activeTimestamp: Option<Timestamp>
    /** `audioRef.current`: null until the element is created. */
    var audio: AudioElement?

    /** The state the page starts in, with the full volume of `fullVolume` steps. */
    constructor(timestamps: seq<Timestamp>, audio: AudioElement?, fullVolume: nat)
      ensures this.timestamps == timestamps && this.audio == audio
      ensures !isPlaying && currentTime == 0 && duration == 0 && volume == fullVolume
      ensures !isMuted && activeTimestamp == None
    {
      this.timestamps := timestamps;
      this.audio := audio;
      isPlaying := false;
      currentTime := 0;
      duration := 0;
      volume := fullVolume;
      isMuted := false;
      activeTimestamp := None;
    }

    /** `togglePlayPause`: pauses or plays the element and flips `isPlaying`. */
    method TogglePlayPause()
      modifies this, audio
      ensures audio == old(audio)
      ensures old(audio) == null ==> unchanged(this)
      ensures old(audio) != null ==>
        && isPlaying == !old(isPlaying)
        && audio.paused == old(isPlaying)
        && unchanged(audio`currentTime, audio`duration, audio`volume, audio`muted)
        && currentTime == old(currentTime) && duration == old(duration) && volume == old(volume)
        && isMuted == old(isMuted) && activeTimestamp == old(activeTimestamp)
    {
      if audio != null {
        audio.paused := isPlaying;
        isPlaying := !isPlaying;
      }
    }

    /** `handleTimeUpdate`: the shown time follows the element, and the active chapter is
        looked up for it. */
    method HandleTimeUpdate()
      modifies this
      ensures audio == old(audio)
      ensures old(audio) == null ==> unchanged(this)
      ensures old(audio) != null ==>
        && currentTime == audio.currentTime
        && activeTimestamp == ActiveTimestamp(timestamps, audio.currentTime)
        && isPlaying == old(isPlaying) && duration == old(duration) && volume == old(volume)
        && isMuted == old(isMuted)
    {
      if audio != null {
        currentTime := audio.currentTime;
        activeTimestamp := ActiveTimestamp(timestamps, audio.currentTime);
      }
    }

    /** `handleLoadedMetadata`. */
    method HandleLoadedMetadata()
      modifies this
      ensures audio == old(audio)
      ensures old(audio) == null ==> unchanged(this)
      ensures old(audio) != null ==>
        && duration == audio.duration
        && isPlaying == old(isPlaying) && currentTime == old(currentTime) && volume == old(volume)
        && isMuted == old(isMuted) && activeTimestamp == old(activeTimestamp)
    {
      if audio != null {
        duration := audio.duration;
      }
    }

    /** `handleSeek` and `jumpToTimestamp`: the element and the shown time move to `t`. */
    method Seek(t: nat)
      modifies this, audio
      ensures audio == old(audio)
      ensures old(audio) == null ==> unchanged(this)
      ensures old(audio) != null ==>
        && audio.currentTime == t && currentTime == t
        && unchanged(audio`duration, audio`volume, audio`muted, audio`paused)
        && isPlaying == old(isPlaying) && duration == old(duration) && volume == old(volume)
        && isMuted == old(isMuted) && activeTimestamp == old(activeTimestamp)
    {
      if audio != null {
        audio.currentTime := t;
        currentTime := t;
      }
    }

    /** `handleVolumeChange`: the volume is set and the player is muted exactly at 0. */
    method HandleVolumeChange(newVolume: nat)
      modifies this, audio
      ensures audio == old(audio)
      ensures old(audio) == null ==> unchanged(this)
      ensures old(audio) != null ==>
        && audio.volume == newVolume && volume == newVolume
        && isMuted == (newVolume == 0)
        && unchanged(audio`currentTime, audio`duration, audio`muted, audio`paused)
        && isPlaying == old(isPlaying) && currentTime == old(currentTime) && duration == old(duration)
        && activeTimestamp == old(activeTimestamp)
    {
      if audio != null {
        audio.volume := newVolume;
        volume := newVolume;
        isMuted := newVolume == 0;
      }
    }

    /** `toggleMute`: flips the mute flag on the element and on the page. */
    method ToggleMute()
      modifies this, audio
      ensures audio == old(audio)
      ensures old(audio) == null ==> unchanged(this)
      ensures old(audio) != null ==>
        && isMuted == !old(isMuted) && audio.muted == isMuted
        && unchanged(audio`currentTime, audio`duration, audio`volume, audio`paused)
        && isPlaying == old(isPlaying) && currentTime == old(currentTime) && duration == old(duration)
        && volume == old(volume) && activeTimestamp == old(activeTimestamp)
    {
      if audio != null {
        var newMuted := !isMuted;
        audio.muted := newMuted;
        isMuted := newMuted;
      }
    }

    /** `skipForward`: only the element's time moves; the page follows on its next
        time update. */
    method SkipForward()
      modifies audio
      ensures audio != null ==>
        && audio.currentTime == Forward(old(audio.currentTime), audio.duration)
        && unchanged(audio`duration, audio`volume, audio`muted, audio`paused)
    {
      if audio != null {
        audio.currentTime := Forward(audio.currentTime, audio.duration);
      }
    }

    method SkipBackward()
      modifies audio
      ensures audio != null ==>
        && audio.currentTime == Backward(old(audio.currentTime))
        && unchanged(audio`duration, audio`volume, audio`muted, audio`paused)
    {
      if audio != null {
        audio.currentTime := Backward(audio.currentTime);
      }
    }

    /** The interval callback: one second on; at the end of the episode the time goes back
        to 0 and playback stops. The shown time is always within the episode afterwards. */
    method Tick()
      modifies this
      ensures currentTime == NextTime(old(currentTime)) && currentTime < EpisodeLength
      ensures isPlaying == (old(isPlaying) && old(currentTime) + 1 < EpisodeLength)
      ensures duration == old(duration) && volume == old(volume) && isMuted == old(isMuted)
      ensures activeTimestamp == old(activeTimestamp) && audio == old(audio)
    {
      var newTime := currentTime + 1;
      if newTime >= EpisodeLength {
        isPlaying := false;
        currentTime := 0;
      } else {
        currentTime := newTime;
      }
    }
  }
}
