/** The podcast list page: the episode search, the play/pause state of the one episode
    that plays, the listener's notes and timestamps per episode, the guarded audio
    controls, and the text the page derives for timestamps and show-note links. */
module PodcastList {
  import opened Options
  import opened Text
  import opened Lists
  import PodcastPlayer

  /** An episode as the handlers see it (the other fields only feed the view). */
  datatype Podcast = Podcast(id: string, title: string, description: string, audioUrl: string, showNotes: seq<string>)

  // ---------------------------------------------------------------------------
  // Search

  predicate MatchesSearch(p: Podcast, query: string) {
    ContainsIgnoringCase(p.title, query) || ContainsIgnoringCase(p.description, query)
  }

  function SearchTest(query: string): Podcast -> bool {
    p => MatchesSearch(p, query)
  }

  /** `filteredPodcasts`. */
  function FilteredPodcasts(podcasts: seq<Podcast>, query: string): (r: seq<Podcast>)
    ensures forall p :: p in r <==> p in podcasts && MatchesSearch(p, query)
  {
    Filter(podcasts, SearchTest(query))
  }

  /** The search keeps the list's order, and the empty query keeps every episode. */
  lemma FilteredPodcastsSpec(podcasts: seq<Podcast>, query: string)
    ensures IsSubsequence(FilteredPodcasts(podcasts, query), podcasts)
    ensures query == "" ==> FilteredPodcasts(podcasts, query) == podcasts
  {
    FilterIsSubsequence(podcasts, SearchTest(query));
    if query == "" {
      forall p | p in podcasts
        ensures MatchesSearch(p, query)
      {
        EmptyQueryMatches(p.title);
      }
      FilterKeepsAll(podcasts, SearchTest(query));
    }
  }

  // ---------------------------------------------------------------------------
  // Derived text

  /** A saved timestamp as the page shows it: whole minutes, a colon, and the seconds
      left over padded to two characters. The label is the player page's clock for the
      same second, so it reads back as the time it shows. */
  function TimestampLabel(t: nat): (r: string)
    ensures r == PodcastPlayer.FormatTime(t)
    ensures PodcastPlayer.ParseClock(r) == Some(t)
  {
    PadIsTwoDigits(t % 60);
    NatToString(t / 60) + ":" + PadStart2(NatToString(t % 60))
  }

  lemma PadIsTwoDigits(n: nat)
    requires n < 60
    ensures PadStart2(NatToString(n)) == PodcastPlayer.TwoDigits(n)
  {
    var d := NatToString(n);
    if n < 10 {
      assert |d| == 1;
      assert PadStart2(d) == ['0'] + d;
    } else {
      assert |d| == 2;
      assert PodcastPlayer.TwoDigits(n) == d;
    }
  }

  const NoteSeparator: string := ": "

  /** `note.split(': ')[1]`: the text after the first separator, up to the next one.
      A link exists exactly when the note has a separator. */
  function ShowNoteLink(note: string): (r: Option<string>)
    ensures r.None? <==> !Contains(note, NoteSeparator)
    ensures r.Some? ==> exists i :: LinkAfter(note, i, r.value)
  {
    FindIffContains(note, NoteSeparator);
    match FindFrom(note, NoteSeparator, 0)
    case None => None
    case Some(i) =>
      var rest := note[i + |NoteSeparator|..];
      match FindFrom(rest, NoteSeparator, 0)
      case None => LinkToEnd(note, i); Some(rest)
      case Some(j) => LinkToNextSeparator(note, i, j); Some(rest[..j])
  }

  lemma NoSeparatorBefore(rest: string, j: nat)
    requires j <= |rest|
    requires forall k | 0 <= k < j :: !OccursAt(rest, NoteSeparator, k)
    ensures !Contains(rest[..j], NoteSeparator)
  {
    if Contains(rest[..j], NoteSeparator) {
      var k :| 0 <= k <= j - |NoteSeparator| && OccursAt(rest[..j], NoteSeparator, k);
      assert rest[..j][k..k + |NoteSeparator|] == rest[k..k + |NoteSeparator|];
      assert OccursAt(rest, NoteSeparator, k);
    }
  }

  /** `link` is what follows the first separator of `note`, at `i`: it holds no
      separator and runs to the end of the note or to the next separator. */
  predicate LinkAfter(note: string, i: int, link: string) {
    && OccursAt(note, NoteSeparator, i)
    && (forall k | 0 <= k < i :: !OccursAt(note, NoteSeparator, k))
    && StartsWith(note[i + 2..], link)
    && (i + 2 + |link| == |note| || OccursAt(note, NoteSeparator, i + 2 + |link|))
    && !Contains(link, NoteSeparator)
  }

  lemma LinkToEnd(note: string, i: nat)
    requires OccursAt(note, NoteSeparator, i)
    requires forall k | 0 <= k < i :: !OccursAt(note, NoteSeparator, k)
    requires FindFrom(note[i + 2..], NoteSeparator, 0).None?
    ensures LinkAfter(note, i, note[i + 2..])
  {
    var rest := note[i + 2..];
    NoSeparatorBefore(rest, |rest|);
    assert rest[..|rest|] == rest;
  }

  lemma LinkToNextSeparator(note: string, i: nat, j: nat)
    requires OccursAt(note, NoteSeparator, i)
    requires forall k | 0 <= k < i :: !OccursAt(note, NoteSeparator, k)
    requires FindFrom(note[i + 2..], NoteSeparator, 0) == Some(j)
    ensures LinkAfter(note, i, note[i + 2..][..j])
  {
    var rest := note[i + 2..];
    NoSeparatorBefore(rest, j);
    assert OccursAt(rest, NoteSeparator, j);
    assert rest[j] == note[i + 2 + j] && rest[j + 1] == note[i + 2 + j + 1];
    assert note[i + 2 + j..i + 2 + j + 2] == rest[j..j + 2];
  }

  /** A note written as a label without colons, the separator and an address without a
      separator links to that address. */
  lemma ShowNoteLinkOf(caption: string, url: string)
    requires ':' !in caption
    requires !Contains(url, NoteSeparator)
    ensures ShowNoteLink(caption + NoteSeparator + url) == Some(url)
  {
    var note := caption + NoteSeparator + url;
    var n := |caption|;
    assert note[n..n + 2] == NoteSeparator;
    assert OccursAt(note, NoteSeparator, n);
    var r := FindFrom(note, NoteSeparator, 0);
    assert r.Some?;
    var i := r.value;
    assert note[i] == note[i..i + 2][0] == ':';
    assert forall k | 0 <= k < n :: note[k] == caption[k] && caption[k] != ':';
    assert i == n;
    assert note[n + 2..] == url;
    FindIffContains(url, NoteSeparator);
  }

  // ---------------------------------------------------------------------------
  // Per-episode lists

  /** `{...prev, [key]: [...(prev[key] || []), x]}`. */
  function AppendAt<T>(m: map<string, seq<T>>, key: string, x: T): map<string, seq<T>> {
    m[key := (if key in m then m[key] else []) + [x]]
  }

  /** Adding puts the item at the end of that episode's list, creating the list when
      there is none, and leaves every other episode's list alone. */
  lemma AppendAtSpec<T>(m: map<string, seq<T>>, key: string, x: T)
    ensures var r := AppendAt(m, key, x);
      && r.Keys == m.Keys + {key}
      && r[key] == (if key in m then m[key] else []) + [x]
      && (forall k | k in m && k != key :: r[k] == m[k])
  {
  }

  // ---------------------------------------------------------------------------
  // State

  /** The fields of an audio element the page sets or reads. */
  class Audio {
    const url: string
    var paused: bool
    var volume: nat
    var muted: bool
    var playbackRate: nat
    var currentTime: nat

    constructor(url: string)
      ensures this.url == url && paused && volume == 10 && !muted && playbackRate == 100 && currentTime == 0
    {
      this.url := url;
      paused := true;
      volume := 10;
      muted := false;
      playbackRate := 100;
      currentTime := 0;
    }

    method Play()
      modifies this
      ensures !paused && unchanged(this`volume, this`muted, this`playbackRate, this`currentTime)
    {
      paused := false;
    }

    method Pause()
      modifies this
      ensures paused && unchanged(this`volume, this`muted, this`playbackRate, this`currentTime)
    {
      paused := true;
    }
  }

  /** The page's state; volume is in tenths and playback speed in hundredths. */
  class PodcastPage {
    var currentlyPlaying: Option<string>
    var audioElement: Audio?
    var volume: nat
    var playbackSpeed: nat
    var isMuted: bool
    var notes: map<string, seq<string>>
    var timestamps: map<string, seq<nat>>

    constructor()
      ensures currentlyPlaying == None && audioElement == null
      ensures volume == 10 && playbackSpeed == 100 && !isMuted
      ensures notes == map[] && timestamps == map[]
    {
      currentlyPlaying := None;
      audioElement := null;
      volume := 10;
      playbackSpeed := 100;
      isMuted := false;
      notes := map[];
      timestamps := map[];
    }

    /** `handlePlay`: the playing episode is paused and nothing plays; any other episode
        stops the one playing and starts on a new element. */
    method HandlePlay(podcastId: string, audioUrl: string)
      modifies this, audioElement
      ensures old(currentlyPlaying) == Some(podcastId) ==> currentlyPlaying == None && audioElement == null
      ensures old(currentlyPlaying) != Some(podcastId) ==>
        && currentlyPlaying == Some(podcastId)
        && audioElement != null && fresh(audioElement)
        && audioElement.url == audioUrl && !audioElement.paused
        && audioElement.volume == 10 && !audioElement.muted
        && audioElement.playbackRate == 100 && audioElement.currentTime == 0
      ensures old(audioElement) != null ==>
        && old(audioElement).paused
        && old(audioElement).volume == old(audioElement.volume)
        && old(audioElement).muted == old(audioElement.muted)
        && old(audioElement).playbackRate == old(audioElement.playbackRate)
        && old(audioElement).currentTime == old(audioElement.currentTime)
      ensures volume == old(volume) && playbackSpeed == old(playbackSpeed) && isMuted == old(isMuted)
      ensures notes == old(notes) && timestamps == old(timestamps)
    {
      if currentlyPlaying == Some(podcastId) {
        if audioElement != null {
          audioElement.Pause();
        }
        currentlyPlaying := None;
        audioElement := null;
      } else {
        if audioElement != null {
          audioElement.Pause();
        }
        var audio := new Audio(audioUrl);
        audio.Play();
        audioElement := audio;
        currentlyPlaying := Some(podcastId);
      }
    }

    /** The element's `onended`: nothing plays any more. */
    method HandleEnded()
      modifies this
      ensures currentlyPlaying == None && audioElement == null
      ensures volume == old(volume) && playbackSpeed == old(playbackSpeed) && isMuted == old(isMuted)
      ensures notes == old(notes) && timestamps == old(timestamps)
    {
      currentlyPlaying := None;
      audioElement := null;
    }

    method HandleVolumeChange(newVolume: nat)
      modifies this, audioElement
      ensures audioElement == old(audioElement)
      ensures old(audioElement) == null ==> unchanged(this)
      ensures old(audioElement) != null ==>
        && audioElement.volume == newVolume && volume == newVolume
        && unchanged(audioElement`paused, audioElement`muted, audioElement`playbackRate, audioElement`currentTime)
        && currentlyPlaying == old(currentlyPlaying) && playbackSpeed == old(playbackSpeed)
        && isMuted == old(isMuted) && notes == old(notes) && timestamps == old(timestamps)
    {
      if audioElement != null {
        audioElement.volume := newVolume;
        volume := newVolume;
      }
    }

    method HandleMuteToggle()
      modifies this, audioElement
      ensures audioElement == old(audioElement)
      ensures old(audioElement) == null ==> unchanged(this)
      ensures old(audioElement) != null ==>
        && isMuted == !old(isMuted) && audioElement.muted == isMuted
        && unchanged(audioElement`paused, audioElement`volume, audioElement`playbackRate, audioElement`currentTime)
        && currentlyPlaying == old(currentlyPlaying) && volume == old(volume)
        && playbackSpeed == old(playbackSpeed) && notes == old(notes) && timestamps == old(timestamps)
    {
      if audioElement != null {
        audioElement.muted := !isMuted;
        isMuted := !isMuted;
      }
    }

    method HandlePlaybackSpeedChange(speed: nat)
      modifies this, audioElement
      ensures audioElement == old(audioElement)
      ensures old(audioElement) == null ==> unchanged(this)
      ensures old(audioElement) != null ==>
        && audioElement.playbackRate == speed && playbackSpeed == speed
        && unchanged(audioElement`paused, audioElement`volume, audioElement`muted, audioElement`currentTime)
        && currentlyPlaying == old(currentlyPlaying) && volume == old(volume)
        && isMuted == old(isMuted) && notes == old(notes) && timestamps == old(timestamps)
    {
      if audioElement != null {
        audioElement.playbackRate := speed;
        playbackSpeed := speed;
      }
    }

    /** `handleAddNote`: needs no audio. */
    method HandleAddNote(podcastId: string, note: string)
      modifies this
      ensures notes == AppendAt(old(notes), podcastId, note)
      ensures currentlyPlaying == old(currentlyPlaying) && audioElement == old(audioElement)
      ensures volume == old(volume) && playbackSpeed == old(playbackSpeed) && isMuted == old(isMuted)
      ensures timestamps == old(timestamps)
    {
      notes := AppendAt(notes, podcastId, note);
    }

    /** `handleAddTimestamp`: records the element's time, and only when there is one. */
    method HandleAddTimestamp(podcastId: string)
      modifies this
      ensures old(audioElement) == null ==> unchanged(this)
      ensures old(audioElement) != null ==> timestamps == AppendAt(old(timestamps), podcastId, old(audioElement).currentTime)
      ensures currentlyPlaying == old(currentlyPlaying) && audioElement == old(audioElement)
      ensures volume == old(volume) && playbackSpeed == old(playbackSpeed) && isMuted == old(isMuted)
      ensures notes == old(notes)
    {
      if audioElement != null {
        timestamps := AppendAt(timestamps, podcastId, audioElement.currentTime);
      }
    }
  }
}
