/** The video gallery: the tag list, the search and tag filter, the tag selection and
    the embed address of the open video. */
module Videos {
  import opened Options
  import opened Text
  import opened Lists

  /** A video as the filter sees it (thumbnail and duration only feed the view). */
  datatype Video = Video(id: string, title: string, description: string, videoUrl: string, tags: seq<string>)

  // ---------------------------------------------------------------------------
  // Tags

  function TagLists(videos: seq<Video>): (r: seq<seq<string>>)
    ensures |r| == |videos| && forall k | 0 <= k < |videos| :: r[k] == videos[k].tags
  {
    seq(|videos|, k requires 0 <= k < |videos| => videos[k].tags)
  }

  /** `Array.from(new Set(videos.flatMap(video => video.tags)))`: each tag of some video,
      once, in the order tags first appear. */
  function AllTags(videos: seq<Video>): (r: seq<string>)
    ensures forall t :: t in r <==> exists k | 0 <= k < |videos| :: t in videos[k].tags
    ensures forall t :: t in r <==> t in Flatten(TagLists(videos))
    ensures forall i, j | 0 <= i < j < |r| :: r[i] != r[j]
    ensures forall i, j | 0 <= i < j < |r| ::
      FirstIndex(Flatten(TagLists(videos)), r[i]) < FirstIndex(Flatten(TagLists(videos)), r[j])
  {
    DistinctOrdered(Flatten(TagLists(videos)));
    Distinct(Flatten(TagLists(videos)))
  }

  // ---------------------------------------------------------------------------
  // The filter

  predicate MatchesSearch(v: Video, query: string) {
    ContainsIgnoringCase(v.title, query) || ContainsIgnoringCase(v.description, query)
  }

  /** Every selected tag is one of the video's tags; no selection passes every video. */
  predicate MatchesTags(v: Video, selected: seq<string>) {
    |selected| == 0 || forall k | 0 <= k < |selected| :: selected[k] in v.tags
  }

  predicate Keep(v: Video, query: string, selected: seq<string>) {
    MatchesSearch(v, query) && MatchesTags(v, selected)
  }

  function KeepTest(query: string, selected: seq<string>): Video -> bool {
    v => Keep(v, query, selected)
  }

  /** `filteredVideos`. */
  function FilteredVideos(videos: seq<Video>, query: string, selected: seq<string>): (r: seq<Video>)
    ensures forall v :: v in r <==> v in videos && Keep(v, query, selected)
  {
    Filter(videos, KeepTest(query, selected))
  }

  /** The gallery's order is kept, and an empty search with no tag selected shows every
      video. */
  lemma FilteredVideosSpec(videos: seq<Video>, query: string, selected: seq<string>)
    ensures IsSubsequence(FilteredVideos(videos, query, selected), videos)
    ensures forall v :: MatchesTags(v, [])
    ensures FilteredVideos(videos, "", []) == videos
  {
    FilterIsSubsequence(videos, KeepTest(query, selected));
    forall v | v in videos
      ensures Keep(v, "", [])
    {
      EmptyQueryMatches(v.title);
    }
    FilterKeepsAll(videos, KeepTest("", []));
  }

  /** Selecting one more tag never brings a video back: the new list is drawn from the
      old one, in its order. */
  lemma MoreTagsFewerVideos(videos: seq<Video>, query: string, selected: seq<string>, tag: string)
    ensures IsSubsequence(FilteredVideos(videos, query, selected + [tag]), FilteredVideos(videos, query, selected))
    ensures |FilteredVideos(videos, query, selected + [tag])| <= |FilteredVideos(videos, query, selected)|
  {
    var strong, weak := KeepTest(query, selected + [tag]), KeepTest(query, selected);
    forall v | strong(v)
      ensures weak(v)
    {
      if |selected| > 0 {
        forall k | 0 <= k < |selected|
          ensures selected[k] in v.tags
        {
          assert (selected + [tag])[k] == selected[k];
        }
      }
    }
    FilterMonotone(videos, strong, weak);
    SubsequenceLength(FilteredVideos(videos, query, selected + [tag]), FilteredVideos(videos, query, selected));
  }

  /** `toggleTag`: flips whether the tag is selected and no other tag's; a selected tag
      is dropped with the rest kept in order, an unselected one goes to the end. */
  function ToggleTag(selected: seq<string>, tag: string): (r: seq<string>)
    ensures tag in r <==> tag !in selected
    ensures forall t | t != tag :: t in r <==> t in selected
    ensures tag in selected ==> IsSubsequence(r, selected)
    ensures tag in selected ==> forall t :: t != tag ==> multiset(r)[t] == multiset(selected)[t]
    ensures tag !in selected ==> r == selected + [tag]
  {
    Toggle(selected, tag)
  }

  /** Toggling an unselected tag twice restores the selection. */
  lemma ToggleTagTwice(selected: seq<string>, tag: string)
    requires tag !in selected
    ensures ToggleTag(ToggleTag(selected, tag), tag) == selected
  {
    ToggleTwice(selected, tag);
  }

  // ---------------------------------------------------------------------------
  // The player

  const WatchPath: string := "watch?v="
  const EmbedPath: string := "embed/"

  /** `videoUrl.replace("watch?v=", "embed/")`: an address without `watch?v=` is kept;
      otherwise its first `watch?v=` becomes `embed/`, two characters shorter. */
  function EmbedUrl(videoUrl: string): (r: string)
    ensures !Contains(videoUrl, WatchPath) ==> r == videoUrl
    ensures Contains(videoUrl, WatchPath) ==>
      && |r| + 2 == |videoUrl|
      && exists i | 0 <= i <= |videoUrl| - |WatchPath| ::
        && OccursAt(videoUrl, WatchPath, i)
        && (forall j | 0 <= j < i :: !OccursAt(videoUrl, WatchPath, j))
        && r == videoUrl[..i] + EmbedPath + videoUrl[i + |WatchPath|..]
  {
    ReplaceFirst(videoUrl, WatchPath, EmbedPath)
  }

  /** An address of the form `base` + `watch?v=` + `id`, with no `?` in `base`, becomes
      `base` + `embed/` + `id`. */
  lemma EmbedUrlOf(base: string, id: string)
    requires '?' !in base
    ensures EmbedUrl(base + WatchPath + id) == base + EmbedPath + id
  {
    var s := base + WatchPath + id;
    var n := |base|;
    assert s[n..n + 8] == WatchPath;
    assert OccursAt(s, WatchPath, n);
    var r := FindFrom(s, WatchPath, 0);
    assert r.Some?;
    var i := r.value;
    assert s[i + 5] == s[i..i + 8][5] == '?';
    assert forall k | 0 <= k < n :: s[k] == base[k] && base[k] != '?';
    assert forall k | n <= k < n + 5 :: s[k] == WatchPath[k - n];
    assert i == n;
    assert s[..n] == base && s[n + 8..] == id;
    FindIffContains(s, WatchPath);
  }
}
