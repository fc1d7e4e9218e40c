/** The new-post form: the post it builds from the form (read time and tags) and the
    stored post list the post is put at the front of. The clock and the formatted date
    are parameters. */
module BlogAdd {
  import opened Options
  import opened Text

  datatype Post = Post(
    id: nat,
    title: string,
    excerpt: string,
    content: string,
    author: string,
    date: string,
    readTime: string,
    tags: seq<string>,
    image: string)

  // ---------------------------------------------------------------------------
  // Read time

  /** `Math.max(1, Math.ceil(length / 1000))`. */
  function ReadMinutes(length: nat): nat {
    if length <= 1000 then 1 else (length + 999) / 1000
  }

  /** At least one minute, and otherwise one minute per started thousand characters. */
  lemma ReadMinutesSpec(length: nat)
    ensures ReadMinutes(length) >= 1
    ensures length <= 1000 ==> ReadMinutes(length) == 1
    ensures length > 1000 ==> 1000 * (ReadMinutes(length) - 1) < length <= 1000 * ReadMinutes(length)
  {
  }

  lemma ReadMinutesExamples()
    ensures ReadMinutes(0) == 1 && ReadMinutes(1000) == 1 && ReadMinutes(1001) == 2
  {
  }

  const MinRead: string := " min read"

  /** `readTime`: the minute count's digits followed by ` min read`, and the digits read
      back as that count. */
  function ReadTime(content: string): (t: string)
    ensures |t| > |MinRead| && EndsWith(t, MinRead)
    ensures ParseNat(t[..|t| - |MinRead|]) == Some(ReadMinutes(|content|))
  {
    var digits := NatToString(ReadMinutes(|content|));
    ParseNatToString(ReadMinutes(|content|));
    assert (digits + MinRead)[..|digits|] == digits;
    digits + MinRead
  }

  // ---------------------------------------------------------------------------
  // Tags

  /** `tags.split(",").map((tag) => tag.trim())`. */
  function ParseTags(tags: string): (r: seq<string>)
    ensures |r| == |Split(tags, ',')|
    ensures forall k | 0 <= k < |r| :: r[k] == Trim(Split(tags, ',')[k])
  {
    var pieces := Split(tags, ',');
    seq(|pieces|, k requires 0 <= k < |pieces| => Trim(pieces[k]))
  }

  /** One tag per comma plus one, none with blank at either end, and a blank piece
      giving the empty tag. */
  lemma ParseTagsSpec(tags: string)
    ensures var r := ParseTags(tags);
      && |r| == CountChar(tags, ',') + 1
      && (forall k | 0 <= k < |r| && r[k] != [] :: !IsSpace(r[k][0]) && !IsSpace(r[k][|r[k]| - 1]))
      && (forall k | 0 <= k < |r| :: r[k] == [] <==> AllSpace(Split(tags, ',')[k]))
  {
    var r := ParseTags(tags);
    forall k | 0 <= k < |r|
      ensures r[k] != [] ==> !IsSpace(r[k][0]) && !IsSpace(r[k][|r[k]| - 1])
      ensures r[k] == [] <==> AllSpace(Split(tags, ',')[k])
    {
      TrimSpec(Split(tags, ',')[k]);
    }
  }

  /** Tags typed without blanks around the commas are the pieces between the commas. */
  lemma ParseTagsOfTrimmed(tags: string)
    requires forall k | 0 <= k < |tags| :: !IsSpace(tags[k])
    ensures Join(ParseTags(tags), ",") == tags
  {
    var pieces := Split(tags, ',');
    forall k | 0 <= k < |pieces|
      ensures Trim(pieces[k]) == pieces[k]
    {
      NoBlankTrim(pieces[k], tags, k);
    }
    assert ParseTags(tags) == pieces;
    JoinSplit(tags, ',');
  }

  lemma NoBlankTrim(piece: string, tags: string, k: nat)
    requires forall i | 0 <= i < |tags| :: !IsSpace(tags[i])
    requires k < |Split(tags, ',')| && piece == Split(tags, ',')[k]
    ensures Trim(piece) == piece
  {
    SplitPieceChars(tags, ',', k);
    if piece != [] {
      var last := |piece| - 1;
      assert piece[0] in piece && piece[last] in piece;
      var i :| 0 <= i < |tags| && tags[i] == piece[0];
      var j :| 0 <= j < |tags| && tags[j] == piece[last];
      assert !IsSpace(piece[0]) && !IsSpace(piece[last]);
      assert !AllSpace(piece);
      TrimBounds(piece);
      assert LeadingSpaces(piece) == 0;
      assert TrailingStart(piece) == |piece|;
      assert piece[0..|piece|] == piece;
    }
  }

  /** Every character of a piece is a character of the text. */
  lemma {:induction false} SplitPieceChars(s: string, c: char, k: nat)
    requires k < |Split(s, c)|
    ensures forall x | x in Split(s, c)[k] :: x in s
    decreases |s|
  {
    if s != [] {
      var rest := Split(s[1..], c);
      if s[0] == c {
        if k > 0 {
          SplitPieceChars(s[1..], c, k - 1);
          assert Split(s, c)[k] == rest[k - 1];
        }
      } else if k == 0 {
        SplitPieceChars(s[1..], c, 0);
        assert Split(s, c)[0] == [s[0]] + rest[0];
      } else {
        SplitPieceChars(s[1..], c, k);
        assert Split(s, c)[k] == rest[k];
      }
    }
  }

  // ---------------------------------------------------------------------------
  // The post and the stored list

  datatype Form = Form(title: string, excerpt: string, content: string, author: string, tags: string, imageUrl: string)

  /** `newPost`: the id is the clock's milliseconds and the date its formatted day. */
  function NewPost(form: Form, now: nat, date: string): (p: Post)
    ensures p.tags == ParseTags(form.tags)
    ensures p.readTime == ReadTime(form.content)
  {
    Post(now, form.title, form.excerpt, form.content, form.author, date,
         ReadTime(form.content), ParseTags(form.tags), form.imageUrl)
  }

  /** The text fields are the form's, as typed. */
  lemma NewPostCopiesForm(form: Form, now: nat, date: string)
    ensures var p := NewPost(form, now, date);
      && p.title == form.title && p.excerpt == form.excerpt && p.content == form.content
      && p.author == form.author && p.image == form.imageUrl && p.id == now && p.date == date
  {
  }

  /** The `blogPosts` list kept in the browser's storage. */
  class BlogStore {
    var posts: seq<Post>

    constructor(posts: seq<Post>)
      ensures this.posts == posts
    {
      this.posts := posts;
    }

    /** `[newPost, ...existingPosts]`. */
    method Prepend(post: Post)
      modifies this
      ensures posts == [post] + old(posts)
      ensures |posts| == |old(posts)| + 1 && posts[0] == post && posts[1..] == old(posts)
    {
      posts := [post] + posts;
    }
  }

  class AddBlogForm {
    var form: Form
    var isSubmitting: bool
    const store: BlogStore

    constructor(store: BlogStore)
      ensures form == Form("", "", "", "", "", "/placeholder.svg?height=400&width=600")
      ensures !isSubmitting && this.store == store
    {
      form := Form("", "", "", "", "", "/placeholder.svg?height=400&width=600");
      isSubmitting := false;
      this.store := store;
    }

    /** `handleSubmit`: the form is marked as submitting and the post it builds goes to
        the front of the stored list. */
    method HandleSubmit(now: nat, date: string)
      modifies this, store
      ensures isSubmitting && form == old(form)
      ensures store.posts == [NewPost(form, now, date)] + old(store.posts)
    {
      isSubmitting := true;
      var post := NewPost(form, now, date);
      store.Prepend(post);
    }
  }
}
