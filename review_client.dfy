/** What the feed review page (client/client.js) shows from the feed and the
    client's draft: the grid and the two walls, and the review panel listing
    the posts the client reacted to. The page's draft handlers are the ones
    of `DraftMirror`. */
module ReviewClient {
  import opened Options
  import opened JsIds
  import Seqs
  import opened Feedback
  import opened EditorMedia
  import opened DraftMirror

  predicate IsWallPost(p: Post) {
    !IsReel(p)
  }

  /** `posts.filter(p => p.type !== 'reel')`: the post wall. */
  function PostWall(posts: seq<Post>): (r: seq<Post>)
    ensures forall j :: 0 <= j < |r| ==> r[j] in posts && r[j].kind != "reel"
    ensures forall j :: 0 <= j < |posts| && posts[j].kind != "reel" ==> posts[j] in r
  {
    Seqs.Filter(posts, IsWallPost)
  }

  /** An entry the client liked or commented on. */
  predicate HasFeedback(pf: PostFeedback) {
    pf.liked || |pf.comments| > 0
  }

  /** `postsWithFeedback`. */
  function WithFeedback(entries: seq<PostFeedback>): (r: seq<PostFeedback>)
    ensures forall j :: 0 <= j < |r| ==> r[j] in entries && HasFeedback(r[j])
    ensures forall j :: 0 <= j < |entries| && HasFeedback(entries[j]) ==> entries[j] in r
  {
    Seqs.Filter(entries, HasFeedback)
  }

  /** `state.posts.find(p => p.id === postFeedback.postId)`. */
  function FeedPostFor(feed: seq<Post>, postId: JsId): (r: Option<Post>)
    ensures r.Some? <==> exists j :: 0 <= j < |feed| && Str(feed[j].id) == postId
    ensures r.Some? ==> r.value in feed && Str(r.value.id) == postId
  {
    Seqs.Find(feed, (p: Post) => Str(p.id) == postId)
  }

  /** The entries `renderReviewPanel` draws: those with feedback, in draft
      order, less those whose post is no longer in the feed. */
  function ReviewEntries(entries: seq<PostFeedback>, feed: seq<Post>): (r: seq<PostFeedback>)
    ensures forall j :: 0 <= j < |r| ==> r[j] in entries && HasFeedback(r[j]) && FeedPostFor(feed, r[j].postId).Some?
    ensures forall j :: 0 <= j < |entries| && HasFeedback(entries[j]) && FeedPostFor(feed, entries[j].postId).Some? ==>
              entries[j] in r
  {
    var shown := WithFeedback(entries);
    Seqs.Filter(shown, (pf: PostFeedback) => FeedPostFor(feed, pf.postId).Some?)
  }

  /** The panel says there is nothing to review: no overall comment and no
      entry with feedback, whether or not its post still exists. */
  predicate ShowsEmptyNotice(d: ClientDraft) {
    d.gridComment == "" && |WithFeedback(d.posts)| == 0
  }

  // ---- properties ----

  /** The two walls split the feed: every post is on exactly one, and
      together they hold as many posts as the feed. */
  lemma {:induction false} WallsSplitFeed(posts: seq<Post>)
    ensures |PostWall(posts)| + |Reels(posts)| == |posts|
    ensures forall j :: 0 <= j < |posts| ==> (posts[j] in PostWall(posts) <==> posts[j] !in Reels(posts))
    decreases |posts|
  {
    if posts != [] {
      WallsSplitFeed(posts[1..]);
    }
  }

  /** Off the grid tab the grid holds the reel wall, which is exactly what
      the post wall leaves out of the grid tab's posts. */
  lemma ReelTabComplementsPostWall(posts: seq<Post>, tab: string)
    requires tab != "grid"
    ensures GridPosts(posts, tab) == Reels(posts)
    ensures |PostWall(posts)| + |GridPosts(posts, tab)| == |GridPosts(posts, "grid")|
    ensures forall j :: 0 <= j < |posts| ==> (posts[j] in GridPosts(posts, tab) <==> posts[j] !in PostWall(posts))
  {
    WallsSplitFeed(posts);
  }

  /** The client reacted to some post, and every post reacted to has left
      the feed. */
  predicate ReactionsAllGone(posts: seq<PostFeedback>, feed: seq<Post>) {
    && (exists j :: 0 <= j < |posts| && HasFeedback(posts[j]))
    && forall j :: 0 <= j < |posts| && HasFeedback(posts[j]) ==> FeedPostFor(feed, posts[j].postId).None?
  }

  /** The panel draws neither an entry nor the empty notice, with no overall
      comment, exactly when the client reacted to some post and every post
      reacted to has left the feed. */
  lemma BlankPanelExactly(d: ClientDraft, feed: seq<Post>)
    ensures (d.gridComment == "" && |ReviewEntries(d.posts, feed)| == 0 && !ShowsEmptyNotice(d)) <==>
      (d.gridComment == "" && ReactionsAllGone(d.posts, feed))
  {
    if d.gridComment == "" && |ReviewEntries(d.posts, feed)| == 0 && !ShowsEmptyNotice(d) {
      BlankPanelMeansGone(d.posts, feed);
    }
    if ReactionsAllGone(d.posts, feed) {
      GoneMeansBlankPanel(d.posts, feed);
    }
  }

  lemma BlankPanelMeansGone(posts: seq<PostFeedback>, feed: seq<Post>)
    requires |ReviewEntries(posts, feed)| == 0 && |WithFeedback(posts)| > 0
    ensures ReactionsAllGone(posts, feed)
  {
    var shown := WithFeedback(posts);
    assert shown[0] in posts;
    var j :| 0 <= j < |posts| && posts[j] == shown[0];
    assert HasFeedback(posts[j]);
    forall i | 0 <= i < |posts| && HasFeedback(posts[i]) ensures FeedPostFor(feed, posts[i].postId).None? {
      if FeedPostFor(feed, posts[i].postId).Some? {
        assert false;
      }
    }
  }

  lemma GoneMeansBlankPanel(posts: seq<PostFeedback>, feed: seq<Post>)
    requires ReactionsAllGone(posts, feed)
    ensures |ReviewEntries(posts, feed)| == 0 && |WithFeedback(posts)| > 0
  {
    var j :| 0 <= j < |posts| && HasFeedback(posts[j]);
    assert posts[j] in WithFeedback(posts);
    var r := ReviewEntries(posts, feed);
    if |r| > 0 {
      assert false;
    }
  }

  /** Liking a post of the feed puts it on the review panel. */
  lemma LikedPostIsReviewed(entries: seq<PostFeedback>, feed: seq<Post>, j: nat)
    requires j < |feed|
    ensures var r := SetLiked(entries, Str(feed[j].id), true);
      exists i :: 0 <= i < |ReviewEntries(r, feed)| && ReviewEntries(r, feed)[i].postId == Str(feed[j].id)
  {
    var x := Str(feed[j].id);
    var r := SetLiked(entries, x, true);
    var w := WithEntry(entries, x);
    var k := PostIndex(w, x).value;
    UpdateKeepsIndex(w, k, w[k].(liked := true), x);
    assert r[k].liked && r[k].postId == x;
    assert FeedPostFor(feed, x).Some?;
    var shown := ReviewEntries(r, feed);
    assert r[k] in shown;
  }
}
