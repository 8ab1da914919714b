/** The grid editor's in-memory state (client/script.js): the account
    header, the list of posts it edits and reorders, and what it loaded about
    the feed's approvals and scheduling. `saveState` and the rendering that
    follow each change are not part of this model. */
module Editor {
  import opened Options
  import opened JsIds
  import Seqs
  import opened EditorMedia
  import opened EditorStats
  import Scheduler
  import Feedback

  const MaxCarouselImages: nat := 20
  const CarouselFiller: string := "https://via.placeholder.com/400"

  /** `posts.findIndex(p => p.id === id)`. */
  function PostIndex(posts: seq<Post>, id: string): (r: Option<nat>)
    ensures r.Some? ==> r.value < |posts| && posts[r.value].id == id
    ensures r.Some? ==> forall j :: 0 <= j < r.value ==> posts[j].id != id
    ensures r.None? <==> forall j :: 0 <= j < |posts| ==> posts[j].id != id
  {
    Seqs.FindIndex(posts, (p: Post) => p.id == id)
  }

  /** `posts.filter(p => p.id !== id)`. */
  function WithoutPost(posts: seq<Post>, id: string): (r: seq<Post>)
    ensures forall j :: 0 <= j < |r| ==> r[j] in posts && r[j].id != id
    ensures forall j :: 0 <= j < |posts| && posts[j].id != id ==> posts[j] in r
  {
    Seqs.Filter(posts, (p: Post) => p.id != id)
  }

  /** `splice(i, 1)`: removes element `i`; an index past the end removes nothing. */
  function RemoveAt<T>(s: seq<T>, i: nat): (r: seq<T>)
    ensures i < |s| ==> |r| == |s| - 1 && forall j :: 0 <= j < |r| ==> r[j] == (if j < i then s[j] else s[j + 1])
    ensures i >= |s| ==> r == s
  {
    if i < |s| then s[..i] + s[i + 1..] else s
  }

  /** `splice(i, 0, x)`: inserts `x` before element `i`. */
  function InsertAt<T>(s: seq<T>, i: nat, x: T): (r: seq<T>)
    requires i <= |s|
    ensures |r| == |s| + 1 && r[i] == x
    ensures forall j :: 0 <= j < i ==> r[j] == s[j]
    ensures forall j :: i < j < |r| ==> r[j] == s[j - 1]
  {
    s[..i] + [x] + s[i..]
  }

  /** The list after dragging element `from` onto the position `to` held. */
  function Moved<T>(s: seq<T>, from: nat, to: nat): seq<T>
    requires from < |s| && to < |s|
  {
    InsertAt(RemoveAt(s, from), to, s[from])
  }

  /** A carousel after `addCarouselImage`: a filler image and, when the post
      names its images, a name numbered by the new count. */
  function WithAddedImage(p: Post): (r: Post)
    requires p.images.Some?
    ensures r.images == Some(p.images.value + [CarouselFiller])
    ensures p.imageNames.Some? ==> r.imageNames == Some(p.imageNames.value + ["Image " + IntText(|r.images.value|)])
    ensures p.imageNames.None? ==> r.imageNames.None?
    ensures r.(images := p.images, imageNames := p.imageNames) == p
  {
    var imgs := p.images.value + [CarouselFiller];
    p.(images := Some(imgs),
       imageNames := if p.imageNames.Some? then Some(p.imageNames.value + ["Image " + IntText(|imgs|)]) else None)
  }

  /** A carousel after `removeCarouselImage`: the same index spliced out of
      the images, their cached copies and their names. */
  function WithoutImage(p: Post, index: nat): Post
    requires p.images.Some?
  {
    p.(images := Some(RemoveAt(p.images.value, index)),
       cachedImages := if p.cachedImages.Some? then Some(RemoveAt(p.cachedImages.value, index)) else None,
       imageNames := if p.imageNames.Some? then Some(RemoveAt(p.imageNames.value, index)) else None)
  }

  /** Every carousel holds between one and twenty images. */
  predicate CarouselsBounded(posts: seq<Post>) {
    forall j :: 0 <= j < |posts| && posts[j].images.Some? ==> 1 <= |posts[j].images.value| <= MaxCarouselImages
  }

  class EditorState {
    var account: Account
    var posts: seq<Post>
    var activeTab: string
    var approvals: seq<ApprovalRecord>
    /** The feed being edited, `""` when none is. */
    var currentFeedId: string
    var schedulerStatus: seq<string>

    constructor ()
      ensures account == Account("", "", "", "", "", "") && posts == [] && activeTab == "grid"
      ensures approvals == [] && currentFeedId == "" && schedulerStatus == []
    {
      account := Account("", "", "", "", "", "");
      posts := [];
      activeTab := "grid";
      approvals := [];
      currentFeedId := "";
      schedulerStatus := [];
    }

    /** `isPostScheduled`. */
    predicate IsPostScheduled(postId: string)
      reads this
    {
      postId in schedulerStatus
    }

    /** `addDriveUploadToState`: nothing for an empty result; a profile
        upload replaces only the picture; any other upload puts one new post
        first. `id`, `date` and `time` are what the clock gives. */
    method AddDriveUpload(results: seq<Upload>, folderType: string, id: string, date: string, time: string)
      modifies this`account, this`posts
      ensures |results| == 0 ==> account == old(account) && posts == old(posts)
      ensures |results| > 0 && folderType == "profiles" ==>
        account == old(account).(pfp := results[0].url) && posts == old(posts)
      ensures |results| > 0 && folderType != "profiles" ==>
        account == old(account) && posts == [UploadedPost(results, folderType, id, date, time)] + old(posts)
    {
      if |results| == 0 {
        return;
      }
      if folderType == "profiles" {
        account := account.(pfp := results[0].url);
        return;
      }
      posts := [UploadedPost(results, folderType, id, date, time)] + posts;
    }

    /** `applyCachedMediaToState`: cached copies replace the Drive links,
        post by post, and the cached profile picture replaces the link. */
    method ApplyCachedMedia()
      modifies this`account, this`posts
      ensures account == CachedAccount(old(account))
      ensures |posts| == |old(posts)| && forall j :: 0 <= j < |posts| ==> posts[j] == CachedView(old(posts)[j])
    {
      account := CachedAccount(account);
      posts := seq(|posts|, j requires 0 <= j < |posts| reads this => CachedView(posts[j]));
    }

    /** `addContent`: the new post goes first. */
    method AddContent(kind: string, id: string, date: string, time: string)
      modifies this`posts
      ensures posts == [NewPost(kind, id, date, time)] + old(posts)
    {
      posts := [NewPost(kind, id, date, time)] + posts;
    }

    /** `deletePost` once confirmed: asks the server to drop the cached
        files of the first post with the id, when there is one, then removes
        every post with that id. */
    method DeletePost(id: string) returns (cacheRequest: Option<seq<string>>)
      modifies this`posts
      ensures PostIndex(old(posts), id).None? ==> cacheRequest.None?
      ensures PostIndex(old(posts), id).Some? ==> cacheRequest == Some(CachePathsOf(old(posts)[PostIndex(old(posts), id).value]))
      ensures posts == WithoutPost(old(posts), id)
    {
      var k := PostIndex(posts, id);
      cacheRequest := if k.Some? then Some(CachePathsOf(posts[k.value])) else None;
      posts := WithoutPost(posts, id);
    }

    /** `handleDrop`: on the grid tab, dropping one tile on another moves
        the dragged post to the index the target held. Both tiles are drawn
        from the post list, so both ids are found. */
    method HandleDrop(draggedId: string, targetId: string, sameTile: bool)
      requires activeTab == "grid" && !sameTile ==> PostIndex(posts, draggedId).Some? && PostIndex(posts, targetId).Some?
      modifies this`posts
      ensures activeTab != "grid" || sameTile ==> posts == old(posts)
      ensures activeTab == "grid" && !sameTile ==>
        posts == Moved(old(posts), PostIndex(old(posts), draggedId).value, PostIndex(old(posts), targetId).value)
    {
      if activeTab != "grid" || sameTile {
        return;
      }
      var from := PostIndex(posts, draggedId).value;
      var to := PostIndex(posts, targetId).value;
      var dragged := posts[from];
      posts := RemoveAt(posts, from);
      posts := InsertAt(posts, to, dragged);
    }

    /** `addCarouselImage`: the first post with the id gains an image when
        it is a carousel with fewer than twenty. */
    method AddCarouselImage(id: string)
      modifies this`posts
      ensures var k := PostIndex(old(posts), id);
        if k.Some? && old(posts)[k.value].images.Some? && |old(posts)[k.value].images.value| < MaxCarouselImages
        then posts == old(posts)[k.value := WithAddedImage(old(posts)[k.value])]
        else posts == old(posts)
      ensures CarouselsBounded(old(posts)) ==> CarouselsBounded(posts)
    {
      var k := PostIndex(posts, id);
      if k.Some? && posts[k.value].images.Some? && |posts[k.value].images.value| < MaxCarouselImages {
        posts := posts[k.value := WithAddedImage(posts[k.value])];
      }
    }

    /** `removeCarouselImage`: the first post with the id loses image
        `index` when it has more than one. */
    method RemoveCarouselImage(id: string, index: nat)
      modifies this`posts
      ensures var k := PostIndex(old(posts), id);
        if k.Some? && old(posts)[k.value].images.Some? && |old(posts)[k.value].images.value| > 1
        then posts == old(posts)[k.value := WithoutImage(old(posts)[k.value], index)]
        else posts == old(posts)
      ensures CarouselsBounded(old(posts)) ==> CarouselsBounded(posts)
    {
      var k := PostIndex(posts, id);
      if k.Some? && posts[k.value].images.Some? && |posts[k.value].images.value| > 1 {
        posts := posts[k.value := WithoutImage(posts[k.value], index)];
      }
    }

    /** `getPostApprovalStats`: whether any approval likes the post, and its
        comments from every approval, counted as they are gathered. */
    method PostApprovalStats(postId: string) returns (liked: bool, commentCount: nat, comments: seq<StatComment>)
      ensures liked <==> LikedAnywhere(approvals, postId)
      ensures comments == AllComments(approvals, postId)
      ensures commentCount == |comments|
    {
      liked := false;
      commentCount := 0;
      comments := [];
      var i := 0;
      while i < |approvals|
        invariant 0 <= i <= |approvals|
        invariant liked <==> LikedAnywhere(approvals[..i], postId)
        invariant comments == AllComments(approvals[..i], postId)
        invariant commentCount == |comments|
      {
        var a := approvals[i];
        var l1, n1, c1 := PayloadStats(a.payloadPosts, postId, a.submittedAt, a.clientEmail);
        var l2, n2, c2 := ItemStats(a.feedback, postId, a.clientEmail);
        liked := liked || l1 || l2;
        commentCount := commentCount + n1 + n2;
        comments := comments + c1 + c2;
        assert approvals[..i + 1][..i] == approvals[..i];
        LikedAnywhereExtend(approvals, i, postId);
        i := i + 1;
      }
      assert approvals[..i] == approvals;
    }

    /** `loadSchedulerStatus`: with a feed open, the ids of every scheduled
        entry of the plans the server returned for it (`None` for a failed
        request, which clears the list). */
    method LoadSchedulerStatus(response: Option<seq<Scheduler.Plan>>)
      modifies this`schedulerStatus
      ensures currentFeedId == "" ==> schedulerStatus == old(schedulerStatus)
      ensures currentFeedId != "" && response.None? ==> schedulerStatus == []
      ensures currentFeedId != "" && response.Some? ==> schedulerStatus == ScheduledIds(response.value)
    {
      if currentFeedId == "" {
        return;
      }
      if response.None? {
        schedulerStatus := [];
        return;
      }
      var plans := response.value;
      schedulerStatus := [];
      var i := 0;
      while i < |plans|
        invariant 0 <= i <= |plans|
        invariant schedulerStatus == ScheduledIds(plans[..i])
      {
        var slots := plans[i].posts;
        ghost var before := schedulerStatus;
        var m := 0;
        while m < |slots|
          invariant 0 <= m <= |slots|
          invariant schedulerStatus == before + ScheduledOf(slots[..m])
        {
          if slots[m].scheduled {
            schedulerStatus := schedulerStatus + [slots[m].postId];
          }
          assert slots[..m + 1][..m] == slots[..m];
          m := m + 1;
        }
        assert slots[..m] == slots;
        assert plans[..i + 1][..i] == plans[..i];
        i := i + 1;
      }
      assert plans[..i] == plans;
    }
  }

  /** The `payload.posts` pass of `getPostApprovalStats` over one approval. */
  method PayloadStats(posts: seq<Feedback.ApprovedPost>, postId: string, at: int, email: string)
    returns (liked: bool, count: nat, comments: seq<StatComment>)
    ensures liked <==> exists k :: 0 <= k < |posts| && PayloadLikes(posts[k], postId)
    ensures comments == PayloadComments(posts, postId, at, email)
    ensures count == |comments|
  {
    liked := false;
    count := 0;
    comments := [];
    var m := 0;
    while m < |posts|
      invariant 0 <= m <= |posts|
      invariant liked <==> exists k :: 0 <= k < m && PayloadLikes(posts[k], postId)
      invariant comments == PayloadComments(posts[..m], postId, at, email)
      invariant count == |comments|
    {
      var p := posts[m];
      if p.postId == Str(postId) {
        if p.liked {
          liked := true;
        }
        if |p.comments| > 0 {
          count := count + |p.comments|;
          ghost var before := comments;
          var c := 0;
          while c < |p.comments|
            invariant 0 <= c <= |p.comments|
            invariant comments == before + Stamped(p.comments[..c], at, email)
          {
            comments := comments + [StatComment(p.comments[c], at, email)];
            c := c + 1;
          }
          assert p.comments[..c] == p.comments;
        }
      }
      assert posts[..m + 1][..m] == posts[..m];
      m := m + 1;
    }
    assert posts[..m] == posts;
  }

  /** The older `feedback` pass of `getPostApprovalStats` over one approval. */
  method ItemStats(items: seq<FeedbackItem>, postId: string, email: string)
    returns (liked: bool, count: nat, comments: seq<StatComment>)
    ensures liked <==> exists k :: 0 <= k < |items| && ItemLikes(items[k], postId)
    ensures comments == ItemComments(items, postId, email)
    ensures count == |comments|
  {
    liked := false;
    count := 0;
    comments := [];
    var f := 0;
    while f < |items|
      invariant 0 <= f <= |items|
      invariant liked <==> exists k :: 0 <= k < f && ItemLikes(items[k], postId)
      invariant comments == ItemComments(items[..f], postId, email)
      invariant count == |comments|
    {
      var it := items[f];
      if it.postId == Str(postId) {
        if it.kind == "like" {
          liked := true;
        } else if it.kind == "comment" {
          count := count + 1;
          comments := comments + [StatComment(it.comment, it.timestamp, email)];
        }
      }
      assert items[..f + 1][..f] == items[..f];
      f := f + 1;
    }
    assert items[..f] == items;
  }

  // ---- properties ----

  lemma LikedAnywhereExtend(approvals: seq<ApprovalRecord>, i: nat, postId: string)
    requires i < |approvals|
    ensures LikedAnywhere(approvals[..i + 1], postId) <==> LikedAnywhere(approvals[..i], postId) || LikedIn(approvals[i], postId)
  {
    var s := approvals[..i + 1];
    assert s[i] == approvals[i];
    if LikedAnywhere(approvals[..i], postId) {
      var j :| 0 <= j < i && LikedIn(approvals[..i][j], postId);
      assert s[j] == approvals[..i][j];
    }
    if LikedAnywhere(s, postId) {
      var j :| 0 <= j < i + 1 && LikedIn(s[j], postId);
      if j < i {
        assert approvals[..i][j] == s[j];
      }
    }
  }

  /** A drop is a permutation that puts the dragged post at the target's
      former index. */
  lemma MovedIsPermutation<T>(s: seq<T>, from: nat, to: nat)
    requires from < |s| && to < |s|
    ensures |Moved(s, from, to)| == |s| && Moved(s, from, to)[to] == s[from]
    ensures multiset(Moved(s, from, to)) == multiset(s)
  {
    var x := s[from];
    var rest := RemoveAt(s, from);
    assert s == s[..from] + [x] + s[from + 1..];
    assert rest == s[..from] + s[from + 1..];
    assert multiset(s) == multiset(rest) + multiset{x};
    var r := Moved(s, from, to);
    assert r == rest[..to] + [x] + rest[to..];
    assert rest == rest[..to] + rest[to..];
    assert multiset(r) == multiset(rest[..to]) + multiset{x} + multiset(rest[to..]);
  }

  /** The other posts keep their relative order. */
  lemma MovedKeepsOthersInOrder<T>(s: seq<T>, from: nat, to: nat)
    requires from < |s| && to < |s|
    ensures RemoveAt(Moved(s, from, to), to) == RemoveAt(s, from)
  {
    var r := Moved(s, from, to);
    assert RemoveAt(r, to) == r[..to] + r[to + 1..];
  }

  /** Dropping the post back where it came from restores the list. */
  lemma MovedBack<T>(s: seq<T>, from: nat, to: nat)
    requires from < |s| && to < |s|
    ensures Moved(Moved(s, from, to), to, from) == s
  {
    var r := Moved(s, from, to);
    MovedKeepsOthersInOrder(s, from, to);
    assert r[to] == s[from];
    var back := InsertAt(RemoveAt(s, from), from, s[from]);
    assert back == s;
  }

  /** Adding an image keeps a bounded carousel within twenty, and removing
      one keeps at least one image, so both keep every carousel bounded. */
  lemma CarouselBoundsKept(p: Post, index: nat)
    requires p.images.Some? && 1 <= |p.images.value| <= MaxCarouselImages
    ensures |p.images.value| < MaxCarouselImages ==> 1 <= |WithAddedImage(p).images.value| <= MaxCarouselImages
    ensures |p.images.value| > 1 ==> 1 <= |WithoutImage(p, index).images.value| <= MaxCarouselImages
  {
  }

  /** Removing an image keeps the three parallel arrays aligned: what stood
      together at one index still stands together. */
  lemma RemovingKeepsArraysAligned(p: Post, index: nat, j: nat)
    requires p.images.Some? && p.cachedImages.Some? && p.imageNames.Some?
    requires |p.cachedImages.value| == |p.images.value| == |p.imageNames.value|
    requires index < |p.images.value| && j < |p.images.value| - 1
    ensures var q := WithoutImage(p, index);
      var src := if j < index then j else j + 1;
      && |q.cachedImages.value| == |q.images.value| == |q.imageNames.value| == |p.images.value| - 1
      && q.images.value[j] == p.images.value[src]
      && q.cachedImages.value[j] == p.cachedImages.value[src]
      && q.imageNames.value[j] == p.imageNames.value[src]
  {
  }

  /** Deleting a freshly added post restores the list it was added to. */
  lemma AddThenDeleteRestores(posts: seq<Post>, kind: string, id: string, date: string, time: string)
    requires PostIndex(posts, id).None?
    ensures WithoutPost([NewPost(kind, id, date, time)] + posts, id) == posts
  {
    var s := [NewPost(kind, id, date, time)] + posts;
    assert s[1..] == posts;
    Seqs.FilterKeepsAll(posts, (p: Post) => p.id != id);
  }

  /** Deleting twice is deleting once. */
  lemma DeleteIdempotent(posts: seq<Post>, id: string)
    ensures WithoutPost(WithoutPost(posts, id), id) == WithoutPost(posts, id)
  {
    Seqs.FilterKeepsAll(WithoutPost(posts, id), (p: Post) => p.id != id);
  }
}
