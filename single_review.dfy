/** The single-post review page (client/single-client.js): it loads a feed
    through the public route and shows its first post only, with the same
    draft handlers as the feed review page (`DraftMirror`). */
module SingleReview {
  import opened Options
  import opened JsIds
  import opened Feedback
  import opened EditorMedia
  import ReviewClient

  /** What loading the feed gives: the request or its JSON threw, the answer
      has no `state` (an error body), or the state's account and posts. */
  datatype LoadResult = Threw | NoState | Loaded(account: Option<Account>, posts: seq<Post>)

  const NoAccount: Account := Account("", "", "", "", "", "")
  const ErrorAccount: Account := Account("Error", "", "", "", "", "")

  class SingleView {
    var account: Account
    /** The post on show; `None` is `null`. */
    var post: Option<Post>

    constructor ()
      ensures account == NoAccount && post.None?
    {
      account := NoAccount;
      post := None;
    }

    /** `loadSingleState`: without an id nothing is loaded; a loaded state
        shows the feed's first post, or none when it has no posts; an
        answer without state changes nothing; a failure shows the error
        account and no post. */
    method LoadSingleState(idParam: string, result: LoadResult)
      modifies this
      ensures idParam == "" || result.NoState? ==> account == old(account) && post == old(post)
      ensures idParam != "" && result.Threw? ==> account == ErrorAccount && post.None?
      ensures idParam != "" && result.Loaded? ==>
        account == result.account.GetOr(NoAccount)
        && (post.Some? <==> |result.posts| > 0)
        && (post.Some? ==> post.value == result.posts[0])
    {
      if idParam == "" {
        return;
      }
      match result
      case Threw =>
        account := ErrorAccount;
        post := None;
      case NoState =>
      case Loaded(a, ps) =>
        account := a.GetOr(NoAccount);
        post := if |ps| > 0 then Some(ps[0]) else None;
    }
  }

  /** `renderReviewPanel`'s condition as written: `None` where reading
      `post.id` of a missing post throws. */
  function ReviewConditionAsWritten(post: Option<Post>, entries: seq<PostFeedback>): Option<bool> {
    match post
    case None => None
    case Some(p) =>
      match PostIndex(entries, Str(p.id))
      case None => Some(false)
      case Some(k) => Some(ReviewClient.HasFeedback(entries[k]))
  }

  /** The condition as intended: the post's entry exists and is liked or
      commented on; with no post there is nothing to review. */
  predicate ShowsPostFeedback(post: Option<Post>, entries: seq<PostFeedback>) {
    post.Some? && PostIndex(entries, Str(post.value.id)).Some?
      && ReviewClient.HasFeedback(entries[PostIndex(entries, Str(post.value.id)).value])
  }

  /** At most one entry per post, as find-or-create keeps it. */
  predicate UniqueEntries(entries: seq<PostFeedback>) {
    forall i, j :: 0 <= i < j < |entries| ==> entries[i].postId != entries[j].postId
  }

  // ---- properties ----

  /** With no post loaded, the review panel as written throws. */
  lemma NoPostReviewThrows(entries: seq<PostFeedback>)
    ensures ReviewConditionAsWritten(None, entries).None?
    ensures !ShowsPostFeedback(None, entries)
  {
  }

  /** Where the code as written does not throw, it agrees with the intended
      condition. */
  lemma ConditionAgreesWhenLoaded(p: Post, entries: seq<PostFeedback>)
    ensures ReviewConditionAsWritten(Some(p), entries) == Some(ShowsPostFeedback(Some(p), entries))
  {
  }

  /** The single page reviews its post exactly when the feed page, showing
      a feed of that one post, would list it. */
  lemma AgreesWithFeedReview(p: Post, entries: seq<PostFeedback>)
    requires UniqueEntries(entries)
    ensures ShowsPostFeedback(Some(p), entries) <==> |ReviewClient.ReviewEntries(entries, [p])| > 0
  {
    var x := Str(p.id);
    var r := ReviewClient.ReviewEntries(entries, [p]);
    if ShowsPostFeedback(Some(p), entries) {
      var k := PostIndex(entries, x).value;
      assert ReviewClient.FeedPostFor([p], x).Some? by { assert Str([p][0].id) == x; }
      assert entries[k] in r;
    }
    if |r| > 0 {
      assert r[0] in entries;
      var j :| 0 <= j < |entries| && entries[j] == r[0];
      var f := ReviewClient.FeedPostFor([p], r[0].postId);
      assert f.value in [p];
      assert entries[j].postId == x;
      var k := PostIndex(entries, x).value;
      assert k == j;
    }
  }
}
