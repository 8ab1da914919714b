/** What the editor (client/script.js) derives from the review and the
    scheduling data of a feed: per-post approval statistics, gathered from
    submitted approvals in both record formats, and the ids of the posts a
    scheduler has marked. The functions here specify the editor's loops. */
module EditorStats {
  import opened Options
  import opened JsIds
  import Feedback
  import Scheduler

  /** An entry of the older approval format's `feedback` array; `kind` is
      its `type` (`like` or `comment`). */
  datatype FeedbackItem = FeedbackItem(postId: JsId, kind: string, comment: string, timestamp: int)

  /** An approval as the editor receives it: the newer format carries the
      frozen posts of the payload, the older one a `feedback` array. A
      missing array is empty. */
  datatype ApprovalRecord = ApprovalRecord(clientEmail: string, submittedAt: int,
                                           payloadPosts: seq<Feedback.ApprovedPost>,
                                           feedback: seq<FeedbackItem>)

  /** A comment as the statistics list it. */
  datatype StatComment = StatComment(text: string, timestamp: int, clientEmail: string)

  /** The record the server returns for an approval it stored. */
  function RecordOf(a: Feedback.Approval): ApprovalRecord {
    ApprovalRecord(a.clientEmail, a.submittedAt, a.posts, [])
  }

  /** Comment texts stamped with the approval's time and author. */
  function Stamped(texts: seq<string>, at: int, email: string): (r: seq<StatComment>)
    ensures |r| == |texts|
    ensures forall i :: 0 <= i < |texts| ==> r[i] == StatComment(texts[i], at, email)
  {
    seq(|texts|, i requires 0 <= i < |texts| => StatComment(texts[i], at, email))
  }

  // ---- likes ----

  predicate PayloadLikes(p: Feedback.ApprovedPost, postId: string) {
    p.postId == Str(postId) && p.liked
  }

  predicate ItemLikes(it: FeedbackItem, postId: string) {
    it.postId == Str(postId) && it.kind == "like"
  }

  /** The approval marks the post liked in either format. */
  predicate LikedIn(a: ApprovalRecord, postId: string) {
    (exists k :: 0 <= k < |a.payloadPosts| && PayloadLikes(a.payloadPosts[k], postId))
    || (exists k :: 0 <= k < |a.feedback| && ItemLikes(a.feedback[k], postId))
  }

  predicate LikedAnywhere(approvals: seq<ApprovalRecord>, postId: string) {
    exists j :: 0 <= j < |approvals| && LikedIn(approvals[j], postId)
  }

  // ---- comments ----

  /** The comments of the payload posts that are `postId`, in order. */
  function PayloadComments(posts: seq<Feedback.ApprovedPost>, postId: string, at: int, email: string): seq<StatComment>
    decreases |posts|
  {
    if posts == [] then []
    else
      var p := posts[|posts| - 1];
      PayloadComments(posts[..|posts| - 1], postId, at, email)
        + (if p.postId == Str(postId) then Stamped(p.comments, at, email) else [])
  }

  /** The comment items of the older format that are about `postId`. */
  function ItemComments(items: seq<FeedbackItem>, postId: string, email: string): seq<StatComment>
    decreases |items|
  {
    if items == [] then []
    else
      var it := items[|items| - 1];
      ItemComments(items[..|items| - 1], postId, email)
        + (if it.postId == Str(postId) && it.kind == "comment"
           then [StatComment(it.comment, it.timestamp, email)] else [])
  }

  function ApprovalComments(a: ApprovalRecord, postId: string): seq<StatComment> {
    PayloadComments(a.payloadPosts, postId, a.submittedAt, a.clientEmail)
      + ItemComments(a.feedback, postId, a.clientEmail)
  }

  /** Every comment on `postId` across the approvals, approval by approval. */
  function AllComments(approvals: seq<ApprovalRecord>, postId: string): seq<StatComment>
    decreases |approvals|
  {
    if approvals == [] then []
    else AllComments(approvals[..|approvals| - 1], postId) + ApprovalComments(approvals[|approvals| - 1], postId)
  }

  // ---- counting ----

  /** How many comments the payload posts hold for `postId`. */
  function PayloadCount(posts: seq<Feedback.ApprovedPost>, postId: string): nat
    decreases |posts|
  {
    if posts == [] then 0
    else (if posts[0].postId == Str(postId) then |posts[0].comments| else 0) + PayloadCount(posts[1..], postId)
  }

  /** How many comment items of the older format are about `postId`. */
  function ItemCount(items: seq<FeedbackItem>, postId: string): nat
    decreases |items|
  {
    if items == [] then 0
    else (if items[0].postId == Str(postId) && items[0].kind == "comment" then 1 else 0) + ItemCount(items[1..], postId)
  }

  /** The total of comments about `postId` over all approvals. */
  function CommentTotal(approvals: seq<ApprovalRecord>, postId: string): nat
    decreases |approvals|
  {
    if approvals == [] then 0
    else PayloadCount(approvals[0].payloadPosts, postId) + ItemCount(approvals[0].feedback, postId)
         + CommentTotal(approvals[1..], postId)
  }

  // ---- scheduled posts ----

  /** The ids of the scheduled entries of one plan, in order. */
  function ScheduledOf(slots: seq<Scheduler.Slot>): seq<string>
    decreases |slots|
  {
    if slots == [] then []
    else ScheduledOf(slots[..|slots| - 1]) + (if slots[|slots| - 1].scheduled then [slots[|slots| - 1].postId] else [])
  }

  /** The ids of the scheduled entries of all plans, plan by plan. */
  function ScheduledIds(plans: seq<Scheduler.Plan>): seq<string>
    decreases |plans|
  {
    if plans == [] then []
    else ScheduledIds(plans[..|plans| - 1]) + ScheduledOf(plans[|plans| - 1].posts)
  }

  predicate ScheduledIn(plans: seq<Scheduler.Plan>, postId: string) {
    exists j, k :: 0 <= j < |plans| && 0 <= k < |plans[j].posts|
      && plans[j].posts[k].postId == postId && plans[j].posts[k].scheduled
  }

  // ---- properties ----

  /** The merged comment list has as many entries as the approvals hold
      comments about the post. */
  lemma {:induction false} CommentsMatchTotal(approvals: seq<ApprovalRecord>, postId: string)
    ensures |AllComments(approvals, postId)| == CommentTotal(approvals, postId)
    decreases |approvals|
  {
    if approvals != [] {
      var n := |approvals| - 1;
      CommentsMatchTotal(approvals[..n], postId);
      PayloadCountMatches(approvals[n].payloadPosts, postId, approvals[n].submittedAt, approvals[n].clientEmail);
      ItemCountMatches(approvals[n].feedback, postId, approvals[n].clientEmail);
      TotalSplitsLast(approvals, postId);
    }
  }

  lemma {:induction false} PayloadCountMatches(posts: seq<Feedback.ApprovedPost>, postId: string, at: int, email: string)
    ensures |PayloadComments(posts, postId, at, email)| == PayloadCount(posts, postId)
    decreases |posts|
  {
    if posts != [] {
      var n := |posts| - 1;
      PayloadCountMatches(posts[..n], postId, at, email);
      PayloadCountSplitsLast(posts, postId);
    }
  }

  lemma {:induction false} PayloadCountSplitsLast(posts: seq<Feedback.ApprovedPost>, postId: string)
    requires posts != []
    ensures PayloadCount(posts, postId) == PayloadCount(posts[..|posts| - 1], postId)
      + (if posts[|posts| - 1].postId == Str(postId) then |posts[|posts| - 1].comments| else 0)
    decreases |posts|
  {
    if |posts| > 1 {
      assert posts[1..][..|posts| - 2] == posts[..|posts| - 1][1..];
      PayloadCountSplitsLast(posts[1..], postId);
    }
  }

  lemma {:induction false} ItemCountMatches(items: seq<FeedbackItem>, postId: string, email: string)
    ensures |ItemComments(items, postId, email)| == ItemCount(items, postId)
    decreases |items|
  {
    if items != [] {
      ItemCountMatches(items[..|items| - 1], postId, email);
      ItemCountSplitsLast(items, postId);
    }
  }

  lemma {:induction false} ItemCountSplitsLast(items: seq<FeedbackItem>, postId: string)
    requires items != []
    ensures ItemCount(items, postId) == ItemCount(items[..|items| - 1], postId)
      + (if items[|items| - 1].postId == Str(postId) && items[|items| - 1].kind == "comment" then 1 else 0)
    decreases |items|
  {
    if |items| > 1 {
      assert items[1..][..|items| - 2] == items[..|items| - 1][1..];
      ItemCountSplitsLast(items[1..], postId);
    }
  }

  lemma {:induction false} TotalSplitsLast(approvals: seq<ApprovalRecord>, postId: string)
    requires approvals != []
    ensures var a := approvals[|approvals| - 1];
      CommentTotal(approvals, postId) == CommentTotal(approvals[..|approvals| - 1], postId)
        + PayloadCount(a.payloadPosts, postId) + ItemCount(a.feedback, postId)
    decreases |approvals|
  {
    if |approvals| > 1 {
      assert approvals[1..][..|approvals| - 2] == approvals[..|approvals| - 1][1..];
      TotalSplitsLast(approvals[1..], postId);
    }
  }

  /** A post is in the merged scheduled list exactly when some plan has a
      scheduled entry for it. */
  lemma {:induction false} ScheduledIdsMeaning(plans: seq<Scheduler.Plan>, postId: string)
    ensures postId in ScheduledIds(plans) <==> ScheduledIn(plans, postId)
    decreases |plans|
  {
    if plans != [] {
      var n := |plans| - 1;
      ScheduledIdsMeaning(plans[..n], postId);
      ScheduledOfMeaning(plans[n].posts, postId);
      assert ScheduledIds(plans) == ScheduledIds(plans[..n]) + ScheduledOf(plans[n].posts);
      ScheduledInSplit(plans, postId);
    }
  }

  /** Some plan schedules the post exactly when one of the first plans or
      the last one does. */
  lemma ScheduledInSplit(plans: seq<Scheduler.Plan>, postId: string)
    requires plans != []
    ensures var n := |plans| - 1;
      ScheduledIn(plans, postId) <==>
        ScheduledIn(plans[..n], postId)
        || exists k :: 0 <= k < |plans[n].posts| && plans[n].posts[k].postId == postId && plans[n].posts[k].scheduled
  {
    var n := |plans| - 1;
    if ScheduledIn(plans[..n], postId) {
      var j, k :| 0 <= j < n && 0 <= k < |plans[..n][j].posts|
        && plans[..n][j].posts[k].postId == postId && plans[..n][j].posts[k].scheduled;
      assert plans[j] == plans[..n][j];
    }
    if ScheduledIn(plans, postId) {
      var j, k :| 0 <= j < |plans| && 0 <= k < |plans[j].posts|
        && plans[j].posts[k].postId == postId && plans[j].posts[k].scheduled;
      if j < n {
        assert plans[..n][j] == plans[j];
      }
    }
  }

  lemma {:induction false} ScheduledOfMeaning(slots: seq<Scheduler.Slot>, postId: string)
    ensures postId in ScheduledOf(slots) <==> exists k :: 0 <= k < |slots| && slots[k].postId == postId && slots[k].scheduled
    decreases |slots|
  {
    if slots != [] {
      var n := |slots| - 1;
      ScheduledOfMeaning(slots[..n], postId);
      if exists k :: 0 <= k < |slots| && slots[k].postId == postId && slots[k].scheduled {
        var k :| 0 <= k < |slots| && slots[k].postId == postId && slots[k].scheduled;
        if k < n {
          assert slots[..n][k] == slots[k];
        }
      }
    }
  }

  /** Once the scheduler patches a post of a plan of the feed with
      `scheduled: true`, the editor's merged list for that feed has it. */
  lemma PatchedPostIsScheduled(plans: seq<Scheduler.Plan>, p: string, postId: string, patch: Scheduler.Patch,
                               now: int, feedText: string)
    requires Scheduler.PlanIndex(plans, p).Some?
    requires plans[Scheduler.PlanIndex(plans, p).value].feedId.Text() == feedText
    requires patch.scheduled == Some(true)
    ensures var k := Scheduler.PlanIndex(plans, p).value;
      var after := plans[k := plans[k].(posts := Scheduler.Patched(plans[k].posts, postId, patch, now))];
      postId in ScheduledIds(Scheduler.PlansForFeed(after, feedText))
  {
    var k := Scheduler.PlanIndex(plans, p).value;
    var plan := plans[k].(posts := Scheduler.Patched(plans[k].posts, postId, patch, now));
    var after := plans[k := plan];
    Scheduler.PatchSetsItsSlot(plans[k].posts, postId, patch, now);
    var m := Scheduler.SlotIndex(plan.posts, postId).value;
    assert after[k] == plan;
    var shown := Scheduler.PlansForFeed(after, feedText);
    assert plan in shown;
    var j :| 0 <= j < |shown| && shown[j] == plan;
    assert shown[j].posts[m].postId == postId && shown[j].posts[m].scheduled;
    ScheduledIdsMeaning(shown, postId);
  }

  /** A post liked in a draft that is then submitted is reported liked. */
  lemma SubmittedLikeIsReported(a: Feedback.Approval, postId: string, k: nat)
    requires k < |a.posts| && a.posts[k].postId == Str(postId) && a.posts[k].liked
    ensures LikedIn(RecordOf(a), postId)
  {
    assert PayloadLikes(RecordOf(a).payloadPosts[k], postId);
  }
}
