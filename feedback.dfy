/** The client-review side of the server: logged client e-mails
    (`Data/client_emails.json`), feedback drafts of likes and comments
    (`Data/client_feedback.json`) and submitted approvals
    (`Data/approvals.json`). A draft belongs to a feed and a client e-mail;
    routes find it by comparing the feed id through `toString()`. */
module Feedback {
  import opened Options
  import opened JsText
  import opened JsIds
  import Seqs

  datatype Comment = Comment(id: string, text: string, timestamp: int)

  /** A client's reaction to one post. */
  datatype PostFeedback = PostFeedback(postId: JsId, liked: bool, comments: seq<Comment>)

  datatype Draft = Draft(feedId: JsId, clientEmail: string, gridComment: string, posts: seq<PostFeedback>, lastUpdated: int)

  /** A post as frozen into an approval: comments reduced to their texts. */
  datatype ApprovedPost = ApprovedPost(postId: JsId, liked: bool, comments: seq<string>)

  datatype Approval = Approval(approvalId: int, feedId: JsId, clientEmail: string, gridComment: string,
                               posts: seq<ApprovedPost>, submittedAt: int)

  datatype EmailEntry = EmailEntry(feedId: JsId, email: string, timestamp: int)

  // ---- drafts ----

  /** `d` belongs to the feed printed as `feedText` and to client `email`. */
  predicate IsDraftOf(d: Draft, feedText: string, email: string) {
    d.feedId.Text() == feedText && d.clientEmail == email
  }

  /** The index of the first draft of feed `feedText` and client `email`. */
  function FindDraft(drafts: seq<Draft>, feedText: string, email: string): (r: Option<nat>)
    ensures r.Some? ==> r.value < |drafts| && drafts[r.value].feedId.Text() == feedText && drafts[r.value].clientEmail == email
    ensures r.Some? ==> forall j :: 0 <= j < r.value ==> !(drafts[j].feedId.Text() == feedText && drafts[j].clientEmail == email)
    ensures r.None? <==> forall j :: 0 <= j < |drafts| ==> !(drafts[j].feedId.Text() == feedText && drafts[j].clientEmail == email)
  {
    Seqs.FindIndex(drafts, (d: Draft) => d.feedId.Text() == feedText && d.clientEmail == email)
  }

  /** At most one draft per feed and client. */
  predicate UniqueDrafts(drafts: seq<Draft>) {
    forall i, j :: 0 <= i < j < |drafts| ==>
      !(drafts[i].feedId.Text() == drafts[j].feedId.Text() && drafts[i].clientEmail == drafts[j].clientEmail)
  }

  /** The empty draft a route starts from when the client has none. */
  function EmptyDraft(feedId: JsId, email: string, now: int): Draft {
    Draft(feedId, email, "", [], now)
  }

  /** The drafts with one for `feedId`/`email` guaranteed, appended if missing. */
  function WithDraft(drafts: seq<Draft>, feedId: JsId, email: string, now: int): (r: seq<Draft>)
    ensures FindDraft(r, feedId.Text(), email).Some?
    ensures |drafts| <= |r| <= |drafts| + 1 && r[..|drafts|] == drafts
    ensures FindDraft(drafts, feedId.Text(), email).Some? ==> r == drafts
    ensures FindDraft(drafts, feedId.Text(), email).None? ==> r == drafts + [EmptyDraft(feedId, email, now)]
    ensures UniqueDrafts(drafts) ==> UniqueDrafts(r)
  {
    if FindDraft(drafts, feedId.Text(), email).Some? then drafts
    else
      var r := drafts + [EmptyDraft(feedId, email, now)];
      assert r[|drafts|].feedId.Text() == feedId.Text();
      r
  }

  /** `POST /api/feedback`: the draft replaces the first one with its key,
      or is appended. */
  function Upserted(drafts: seq<Draft>, d: Draft): (r: seq<Draft>)
    ensures |drafts| <= |r| <= |drafts| + 1
  {
    match FindDraft(drafts, d.feedId.Text(), d.clientEmail)
    case Some(k) => drafts[k := d]
    case None => drafts + [d]
  }

  // ---- post entries ----

  /** The index of the first entry for `postId` (strict equality). */
  function PostIndex(posts: seq<PostFeedback>, postId: JsId): (r: Option<nat>)
    ensures r.Some? ==> r.value < |posts| && posts[r.value].postId == postId
    ensures r.Some? ==> forall j :: 0 <= j < r.value ==> posts[j].postId != postId
    ensures r.None? <==> forall j :: 0 <= j < |posts| ==> posts[j].postId != postId
  {
    Seqs.FindIndex(posts, (p: PostFeedback) => p.postId == postId)
  }

  /** The entries with one for `postId` guaranteed, appended unliked and
      without comments if missing. */
  function WithEntry(posts: seq<PostFeedback>, postId: JsId): (r: seq<PostFeedback>)
    ensures PostIndex(r, postId).Some?
    ensures |posts| <= |r| <= |posts| + 1 && r[..|posts|] == posts
    ensures PostIndex(posts, postId).None? ==> r == posts + [PostFeedback(postId, false, [])]
    ensures PostIndex(posts, postId).Some? ==> r == posts
  {
    if PostIndex(posts, postId).Some? then posts
    else
      var r := posts + [PostFeedback(postId, false, [])];
      assert r[|posts|].postId == postId;
      r
  }

  /** Whether the client likes `postId`, if it has an entry. */
  function LikeOf(posts: seq<PostFeedback>, postId: JsId): Option<bool> {
    match PostIndex(posts, postId)
    case Some(k) => Some(posts[k].liked)
    case None => None
  }

  /** The comments on `postId`, none when it has no entry. */
  function CommentsOf(posts: seq<PostFeedback>, postId: JsId): seq<Comment> {
    match PostIndex(posts, postId)
    case Some(k) => posts[k].comments
    case None => []
  }

  /** `postFeedback.liked = liked` on the found or created entry. */
  function SetLiked(posts: seq<PostFeedback>, postId: JsId, liked: bool): seq<PostFeedback> {
    var r := WithEntry(posts, postId);
    var k := PostIndex(r, postId).value;
    r[k := r[k].(liked := liked)]
  }

  /** `postFeedback.comments.push(comment)` on the found or created entry. */
  function AppendComment(posts: seq<PostFeedback>, postId: JsId, c: Comment): seq<PostFeedback> {
    var r := WithEntry(posts, postId);
    var k := PostIndex(r, postId).value;
    r[k := r[k].(comments := r[k].comments + [c])]
  }

  /** `comments.filter(c => c.id !== commentId)`. */
  function WithoutComment(cs: seq<Comment>, commentId: string): (r: seq<Comment>)
    ensures |r| <= |cs|
    ensures forall j :: 0 <= j < |r| ==> r[j] in cs && r[j].id != commentId
    ensures forall j :: 0 <= j < |cs| && cs[j].id != commentId ==> cs[j] in r
    ensures (forall j :: 0 <= j < |cs| ==> cs[j].id == commentId) ==> r == []
  {
    Seqs.Filter(cs, (c: Comment) => c.id != commentId)
  }

  // ---- approvals ----

  function CommentTexts(cs: seq<Comment>): (r: seq<string>)
    ensures |r| == |cs| && forall j :: 0 <= j < |cs| ==> r[j] == cs[j].text
  {
    if cs == [] then [] else [cs[0].text] + CommentTexts(cs[1..])
  }

  /** `posts.map(p => ({postId, liked, comments: texts}))`. */
  function Frozen(posts: seq<PostFeedback>): (r: seq<ApprovedPost>)
    ensures |r| == |posts|
    ensures forall j :: 0 <= j < |posts| ==>
      r[j] == ApprovedPost(posts[j].postId, posts[j].liked, CommentTexts(posts[j].comments))
  {
    if posts == [] then []
    else [ApprovedPost(posts[0].postId, posts[0].liked, CommentTexts(posts[0].comments))] + Frozen(posts[1..])
  }

  // ---- read routes ----

  /** `GET /api/client-email/:feedId`. */
  function EmailsForFeed(emails: seq<EmailEntry>, p: string): (r: seq<EmailEntry>)
    ensures forall j :: 0 <= j < |r| ==> r[j] in emails && r[j].feedId.Text() == p
    ensures forall j :: 0 <= j < |emails| && emails[j].feedId.Text() == p ==> emails[j] in r
  {
    Seqs.Filter(emails, (e: EmailEntry) => e.feedId.Text() == p)
  }

  /** `GET /api/approvals/:feedId`. */
  function ApprovalsForFeed(approvals: seq<Approval>, p: string): (r: seq<Approval>)
    ensures forall j :: 0 <= j < |r| ==> r[j] in approvals && r[j].feedId.Text() == p
    ensures forall j :: 0 <= j < |approvals| && approvals[j].feedId.Text() == p ==> approvals[j] in r
  {
    Seqs.Filter(approvals, (a: Approval) => a.feedId.Text() == p)
  }

  /** `GET /api/feedback/:feedId?email=`: 400 (`None`) without an e-mail,
      otherwise the stored draft or an empty one. */
  function GetFeedback(drafts: seq<Draft>, p: string, email: string, now: int): (r: Option<Draft>)
    ensures email == "" <==> r.None?
    ensures r.Some? ==> r.value.clientEmail == email && r.value.feedId.Text() == p
    ensures email != "" ==> forall j :: 0 <= j < |drafts| && IsDraftOf(drafts[j], p, email) ==>
      (forall i :: 0 <= i < j ==> !IsDraftOf(drafts[i], p, email)) ==> r == Some(drafts[j])
    ensures email != "" && (forall j :: 0 <= j < |drafts| ==> !IsDraftOf(drafts[j], p, email)) ==>
      r == Some(Draft(Str(p), email, "", [], now))
  {
    if email == "" then None
    else match FindDraft(drafts, p, email)
      case Some(k) => Some(drafts[k])
      case None => Some(EmptyDraft(Str(p), email, now))
  }

  /** The e-mail log after `POST /api/client-email`: unchanged for a
      refused request or a pair already logged (strictly equal feed id),
      otherwise with the pair appended. */
  function Logged(emails: seq<EmailEntry>, feedId: JsId, email: string, now: int): (r: seq<EmailEntry>)
    ensures r == emails || r == emails + [EmailEntry(feedId, email, now)]
  {
    if !feedId.Truthy() || email == "" || !IsValidEmail(email) then emails
    else if exists j :: 0 <= j < |emails| && emails[j].feedId == feedId && emails[j].email == email then emails
    else emails + [EmailEntry(feedId, email, now)]
  }

  /** No feed/e-mail pair is logged twice (strict comparison). */
  predicate UniqueEmails(emails: seq<EmailEntry>) {
    forall i, j :: 0 <= i < j < |emails| ==> !(emails[i].feedId == emails[j].feedId && emails[i].email == emails[j].email)
  }

  class FeedbackStore {
    var emails: seq<EmailEntry>
    var drafts: seq<Draft>
    var approvals: seq<Approval>

    constructor ()
      ensures emails == [] && drafts == [] && approvals == []
    {
      emails, drafts, approvals := [], [], [];
    }

    /** `POST /api/client-email`: 400 for a missing or malformed e-mail or
        feed id; a pair already logged (strictly equal) is reported and not
        stored again; otherwise it is appended (201). */
    method LogEmail(feedId: JsId, email: string, now: int) returns (status: nat, alreadyExists: bool)
      modifies this
      ensures drafts == old(drafts) && approvals == old(approvals)
      ensures !feedId.Truthy() || email == "" || !IsValidEmail(email) ==>
        status == 400 && !alreadyExists && emails == old(emails)
      ensures feedId.Truthy() && email != "" && IsValidEmail(email) ==>
        (alreadyExists <==> exists j :: 0 <= j < |old(emails)| && old(emails)[j].feedId == feedId && old(emails)[j].email == email)
      ensures feedId.Truthy() && email != "" && IsValidEmail(email) && alreadyExists ==>
        status == 200 && emails == old(emails)
      ensures feedId.Truthy() && email != "" && IsValidEmail(email) && !alreadyExists ==>
        status == 201 && emails == old(emails) + [EmailEntry(feedId, email, now)]
      ensures emails == Logged(old(emails), feedId, email, now)
      ensures UniqueEmails(old(emails)) ==> UniqueEmails(emails)
    {
      if !feedId.Truthy() || email == "" || !IsValidEmail(email) {
        return 400, false;
      }
      var found := Seqs.Find(emails, (e: EmailEntry) => e.feedId == feedId && e.email == email);
      if found.Some? {
        return 200, true;
      }
      emails := emails + [EmailEntry(feedId, email, now)];
      status, alreadyExists := 201, false;
    }

    /** `POST /api/feedback`: 400 without a feed id or e-mail; otherwise the
        draft is replaced or created, with an absent comment or post list
        stored as empty. */
    method Upsert(feedId: JsId, email: string, gridComment: string, posts: Option<seq<PostFeedback>>, now: int)
      returns (status: nat, saved: Draft)
      modifies this
      ensures emails == old(emails) && approvals == old(approvals)
      ensures !feedId.Truthy() || email == "" ==> status == 400 && drafts == old(drafts)
      ensures feedId.Truthy() && email != "" ==>
        status == 200 && saved == Draft(feedId, email, gridComment, posts.GetOr([]), now)
        && drafts == Upserted(old(drafts), saved)
    {
      if !feedId.Truthy() || email == "" {
        return 400, EmptyDraft(feedId, email, now);
      }
      saved := Draft(feedId, email, gridComment, posts.GetOr([]), now);
      drafts := Upserted(drafts, saved);
      status := 200;
    }

    /** `PATCH /api/feedback/like`: 400 without feed id, e-mail or post id;
        otherwise the draft and the post entry are created if missing and the
        entry's like is set. */
    method Like(feedId: JsId, email: string, postId: JsId, liked: bool, now: int) returns (status: nat)
      modifies this
      ensures emails == old(emails) && approvals == old(approvals)
      ensures !feedId.Truthy() || email == "" || !postId.Truthy() ==> status == 400 && drafts == old(drafts)
      ensures feedId.Truthy() && email != "" && postId.Truthy() ==> (status == 200 &&
        var ds := WithDraft(old(drafts), feedId, email, now);
        var k := FindDraft(ds, feedId.Text(), email).value;
        drafts == ds[k := ds[k].(posts := SetLiked(ds[k].posts, postId, liked), lastUpdated := now)])
    {
      if !feedId.Truthy() || email == "" || !postId.Truthy() {
        return 400;
      }
      drafts := WithDraft(drafts, feedId, email, now);
      var k := FindDraft(drafts, feedId.Text(), email).value;
      var d := drafts[k];
      drafts := drafts[k := d.(posts := SetLiked(d.posts, postId, liked), lastUpdated := now)];
      status := 200;
    }

    /** `PATCH /api/feedback/comment`: like the like route, but appends a
        comment whose id is the clock's decimal text; 400 also for empty text. */
    method AddComment(feedId: JsId, email: string, postId: JsId, text: string, now: int)
      returns (status: nat, comment: Comment)
      modifies this
      ensures emails == old(emails) && approvals == old(approvals)
      ensures !feedId.Truthy() || email == "" || !postId.Truthy() || text == "" ==>
        status == 400 && drafts == old(drafts)
      ensures feedId.Truthy() && email != "" && postId.Truthy() && text != "" ==> (status == 200 &&
        comment == Comment(IntText(now), text, now) &&
        var ds := WithDraft(old(drafts), feedId, email, now);
        var k := FindDraft(ds, feedId.Text(), email).value;
        drafts == ds[k := ds[k].(posts := AppendComment(ds[k].posts, postId, comment), lastUpdated := now)])
    {
      comment := Comment(IntText(now), text, now);
      if !feedId.Truthy() || email == "" || !postId.Truthy() || text == "" {
        return 400, comment;
      }
      drafts := WithDraft(drafts, feedId, email, now);
      var k := FindDraft(drafts, feedId.Text(), email).value;
      var d := drafts[k];
      drafts := drafts[k := d.(posts := AppendComment(d.posts, postId, comment), lastUpdated := now)];
      status := 200;
    }

    /** `DELETE /api/feedback/comment`: 400 for a missing parameter, 404 when
        there is no draft, no entry for the post, or no comment with that id;
        otherwise every comment with that id is removed. */
    method DeleteComment(feedId: JsId, email: string, postId: JsId, commentId: string, now: int) returns (status: nat)
      modifies this
      ensures emails == old(emails) && approvals == old(approvals)
      ensures status != 200 ==> drafts == old(drafts)
      ensures !feedId.Truthy() || email == "" || !postId.Truthy() || commentId == "" ==> status == 400
      ensures feedId.Truthy() && email != "" && postId.Truthy() && commentId != "" ==> (
        match FindDraft(old(drafts), feedId.Text(), email)
        case None => status == 404
        case Some(k) =>
          match PostIndex(old(drafts)[k].posts, postId)
          case None => status == 404
          case Some(i) =>
            var cs := old(drafts)[k].posts[i].comments;
            if |WithoutComment(cs, commentId)| == |cs| then status == 404
            else status == 200 && drafts == old(drafts)[k := old(drafts)[k].(
              posts := old(drafts)[k].posts[i := old(drafts)[k].posts[i].(comments := WithoutComment(cs, commentId))],
              lastUpdated := now)])
    {
      if !feedId.Truthy() || email == "" || !postId.Truthy() || commentId == "" {
        return 400;
      }
      var found := FindDraft(drafts, feedId.Text(), email);
      if found.None? {
        return 404;
      }
      var k := found.value;
      var d := drafts[k];
      var entry := PostIndex(d.posts, postId);
      if entry.None? {
        return 404;
      }
      var i := entry.value;
      var cs := d.posts[i].comments;
      var kept := WithoutComment(cs, commentId);
      if |kept| == |cs| {
        return 404;
      }
      drafts := drafts[k := d.(posts := d.posts[i := d.posts[i].(comments := kept)], lastUpdated := now)];
      status := 200;
    }

    /** `POST /api/approvals`: 400 without feed id or e-mail, 404 without a
        draft; otherwise a frozen copy of the draft is appended (201). The
        draft itself stays. */
    method SubmitApproval(feedId: JsId, email: string, now: int) returns (status: nat, approval: Option<Approval>)
      modifies this
      ensures emails == old(emails) && drafts == old(drafts)
      ensures !feedId.Truthy() || email == "" ==> status == 400 && approval.None? && approvals == old(approvals)
      ensures feedId.Truthy() && email != "" && FindDraft(drafts, feedId.Text(), email).None? ==>
        status == 404 && approval.None? && approvals == old(approvals)
      ensures feedId.Truthy() && email != "" && FindDraft(drafts, feedId.Text(), email).Some? ==>
        var d := drafts[FindDraft(drafts, feedId.Text(), email).value];
        status == 201 && approval == Some(Approval(now, feedId, email, d.gridComment, Frozen(d.posts), now))
        && approvals == old(approvals) + [approval.value]
    {
      if !feedId.Truthy() || email == "" {
        return 400, None;
      }
      var found := FindDraft(drafts, feedId.Text(), email);
      if found.None? {
        return 404, None;
      }
      var d := drafts[found.value];
      var a := Approval(now, feedId, email, d.gridComment, Frozen(d.posts), now);
      approvals := approvals + [a];
      status, approval := 201, Some(a);
    }
  }

  // ---- properties ----

  /** After an upsert, reading the draft back gives what was saved. */
  lemma UpsertThenRead(drafts: seq<Draft>, d: Draft, now: int)
    requires d.clientEmail != ""
    ensures GetFeedback(Upserted(drafts, d), d.feedId.Text(), d.clientEmail, now) == Some(d)
  {
    var r := Upserted(drafts, d);
    match FindDraft(drafts, d.feedId.Text(), d.clientEmail)
    case Some(k) =>
      assert r[k] == d;
      assert forall j :: 0 <= j < k ==> r[j] == drafts[j];
      assert FindDraft(r, d.feedId.Text(), d.clientEmail) == Some(k);
    case None =>
      assert r[|drafts|] == d;
      assert forall j :: 0 <= j < |drafts| ==> r[j] == drafts[j];
      assert FindDraft(r, d.feedId.Text(), d.clientEmail) == Some(|drafts|);
  }

  /** Upserting keeps at most one draft per feed and client. */
  lemma UpsertKeepsDraftsUnique(drafts: seq<Draft>, d: Draft)
    requires UniqueDrafts(drafts)
    ensures UniqueDrafts(Upserted(drafts, d))
  {
    var r := Upserted(drafts, d);
    match FindDraft(drafts, d.feedId.Text(), d.clientEmail)
    case Some(k) =>
      forall i, j | 0 <= i < j < |r|
        ensures !(r[i].feedId.Text() == r[j].feedId.Text() && r[i].clientEmail == r[j].clientEmail)
      {
        if i == k { assert r[j] == drafts[j]; }
        else if j == k { assert r[i] == drafts[i]; }
        else { assert r[i] == drafts[i] && r[j] == drafts[j]; }
      }
    case None =>
      forall i, j | 0 <= i < j < |r|
        ensures !(r[i].feedId.Text() == r[j].feedId.Text() && r[i].clientEmail == r[j].clientEmail)
      {
        if j == |drafts| { assert r[i] == drafts[i]; }
      }
  }

  /** Creating the entry for `postId` does not move any other post's entry. */
  lemma WithEntryKeepsOthers(posts: seq<PostFeedback>, postId: JsId, other: JsId)
    requires other != postId
    ensures PostIndex(WithEntry(posts, postId), other) == PostIndex(posts, other)
  {
    var r := WithEntry(posts, postId);
    var pr := PostIndex(r, other);
    var pp := PostIndex(posts, other);
    if pp.Some? { assert r[pp.value] == posts[pp.value]; }
    if pr.Some? && pr.value < |posts| { assert r[pr.value] == posts[pr.value]; }
  }

  /** Rewriting an entry in place, keeping its post id, moves no entry. */
  lemma UpdateKeepsIndex(r: seq<PostFeedback>, k: nat, v: PostFeedback, x: JsId)
    requires k < |r| && v.postId == r[k].postId
    ensures PostIndex(r[k := v], x) == PostIndex(r, x)
  {
    var s := r[k := v];
    assert forall j :: 0 <= j < |s| ==> s[j].postId == r[j].postId;
    var ps := PostIndex(s, x);
    var pr := PostIndex(r, x);
    if ps.Some? { assert r[ps.value].postId == x; }
    if pr.Some? { assert s[pr.value].postId == x; }
  }

  /** A like sets the like of its post. */
  lemma LikeSetsItsPost(posts: seq<PostFeedback>, postId: JsId, liked: bool)
    ensures LikeOf(SetLiked(posts, postId, liked), postId) == Some(liked)
    ensures CommentsOf(SetLiked(posts, postId, liked), postId) == CommentsOf(posts, postId)
  {
    var r := WithEntry(posts, postId);
    var k := PostIndex(r, postId).value;
    UpdateKeepsIndex(r, k, r[k].(liked := liked), postId);
  }

  /** A like leaves every other post's like and comments as they were. */
  lemma LikeLeavesOtherPosts(posts: seq<PostFeedback>, postId: JsId, liked: bool, other: JsId)
    requires other != postId
    ensures LikeOf(SetLiked(posts, postId, liked), other) == LikeOf(posts, other)
    ensures CommentsOf(SetLiked(posts, postId, liked), other) == CommentsOf(posts, other)
  {
    var r := WithEntry(posts, postId);
    var k := PostIndex(r, postId).value;
    UpdateKeepsIndex(r, k, r[k].(liked := liked), other);
    WithEntryKeepsOthers(posts, postId, other);
    match PostIndex(posts, other)
    case Some(i) => assert r[i] == posts[i];
    case None =>
  }

  /** A comment lands last on its own post and keeps the post's like. */
  lemma CommentGoesToItsPost(posts: seq<PostFeedback>, postId: JsId, c: Comment)
    ensures CommentsOf(AppendComment(posts, postId, c), postId) == CommentsOf(posts, postId) + [c]
    ensures LikeOf(AppendComment(posts, postId, c), postId) == Some(LikeOf(posts, postId).GetOr(false))
  {
    var r := WithEntry(posts, postId);
    var k := PostIndex(r, postId).value;
    UpdateKeepsIndex(r, k, r[k].(comments := r[k].comments + [c]), postId);
  }

  /** A comment leaves every other post's like and comments as they were. */
  lemma CommentLeavesOtherPosts(posts: seq<PostFeedback>, postId: JsId, c: Comment, other: JsId)
    requires other != postId
    ensures LikeOf(AppendComment(posts, postId, c), other) == LikeOf(posts, other)
    ensures CommentsOf(AppendComment(posts, postId, c), other) == CommentsOf(posts, other)
  {
    var r := WithEntry(posts, postId);
    var k := PostIndex(r, postId).value;
    UpdateKeepsIndex(r, k, r[k].(comments := r[k].comments + [c]), other);
    WithEntryKeepsOthers(posts, postId, other);
    match PostIndex(posts, other)
    case Some(i) => assert r[i] == posts[i];
    case None =>
  }

  /** Deleting a comment by the id it was given removes it, together with
      any other comment stamped in the same millisecond. */
  lemma DeleteUndoesComment(cs: seq<Comment>, c: Comment)
    requires forall j :: 0 <= j < |cs| ==> cs[j].id != c.id
    ensures WithoutComment(cs + [c], c.id) == cs
  {
    Seqs.FilterAppend(cs, [c], (x: Comment) => x.id != c.id);
    Seqs.FilterKeepsAll(cs, (x: Comment) => x.id != c.id);
  }

  /** Two comments made in the same millisecond get the same id, so
      deleting either deletes both, wherever they sit among the others. */
  lemma SameMillisecondCommentsDeletedTogether(a: seq<Comment>, b: seq<Comment>, c: seq<Comment>,
                                               text1: string, text2: string, now: int)
    ensures var c1 := Comment(IntText(now), text1, now);
      var c2 := Comment(IntText(now), text2, now);
      WithoutComment(a + [c1] + b + [c2] + c, IntText(now)) == WithoutComment(a + b + c, IntText(now))
  {
    var id := IntText(now);
    var p := (x: Comment) => x.id != id;
    var c1 := Comment(id, text1, now);
    var c2 := Comment(id, text2, now);
    var fa, fb, fc := Seqs.Filter(a, p), Seqs.Filter(b, p), Seqs.Filter(c, p);
    assert Seqs.Filter([c1], p) == [] && Seqs.Filter([c2], p) == [];
    calc {
      Seqs.Filter(a + [c1] + b + [c2] + c, p);
      { Seqs.FilterAppend(a + [c1] + b + [c2], c, p); }
      Seqs.Filter(a + [c1] + b + [c2], p) + fc;
      { Seqs.FilterAppend(a + [c1] + b, [c2], p); }
      Seqs.Filter(a + [c1] + b, p) + fc;
      { Seqs.FilterAppend(a + [c1], b, p); }
      Seqs.Filter(a + [c1], p) + fb + fc;
      { Seqs.FilterAppend(a, [c1], p); assert fa + [] == fa; }
      fa + fb + fc;
      { Seqs.FilterAppend(a, b, p); }
      Seqs.Filter(a + b, p) + fc;
      { Seqs.FilterAppend(a + b, c, p); }
      Seqs.Filter(a + b + c, p);
    }
  }

  /** The log compares feed ids strictly: a client logged under a numeric
      feed id and then under its decimal text is logged a second time, and
      the listing for that feed then holds both entries. */
  lemma LooseFeedIdsLogTwice(emails: seq<EmailEntry>, n: int, email: string, now1: int, now2: int)
    requires n != 0 && IsValidEmail(email)
    requires forall j :: 0 <= j < |emails| ==> !(emails[j].feedId == Str(IntText(n)) && emails[j].email == email)
    ensures var once := Logged(emails, Num(n), email, now1);
      var twice := Logged(once, Str(IntText(n)), email, now2);
      && twice == once + [EmailEntry(Str(IntText(n)), email, now2)]
      && (exists j :: 0 <= j < |once| && once[j].feedId == Num(n) && once[j].email == email)
      && EmailEntry(Str(IntText(n)), email, now2) in EmailsForFeed(twice, IntText(n))
      && (exists e :: e in EmailsForFeed(twice, IntText(n)) && e.feedId == Num(n) && e.email == email)
  {
    var x := Str(IntText(n));
    var once := Logged(emails, Num(n), email, now1);
    assert email != "";
    if !(exists j :: 0 <= j < |emails| && emails[j].feedId == Num(n) && emails[j].email == email) {
      assert once[|emails|] == EmailEntry(Num(n), email, now1);
    }
    var j :| 0 <= j < |once| && once[j].feedId == Num(n) && once[j].email == email;
    assert x.Truthy();
    forall i | 0 <= i < |once| ensures !(once[i].feedId == x && once[i].email == email) {
      if i < |emails| { assert once[i] == emails[i]; }
    }
    var twice := Logged(once, x, email, now2);
    assert twice == once + [EmailEntry(x, email, now2)];
    assert twice[|once|] == EmailEntry(x, email, now2);
    assert twice[j] == once[j];
    assert twice[j] in EmailsForFeed(twice, IntText(n));
  }

  /** A like given before approval is what the approval records: the
      frozen payload's first entry for that post carries the like, and the
      texts of the comments the post already had. */
  lemma ApprovalRecordsLike(posts: seq<PostFeedback>, postId: JsId, liked: bool)
    ensures var f := Frozen(SetLiked(posts, postId, liked));
      exists k :: 0 <= k < |f| && f[k] == ApprovedPost(postId, liked, CommentTexts(CommentsOf(posts, postId)))
        && forall j :: 0 <= j < k ==> f[j].postId != postId
  {
    var after := SetLiked(posts, postId, liked);
    LikeSetsItsPost(posts, postId, liked);
    var k := PostIndex(after, postId).value;
    assert after[k].liked == liked && after[k].comments == CommentsOf(posts, postId);
    FrozenFirstEntry(after, postId, k);
  }

  /** The first frozen entry for a post is that post's entry, frozen. */
  lemma FrozenFirstEntry(posts: seq<PostFeedback>, postId: JsId, k: nat)
    requires PostIndex(posts, postId) == Some(k)
    ensures var f := Frozen(posts);
      0 <= k < |f| && f[k] == ApprovedPost(postId, posts[k].liked, CommentTexts(posts[k].comments))
      && forall j :: 0 <= j < k ==> f[j].postId != postId
  {
    var f := Frozen(posts);
    assert forall j :: 0 <= j < k ==> f[j].postId == posts[j].postId;
  }
}
