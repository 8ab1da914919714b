/** The review pages' copy of the client's feedback draft (`feedbackDraft`
    and `clientIdentity` in client/client.js, and the same handlers in
    client/single-client.js). The page changes its copy first and talks to
    the server second: a like is flipped before the request and flipped back
    if the request throws; comments change only after the server agrees.
    Each server answer is a parameter: `false`/`None` stands for a request
    that threw or came back not ok. */
module DraftMirror {
  import opened Options
  import opened JsText
  import opened JsIds
  import opened Feedback

  /** The draft as a page holds it. */
  datatype ClientDraft = ClientDraft(gridComment: string, posts: seq<PostFeedback>)

  /** A server draft as the page keeps it. */
  function FromServer(d: Draft): ClientDraft {
    ClientDraft(d.gridComment, d.posts)
  }

  /** The entries after the page drops comment `commentId` of `postId`,
      creating the entry first if it had none. */
  function DroppedComment(posts: seq<PostFeedback>, postId: JsId, commentId: string): seq<PostFeedback> {
    var r := WithEntry(posts, postId);
    var k := PostIndex(r, postId).value;
    r[k := r[k].(comments := WithoutComment(r[k].comments, commentId))]
  }

  class ReviewSession {
    /** The identity; `email` is `""` until one is accepted. */
    var email: string
    var feedId: string
    var draft: ClientDraft
    /** The post whose comment box is open. */
    var commentPostId: string

    constructor (feedId: string)
      ensures this.feedId == feedId && email == "" && draft == ClientDraft("", []) && commentPostId == ""
    {
      this.feedId := feedId;
      email := "";
      draft := ClientDraft("", []);
      commentPostId := "";
    }

    /** `submitEmail`: the trimmed input is adopted only when it has the
        e-mail format and the server logged it; the server's draft, when it
        sends one, then replaces the page's. */
    method SubmitEmail(input: string, logged: bool, loaded: Option<Draft>) returns (accepted: bool)
      modifies this`email, this`draft
      ensures accepted <==> IsValidEmail(Trim(input)) && logged
      ensures !accepted ==> email == old(email) && draft == old(draft)
      ensures accepted ==> email == Trim(input)
      ensures accepted && feedId != "" && loaded.Some? ==> draft == FromServer(loaded.value)
      ensures accepted && (feedId == "" || loaded.None?) ==> draft == old(draft)
    {
      var e := Trim(input);
      if e == "" || !IsValidEmail(e) {
        return false;
      }
      if !logged {
        return false;
      }
      email := e;
      if email != "" && feedId != "" && loaded.Some? {
        draft := FromServer(loaded.value);
      }
      accepted := true;
    }

    /** `getPostFeedback`: the index of the post's entry, appended unliked
        and without comments when missing. */
    method GetPostFeedback(postId: string) returns (k: nat)
      modifies this`draft
      ensures draft == old(draft).(posts := WithEntry(old(draft.posts), Str(postId)))
      ensures PostIndex(draft.posts, Str(postId)) == Some(k)
    {
      draft := draft.(posts := WithEntry(draft.posts, Str(postId)));
      k := PostIndex(draft.posts, Str(postId)).value;
    }

    /** `toggleLike`: without an e-mail nothing changes; otherwise the
        entry's like is flipped and sent, and flipped back when the request
        throws; `requestOk` is `false` only then, since the answer's status
        is not read. */
    method ToggleLike(postId: string, requestOk: bool) returns (sent: Option<bool>)
      modifies this`draft
      ensures old(email) == "" ==> sent.None? && draft == old(draft)
      ensures old(email) != "" ==> sent == Some(!LikeOf(old(draft.posts), Str(postId)).GetOr(false))
      ensures old(email) != "" && requestOk ==>
        draft == old(draft).(posts := SetLiked(old(draft.posts), Str(postId), sent.value))
      ensures old(email) != "" && !requestOk ==>
        draft == old(draft).(posts := WithEntry(old(draft.posts), Str(postId)))
    {
      if email == "" {
        return None;
      }
      ghost var before := draft.posts;
      WithEntryKeepsLike(before, Str(postId));
      var k := GetPostFeedback(postId);
      var flipped := !draft.posts[k].liked;
      draft := draft.(posts := draft.posts[k := draft.posts[k].(liked := flipped)]);
      sent := Some(flipped);
      if !requestOk {
        draft := draft.(posts := draft.posts[k := draft.posts[k].(liked := !draft.posts[k].liked)]);
        assert draft.posts == WithEntry(before, Str(postId));
      }
    }

    /** `addComment`: blank text is ignored; the comment the server returns
        is appended to the open post's entry. */
    method AddComment(input: string, response: Option<Comment>)
      modifies this`draft
      ensures Trim(input) == "" || response.None? ==> draft == old(draft)
      ensures Trim(input) != "" && response.Some? ==>
        draft == old(draft).(posts := AppendComment(old(draft.posts), Str(commentPostId), response.value))
    {
      var text := Trim(input);
      if text == "" || response.None? {
        return;
      }
      var k := GetPostFeedback(commentPostId);
      draft := draft.(posts := draft.posts[k := draft.posts[k].(comments := draft.posts[k].comments + [response.value])]);
    }

    /** `deleteComment`: once the server agrees, every comment with the id
        leaves the post's entry. */
    method DeleteComment(postId: string, commentId: string, ok: bool)
      modifies this`draft
      ensures !ok ==> draft == old(draft)
      ensures ok ==> draft == old(draft).(posts := DroppedComment(old(draft.posts), Str(postId), commentId))
    {
      if !ok {
        return;
      }
      var k := GetPostFeedback(postId);
      draft := draft.(posts := draft.posts[k := draft.posts[k].(comments := WithoutComment(draft.posts[k].comments, commentId))]);
    }

    /** `submitApproval`: a submitted draft starts over empty; a failed
        submission keeps it. */
    method SubmitApproval(ok: bool)
      modifies this`draft
      ensures ok ==> draft == ClientDraft("", [])
      ensures !ok ==> draft == old(draft)
    {
      if ok {
        draft := ClientDraft("", []);
      }
    }
  }

  // ---- properties ----

  /** Creating the entry does not change whether the post is liked. */
  lemma WithEntryKeepsLike(posts: seq<PostFeedback>, postId: JsId)
    ensures LikeOf(WithEntry(posts, postId), postId) == Some(LikeOf(posts, postId).GetOr(false))
  {
    var w := WithEntry(posts, postId);
    if PostIndex(posts, postId).None? {
      assert w[|posts|] == PostFeedback(postId, false, []);
    }
  }

  /** Flipping a like and flipping it back restores the entries, except that
      the entry now exists. */
  lemma FlipBackRestores(posts: seq<PostFeedback>, postId: JsId)
    ensures var w := WithEntry(posts, postId);
      var l := LikeOf(w, postId).value;
      SetLiked(SetLiked(posts, postId, !l), postId, l) == w
  {
    var w := WithEntry(posts, postId);
    var k := PostIndex(w, postId).value;
    var l := w[k].liked;
    var once := SetLiked(posts, postId, !l);
    UpdateKeepsIndex(w, k, w[k].(liked := !l), postId);
    assert WithEntry(once, postId) == once;
    assert once[k := once[k].(liked := l)] == w;
  }

  /** A successful toggle sends the opposite of what the page showed, so
      the server, whose copy agreed, stores what the page now shows. */
  lemma ToggleMatchesServer(posts: seq<PostFeedback>, postId: string)
    ensures var sent := !LikeOf(posts, Str(postId)).GetOr(false);
      LikeOf(SetLiked(posts, Str(postId), sent), Str(postId)) == Some(sent)
  {
    var sent := !LikeOf(posts, Str(postId)).GetOr(false);
    LikeSetsItsPost(posts, Str(postId), sent);
  }

  /** Dropping a comment the page just added takes the entry back to what it
      was, when no other comment there has that id. */
  lemma DroppedCommentUndoesAdd(posts: seq<PostFeedback>, postId: JsId, c: Comment)
    requires PostIndex(posts, postId).Some?
    requires forall j :: 0 <= j < |posts[PostIndex(posts, postId).value].comments| ==>
      posts[PostIndex(posts, postId).value].comments[j].id != c.id
    ensures DroppedComment(AppendComment(posts, postId, c), postId, c.id) == posts
  {
    var k := PostIndex(posts, postId).value;
    var added := AppendComment(posts, postId, c);
    UpdateKeepsIndex(posts, k, posts[k].(comments := posts[k].comments + [c]), postId);
    assert WithEntry(added, postId) == added;
    DeleteUndoesComment(posts[k].comments, c);
    assert added[k := added[k].(comments := WithoutComment(added[k].comments, c.id))] == posts;
  }
}
