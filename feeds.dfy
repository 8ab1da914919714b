/** The feed store of the server (`Data/feeds.json`) and its four routes:
    list the signed-in user's feeds, read one (owner-checked or public),
    create one and delete one. Reading a route's JSON file is reading the
    `feeds` sequence; writing it back is assigning the field. */
module Feeds {
  import opened Options
  import opened JsText
  import opened JsIds
  import Seqs

  /** A stored feed. `state` is the editor state, kept as opaque JSON text;
      `userId` is `""` on feeds written before ownership existed. */
  datatype Feed = Feed(id: JsId, kind: string, name: string, state: string, userId: string, createdAt: int)

  /** What a read route answers: the feed, or an HTTP error status. */
  datatype Reply = Found(feed: Feed) | NotFound | Denied

  /** The route parameter selects a feed when `parseInt` of it equals the
      numeric id, or when it is the id's `toString()`. */
  predicate ParamSelects(p: string, id: JsId) {
    (id.Num? && ParseInt(p) == Some(id.n)) || id.Text() == p
  }

  /** `GET /api/feeds`: the feeds whose owner is the signed-in user. */
  function ListFeeds(feeds: seq<Feed>, user: string): (r: seq<Feed>)
    ensures forall j :: 0 <= j < |r| ==> r[j] in feeds && r[j].userId == user
    ensures forall j :: 0 <= j < |feeds| && feeds[j].userId == user ==> feeds[j] in r
  {
    Seqs.Filter(feeds, (f: Feed) => f.userId == user)
  }

  /** `GET /api/public/feeds/:id`: the first selected feed, whoever owns it. */
  function GetPublicFeed(feeds: seq<Feed>, p: string): (r: Reply)
    ensures r.NotFound? <==> forall j :: 0 <= j < |feeds| ==> !ParamSelects(p, feeds[j].id)
    ensures r.Found? ==> r.feed in feeds && ParamSelects(p, r.feed.id)
    ensures !r.Denied?
  {
    match Seqs.Find(feeds, (f: Feed) => ParamSelects(p, f.id))
    case None => NotFound
    case Some(f) => Found(f)
  }

  /** `GET /api/feeds/:id`: the same lookup, refused when the feed has an
      owner other than the signed-in user. */
  function GetFeed(feeds: seq<Feed>, p: string, user: string): (r: Reply)
    ensures r.NotFound? <==> GetPublicFeed(feeds, p).NotFound?
    ensures r.Found? <==> GetPublicFeed(feeds, p).Found? && GetPublicFeed(feeds, p).feed.userId in {"", user}
    ensures r.Found? ==> r == GetPublicFeed(feeds, p)
  {
    match GetPublicFeed(feeds, p)
    case Found(f) => if f.userId != "" && f.userId != user then Denied else Found(f)
    case other => other
  }

  /** The feed of the delete route: the first whose id is the number `parseInt` reads. */
  function DeleteTarget(feeds: seq<Feed>, p: string): (r: Option<Feed>)
    ensures r.Some? <==> ParseInt(p).Some? && exists j :: 0 <= j < |feeds| && feeds[j].id == Num(ParseInt(p).value)
    ensures r.Some? ==> r.value in feeds && r.value.id == Num(ParseInt(p).value)
  {
    match ParseInt(p)
    case None => None
    case Some(n) => Seqs.Find(feeds, (f: Feed) => f.id == Num(n))
  }

  /** The feeds that survive deleting numeric id `n`: none carries that id,
      every other one is kept. */
  function WithoutId(feeds: seq<Feed>, n: int): (r: seq<Feed>)
    ensures forall j :: 0 <= j < |r| ==> r[j] in feeds && r[j].id != Num(n)
    ensures forall j :: 0 <= j < |feeds| && feeds[j].id != Num(n) ==> feeds[j] in r
  {
    Seqs.Filter(feeds, (f: Feed) => f.id != Num(n))
  }

  class FeedStore {
    var feeds: seq<Feed>

    constructor ()
      ensures feeds == []
    {
      feeds := [];
    }

    /** `POST /api/feeds`: append a feed stamped with the clock and the user. */
    method Create(kind: string, name: string, state: string, user: string, now: int) returns (f: Feed)
      modifies this
      ensures feeds == old(feeds) + [f]
      ensures f == Feed(Num(now), if kind == "" then "Grid" else kind, name, state, user, now)
    {
      f := Feed(Num(now), if kind == "" then "Grid" else kind, name, state, user, now);
      feeds := feeds + [f];
    }

    /** `DELETE /api/feeds/:id`: 404 without a numeric match, 403 when the
        first match belongs to someone else, otherwise every feed with that
        numeric id is removed. */
    method Delete(p: string, user: string) returns (status: nat)
      modifies this
      ensures DeleteTarget(old(feeds), p).None? ==> status == 404 && feeds == old(feeds)
      ensures DeleteTarget(old(feeds), p).Some? && DeleteTarget(old(feeds), p).value.userId !in {"", user}
        ==> status == 403 && feeds == old(feeds)
      ensures DeleteTarget(old(feeds), p).Some? && DeleteTarget(old(feeds), p).value.userId in {"", user}
        ==> status == 200 && feeds == WithoutId(old(feeds), ParseInt(p).value)
    {
      var target := DeleteTarget(feeds, p);
      if target.None? {
        return 404;
      }
      if target.value.userId != "" && target.value.userId != user {
        return 403;
      }
      var n := ParseInt(p).value;
      feeds := WithoutId(feeds, n);
      status := 200;
    }
  }

  // ---- properties ----

  /** A freshly created feed is found under its printed id by its owner,
      provided no older feed answers to that text. */
  lemma CreatedFeedIsFound(feeds: seq<Feed>, f: Feed, n: int)
    requires f.id == Num(n)
    requires forall j :: 0 <= j < |feeds| ==> !ParamSelects(IntText(n), feeds[j].id)
    ensures GetFeed(feeds + [f], IntText(n), f.userId) == Found(f)
  {
    var s := feeds + [f];
    assert ParamSelects(IntText(n), s[|feeds|].id);
    assert forall j :: 0 <= j < |feeds| ==> s[j] == feeds[j];
  }

  /** A feed without an owner is readable by every signed-in user yet listed
      for none. */
  lemma OwnerlessFeedHiddenButReadable(feeds: seq<Feed>, p: string, user: string)
    requires GetPublicFeed(feeds, p).Found? && GetPublicFeed(feeds, p).feed.userId == ""
    requires user != ""
    ensures GetFeed(feeds, p, user) == GetPublicFeed(feeds, p)
    ensures GetPublicFeed(feeds, p).feed !in ListFeeds(feeds, user)
  {
  }

  /** A feed whose stored id is a string can be read but never deleted:
      the delete route only compares against a number. */
  lemma StringIdsAreUndeletable(feeds: seq<Feed>, p: string)
    requires forall j :: 0 <= j < |feeds| ==> feeds[j].id.Str?
    ensures DeleteTarget(feeds, p).None?
  {
  }

  /** `GET` with a zero-padded or signed parameter reaches the same numeric
      feed as its canonical form. */
  lemma PaddedParamSelects(n: nat)
    ensures ParamSelects("0" + IntText(n), Num(n))
    ensures ParamSelects(" +" + IntText(n), Num(n))
  {
    ZeroPadded(n);
    SignedWithSpace(n);
  }

  lemma ZeroPadded(n: nat)
    ensures ParseInt("0" + Decimal(n)) == Some(n)
  {
    var d := Decimal(n);
    var s := "0" + d;
    assert s[1..] == d;
    assert AllDigits(s);
    DigitPrefixAll(s);
    DecimalRoundTrip(n);
    LeadingZero(d);
  }

  lemma SignedWithSpace(n: nat)
    ensures ParseInt(" +" + Decimal(n)) == Some(n)
  {
    var d := Decimal(n);
    var s := " +" + d;
    assert s[1..] == "+" + d;
    assert SkipSpace("+" + d) == "+" + d;
    assert SkipSpace(s) == "+" + d;
    assert ("+" + d)[1..] == d;
    DigitPrefixAll(d);
    DecimalRoundTrip(n);
  }

  lemma {:induction false} LeadingZero(d: string)
    requires AllDigits(d)
    ensures AllDigits("0" + d) && DigitsValue("0" + d) == DigitsValue(d)
    decreases |d|
  {
    if d != [] {
      var s := "0" + d;
      assert s[..|s| - 1] == "0" + d[..|d| - 1];
      LeadingZero(d[..|d| - 1]);
    }
  }
}
