/** The editor's posts (client/script.js) as values: how a post is created,
    which picture the grid shows for it, how cached copies override the
    Drive links, and which cached files belong to it. A field the stored
    post lacks is the empty string, which JavaScript treats as falsy like
    `undefined`. */
module EditorMedia {
  import opened Options
  import opened JsIds
  import Seqs
  import DriveUrl

  /** A post of the mock feed; `kind` is its `type` (`post`, `reel` or
      `carousel`). `images`, `cachedImages` and `imageNames` are `None`
      when the post has no such array. */
  datatype Post = Post(id: string, kind: string, caption: string, date: string, time: string,
                       url: string, cachedPath: string,
                       thumbnail: string, cachedThumbnail: string,
                       videoUrl: string, cachedVideoPath: string,
                       images: Option<seq<string>>, cachedImages: Option<seq<string>>,
                       imageNames: Option<seq<string>>)

  /** The profile header; `cachedPfp` is the local copy of `pfp`. */
  datatype Account = Account(name: string, pfp: string, cachedPfp: string, followers: string,
                             following: string, bio: string)

  /** What an upload to Drive hands back; `thumbnailUrl` is `""` when absent. */
  datatype Upload = Upload(url: string, thumbnailUrl: string)

  const MediaPlaceholder: string := "data:image/svg+xml;charset=UTF-8,%3Csvg%20xmlns%3D%22http%3A%2F%2Fwww.w3.org%2F2000%2Fsvg%22%20width%3D%22400%22%20height%3D%22400%22%3E%3Crect%20fill%3D%22%23f0f0f0%22%20width%3D%22400%22%20height%3D%22400%22%2F%3E%3Ctext%20fill%3D%22%23999%22%20x%3D%2250%25%22%20y%3D%2250%25%22%20text-anchor%3D%22middle%22%20dominant-baseline%3D%22middle%22%20font-family%3D%22sans-serif%22%20font-size%3D%2218%22%3ENo%20Media%3C%2Ftext%3E%3C%2Fsvg%3E"

  /** A post with every optional field empty. */
  function BarePost(id: string, kind: string, date: string, time: string): Post {
    Post(id, kind, "", date, time, "", "", "", "", "", "", None, None, None)
  }

  /** The post `addContent` inserts: a carousel starts with two placeholder
      images and no cached ones. */
  function NewPost(kind: string, id: string, date: string, time: string): (r: Post)
    ensures r.id == id && r.kind == kind && r.caption == ""
    ensures kind == "carousel" <==> r.images.Some?
    ensures r.images.Some? ==> r.images == Some([MediaPlaceholder, MediaPlaceholder]) && r.cachedImages == Some([])
    ensures r.images.None? ==> r.cachedImages.None? && r.imageNames.None?
    ensures r.date == date && r.time == time && r.url == "" && r.thumbnail == "" && r.videoUrl == ""
  {
    var p := BarePost(id, kind, date, time);
    if kind == "carousel" then p.(images := Some([MediaPlaceholder, MediaPlaceholder]), cachedImages := Some([]))
    else p
  }

  /** `uploadResults.map(r => r.url)`. */
  function Urls(results: seq<Upload>): (r: seq<string>)
    ensures |r| == |results| && forall i :: 0 <= i < |results| ==> r[i] == results[i].url
  {
    seq(|results|, i requires 0 <= i < |results| => results[i].url)
  }

  /** The post a Drive upload into `folderType` (other than `profiles`) adds:
      a reel from the first file, a carousel from all of them, otherwise an
      image post from the first file. */
  function UploadedPost(results: seq<Upload>, folderType: string, id: string, date: string, time: string): (r: Post)
    requires |results| > 0
    ensures r.id == id && r.caption == ""
    ensures r.kind in {"reel", "carousel", "post"}
    ensures r.kind == "reel" <==> folderType == "reels"
    ensures r.kind == "carousel" <==> folderType == "carousels"
    ensures r.kind == "carousel" ==> r.images == Some(Urls(results))
    ensures r.kind == "reel" ==> r.videoUrl == results[0].url && (results[0].url != "" ==> r.thumbnail != "")
    ensures r.kind == "reel" && results[0].thumbnailUrl != "" ==> r.thumbnail == results[0].thumbnailUrl
    ensures r.kind == "reel" && results[0].thumbnailUrl == "" ==> r.thumbnail == results[0].url
    ensures r.kind == "post" ==> r.url == results[0].url && r.thumbnail == results[0].thumbnailUrl && r.images.None?
  {
    var p := BarePost(id, "", date, time);
    if folderType == "reels" then
      p.(kind := "reel", videoUrl := results[0].url,
         thumbnail := if results[0].thumbnailUrl != "" then results[0].thumbnailUrl else results[0].url)
    else if folderType == "carousels" then
      p.(kind := "carousel", images := Some(Urls(results)))
    else
      p.(kind := "post", url := results[0].url, thumbnail := results[0].thumbnailUrl)
  }

  predicate IsReel(p: Post) {
    p.kind == "reel"
  }

  /** `posts.filter(p => p.type === 'reel')`. */
  function Reels(posts: seq<Post>): (r: seq<Post>)
    ensures forall j :: 0 <= j < |r| ==> r[j] in posts && r[j].kind == "reel"
    ensures forall j :: 0 <= j < |posts| && posts[j].kind == "reel" ==> posts[j] in r
  {
    Seqs.Filter(posts, IsReel)
  }

  /** `renderGrid`'s selection: every post on the grid tab, only reels on any other. */
  function GridPosts(posts: seq<Post>, tab: string): (r: seq<Post>)
    ensures tab == "grid" ==> r == posts
    ensures tab != "grid" ==> forall j :: 0 <= j < |r| ==> r[j] in posts && r[j].kind == "reel"
    ensures tab != "grid" ==> forall j :: 0 <= j < |posts| && posts[j].kind == "reel" ==> posts[j] in r
  {
    if tab == "grid" then posts else Reels(posts)
  }

  /** The first element of an optional array, `""` when it has none. */
  function First(xs: Option<seq<string>>): string {
    if xs.Some? && |xs.value| > 0 then xs.value[0] else ""
  }

  /** The picture `renderGrid` shows for a post: the cached copy when there
      is one, else the Drive link converted to an image link, else nothing. */
  function MediaUrl(p: Post): string {
    if p.kind == "post" then
      (if p.cachedPath != "" then p.cachedPath else DriveUrl.ConvertEditor(p.url, false))
    else if p.kind == "reel" then
      (if p.cachedThumbnail != "" then p.cachedThumbnail else DriveUrl.ConvertEditor(p.thumbnail, false))
    else if p.kind == "carousel" then
      (if First(p.cachedImages) != "" then First(p.cachedImages) else DriveUrl.ConvertEditor(First(p.images), false))
    else ""
  }

  /** What the grid tile displays: the media URL or the placeholder. */
  function TileImage(p: Post): (r: string)
    ensures r != ""
    ensures MediaUrl(p) != "" ==> r == MediaUrl(p)
    ensures MediaUrl(p) == "" ==> r == MediaPlaceholder
  {
    if MediaUrl(p) != "" then MediaUrl(p) else MediaPlaceholder
  }

  /** `cachedImages[idx] || img` for every image. */
  function MergedImages(images: seq<string>, cached: seq<string>): (r: seq<string>)
    ensures |r| == |images|
    ensures forall i :: 0 <= i < |images| ==>
      r[i] == (if i < |cached| && cached[i] != "" then cached[i] else images[i])
  {
    seq(|images|, i requires 0 <= i < |images| => if i < |cached| && cached[i] != "" then cached[i] else images[i])
  }

  /** One post as `applyCachedMediaToState` rewrites it. */
  function CachedView(p: Post): Post {
    p.(url := if p.cachedPath != "" then p.cachedPath else p.url,
       thumbnail := if p.cachedThumbnail != "" then p.cachedThumbnail else p.thumbnail,
       images := if p.cachedImages.Some? && p.images.Some?
                 then Some(MergedImages(p.images.value, p.cachedImages.value)) else p.images)
  }

  /** The account with the cached profile picture preferred. */
  function CachedAccount(a: Account): Account {
    if a.cachedPfp != "" then a.(pfp := a.cachedPfp) else a
  }

  /** The cached files `deleteCacheOnPostRemoval` asks the server to delete:
      the truthy ones among the cached path, thumbnail, video and images. */
  function CachePathsOf(p: Post): (r: seq<string>)
    ensures forall j :: 0 <= j < |r| ==> r[j] != ""
    ensures forall j :: 0 <= j < |r| ==>
      r[j] in [p.cachedPath, p.cachedThumbnail, p.cachedVideoPath] + p.cachedImages.GetOr([])
    ensures forall x :: x in [p.cachedPath, p.cachedThumbnail, p.cachedVideoPath] + p.cachedImages.GetOr([]) && x != "" ==> x in r
  {
    Seqs.Filter([p.cachedPath, p.cachedThumbnail, p.cachedVideoPath] + p.cachedImages.GetOr([]), (x: string) => x != "")
  }

  // ---- properties ----

  /** Applying the cached copies keeps the post's identity, kind and number
      of images, and overrides a link only with a truthy cached value. */
  lemma CachedViewKeepsShape(p: Post)
    ensures var q := CachedView(p);
      && q.id == p.id && q.kind == p.kind && q.caption == p.caption
      && q.images.Some? == p.images.Some?
      && (q.images.Some? ==> |q.images.value| == |p.images.value|)
      && (q.url != p.url ==> q.url == p.cachedPath != "")
      && (q.thumbnail != p.thumbnail ==> q.thumbnail == p.cachedThumbnail != "")
      && (q.images.Some? ==> forall i :: 0 <= i < |p.images.value| && q.images.value[i] != p.images.value[i] ==>
            i < |p.cachedImages.value| && q.images.value[i] == p.cachedImages.value[i] != "")
  {
  }

  /** Applying the cached copies twice is applying them once. */
  lemma CachedViewIdempotent(p: Post)
    ensures CachedView(CachedView(p)) == CachedView(p)
  {
    var q := CachedView(p);
    if q.images.Some? && q.cachedImages.Some? {
      var m := MergedImages(q.images.value, q.cachedImages.value);
      assert m == q.images.value;
    }
  }

  /** The grid shows the same picture before and after the cached copies are
      applied: the grid already prefers them. */
  lemma CachedViewKeepsTile(p: Post)
    ensures MediaUrl(CachedView(p)) == MediaUrl(p)
  {
    var q := CachedView(p);
    if p.kind == "carousel" && First(p.cachedImages) == "" && p.images.Some? && p.cachedImages.Some? && |p.images.value| > 0 {
      assert q.images.value[0] == p.images.value[0];
    }
  }

  /** A profile picture that has a cached copy is shown from it. */
  lemma CachedAccountPrefersCopy(a: Account)
    ensures CachedAccount(a).cachedPfp == a.cachedPfp
    ensures a.cachedPfp != "" ==> CachedAccount(a).pfp == a.cachedPfp
    ensures a.cachedPfp == "" ==> CachedAccount(a) == a
  {
  }

  /** A reel uploaded without a thumbnail shows the converted video link. */
  lemma UploadedReelShowsVideo(results: seq<Upload>, id: string, date: string, time: string)
    requires |results| > 0 && results[0].thumbnailUrl == ""
    ensures MediaUrl(UploadedPost(results, "reels", id, date, time)) == DriveUrl.ConvertEditor(results[0].url, false)
  {
  }

  /** Showing the grid is independent of how many times the tab filter runs. */
  lemma GridPostsIdempotent(posts: seq<Post>, tab: string)
    ensures GridPosts(GridPosts(posts, tab), tab) == GridPosts(posts, tab)
  {
    if tab != "grid" {
      Seqs.FilterKeepsAll(GridPosts(posts, tab), IsReel);
    }
  }
}
