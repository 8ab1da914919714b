/** Google Drive link normalisation, as the editor (client/script.js, and the
    identical copy in client/client.js) and the single-post view
    (client/single-client.js) each implement it with regular expressions.
    A regular expression of the form `(lit1|lit2|...)([a-zA-Z0-9_-]+)` is
    modelled by its list of literal alternatives; `String.prototype.match`
    returns the leftmost match and the greedy capture. */
module DriveUrl {
  import opened Options

  predicate IsIdChar(c: char) {
    ('a' <= c <= 'z') || ('A' <= c <= 'Z') || ('0' <= c <= '9') || c == '_' || c == '-'
  }

  /** A non-empty run of `[a-zA-Z0-9_-]`: what the capture group can yield. */
  predicate IsDriveId(x: string) {
    |x| > 0 && forall i :: 0 <= i < |x| ==> IsIdChar(x[i])
  }

  /** The greedy capture `([a-zA-Z0-9_-]+)` read from position `i`. */
  function IdRun(s: string, i: nat): (r: string)
    requires i <= |s|
    ensures i + |r| <= |s| && r == s[i..i + |r|]
    ensures forall j :: 0 <= j < |r| ==> IsIdChar(r[j])
    ensures i + |r| < |s| ==> !IsIdChar(s[i + |r|])
    decreases |s| - i
  {
    if i < |s| && IsIdChar(s[i]) then [s[i]] + IdRun(s, i + 1) else []
  }

  predicate LitAt(s: string, p: nat, lit: string) {
    p + |lit| <= |s| && s[p..p + |lit|] == lit
  }

  /** Where the capture starts if literal `lit` occurs at `p` and an id
      character follows it. */
  function LitEnd(s: string, p: nat, lit: string): (r: Option<nat>)
    ensures r.Some? ==> r.value == p + |lit| && LitAt(s, p, lit)
    ensures r.Some? ==> r.value < |s| && IsIdChar(s[r.value])
  {
    if LitAt(s, p, lit) && p + |lit| < |s| && IsIdChar(s[p + |lit|]) then Some(p + |lit|) else None
  }

  function Or(a: Option<nat>, b: Option<nat>): Option<nat> {
    if a.Some? then a else b
  }

  /** The four regular expressions of the two converters. */
  datatype Pattern =
    | FileLink    // /drive\.google\.com\/file\/d\/([a-zA-Z0-9_-]+)/
    | QueryId     // /[?&]id=([a-zA-Z0-9_-]+)/
    | EndpointId  // /(?:thumbnail|uc)\?id=([a-zA-Z0-9_-]+)/
    | AnyId       // /[?&/]id=([a-zA-Z0-9_-]+)/, the single-post view's only one

  /** Where the capture starts when `pat` matches at `p` (alternatives are
      tried left to right). */
  function AltEnd(s: string, p: nat, pat: Pattern): (r: Option<nat>)
    ensures r.Some? ==> p < r.value < |s| && IsIdChar(s[r.value])
  {
    match pat
    case FileLink => LitEnd(s, p, "drive.google.com/file/d/")
    case QueryId => Or(LitEnd(s, p, "?id="), LitEnd(s, p, "&id="))
    case EndpointId => Or(LitEnd(s, p, "thumbnail?id="), LitEnd(s, p, "uc?id="))
    case AnyId => Or(LitEnd(s, p, "?id="), Or(LitEnd(s, p, "&id="), LitEnd(s, p, "/id=")))
  }

  /** The capture of the leftmost match starting at or after `p`. */
  function SearchFrom(s: string, p: nat, pat: Pattern): (r: Option<string>)
    ensures r.Some? ==> IsDriveId(r.value)
    decreases |s| - p
  {
    if p >= |s| then None
    else match AltEnd(s, p, pat)
      case Some(e) => Some(IdRun(s, e))
      case None => SearchFrom(s, p + 1, pat)
  }

  /** The search fails exactly when the pattern matches at no position. */
  lemma {:induction false} SearchNoneIff(s: string, p: nat, pat: Pattern)
    ensures SearchFrom(s, p, pat).None? ==> forall k :: p <= k < |s| ==> AltEnd(s, k, pat).None?
    ensures (forall k :: p <= k < |s| ==> AltEnd(s, k, pat).None?) ==> SearchFrom(s, p, pat).None?
    decreases |s| - p
  {
    if p < |s| {
      SearchNoneIff(s, p + 1, pat);
      if AltEnd(s, p, pat).None? {
        assert SearchFrom(s, p, pat) == SearchFrom(s, p + 1, pat);
      } else {
        assert SearchFrom(s, p, pat).Some?;
        assert p <= p < |s| && !AltEnd(s, p, pat).None?;
      }
    }
  }

  /** Positions with no match can be skipped. */
  lemma {:induction false} SearchSkip(s: string, p: nat, q: nat, pat: Pattern)
    requires p <= q
    requires forall k :: p <= k < q ==> AltEnd(s, k, pat).None?
    ensures SearchFrom(s, p, pat) == SearchFrom(s, q, pat)
    decreases q - p
  {
    if p < q && p < |s| { SearchSkip(s, p + 1, q, pat); }
  }

  /** The capture ends exactly where the run of id characters ends. */
  lemma {:induction false} IdRunExact(s: string, i: nat, x: string)
    requires i + |x| <= |s| && s[i..i + |x|] == x
    requires forall j :: 0 <= j < |x| ==> IsIdChar(x[j])
    requires i + |x| == |s| || !IsIdChar(s[i + |x|])
    ensures IdRun(s, i) == x
    decreases |x|
  {
    if x != [] {
      assert s[i] == x[0];
      assert s[i + 1..i + 1 + |x[1..]|] == x[1..];
      IdRunExact(s, i + 1, x[1..]);
    }
  }

  const ImagePrefix: string := "https://drive.google.com/thumbnail?id="
  const ImageSuffix: string := "&sz=w1600"
  const VideoPrefix: string := "https://drive.google.com/uc?export=download&id="

  /** The two forms a recognised link is rewritten to. */
  function OutputUrl(id: string, isVideo: bool): string {
    if isVideo then VideoPrefix + id else ImagePrefix + id + ImageSuffix
  }

  /** The editor's id extraction: the `/file/d/` form first, then `?id=`/`&id=`,
      then `thumbnail?id=`/`uc?id=`. */
  function EditorFileId(url: string): Option<string> {
    var a := SearchFrom(url, 0, FileLink);
    if a.Some? then a
    else
      var b := SearchFrom(url, 0, QueryId);
      if b.Some? then b else SearchFrom(url, 0, EndpointId)
  }

  /** `convertGoogleDriveUrl` of the editor (an empty string stands for any
      falsy input). */
  function ConvertEditor(url: string, isVideo: bool): (r: string)
    ensures url == [] ==> r == url
    ensures r == url || exists id :: IsDriveId(id) && r == OutputUrl(id, isVideo)
  {
    if url == [] then url
    else match EditorFileId(url)
      case Some(id) => OutputUrl(id, isVideo)
      case None => url
  }

  /** `convertGoogleDriveUrl` of the single-post view: one pattern only. */
  function ConvertSingle(url: string, isVideo: bool): (r: string)
    ensures url == [] ==> r == url
    ensures r == url || exists id :: IsDriveId(id) && r == OutputUrl(id, isVideo)
  {
    if url == [] then url
    else match SearchFrom(url, 0, AnyId)
      case Some(id) => OutputUrl(id, isVideo)
      case None => url
  }

  // ---- properties ----

  /** The leftmost match decides the capture. */
  lemma LeftmostMatchDecides(s: string, k: nat, pat: Pattern)
    requires k < |s| && AltEnd(s, k, pat).Some?
    requires forall j :: 0 <= j < k ==> AltEnd(s, j, pat).None?
    ensures SearchFrom(s, 0, pat) == Some(IdRun(s, AltEnd(s, k, pat).value))
  {
    SearchSkip(s, 0, k, pat);
  }

  /** A link neither form of the editor recognises comes back unchanged. */
  lemma ConvertEditorLeavesUnrecognised(url: string, isVideo: bool)
    requires forall k :: 0 <= k < |url| ==> AltEnd(url, k, FileLink).None? && AltEnd(url, k, QueryId).None?
    ensures ConvertEditor(url, isVideo) == url
  {
    SearchNoneIff(url, 0, FileLink);
    SearchNoneIff(url, 0, QueryId);
    EndpointPatternRedundant(url);
  }

  /** Without a `/file/d/` link, the leftmost `?id=` or `&id=` decides the
      output, carrying the id read after it. */
  lemma ConvertEditorUsesLeftmostQuery(url: string, isVideo: bool, k: nat)
    requires forall j :: 0 <= j < |url| ==> AltEnd(url, j, FileLink).None?
    requires k < |url| && AltEnd(url, k, QueryId).Some?
    requires forall j :: 0 <= j < k ==> AltEnd(url, j, QueryId).None?
    ensures ConvertEditor(url, isVideo) == OutputUrl(IdRun(url, AltEnd(url, k, QueryId).value), isVideo)
  {
    SearchNoneIff(url, 0, FileLink);
    LeftmostMatchDecides(url, k, QueryId);
  }

  /** The leftmost `/file/d/` link decides the output. */
  lemma ConvertEditorUsesLeftmostFileLink(url: string, isVideo: bool, k: nat)
    requires k < |url| && AltEnd(url, k, FileLink).Some?
    requires forall j :: 0 <= j < k ==> AltEnd(url, j, FileLink).None?
    ensures ConvertEditor(url, isVideo) == OutputUrl(IdRun(url, AltEnd(url, k, FileLink).value), isVideo)
  {
    LeftmostMatchDecides(url, k, FileLink);
  }

  /** The single-post view leaves a link without `?id=`, `&id=` or `/id=`
      unchanged, and otherwise uses the leftmost one. */
  lemma ConvertSingleLeavesUnrecognised(url: string, isVideo: bool)
    requires forall k :: 0 <= k < |url| ==> AltEnd(url, k, AnyId).None?
    ensures ConvertSingle(url, isVideo) == url
  {
    SearchNoneIff(url, 0, AnyId);
  }

  lemma ConvertSingleUsesLeftmost(url: string, isVideo: bool, k: nat)
    requires k < |url| && AltEnd(url, k, AnyId).Some?
    requires forall j :: 0 <= j < k ==> AltEnd(url, j, AnyId).None?
    ensures ConvertSingle(url, isVideo) == OutputUrl(IdRun(url, AltEnd(url, k, AnyId).value), isVideo)
  {
    LeftmostMatchDecides(url, k, AnyId);
  }

  /** The `/file/d/{id}` form wins over any `id=` parameter in the same link. */
  lemma FileLinkTakesPriority(url: string, isVideo: bool, id: string)
    requires SearchFrom(url, 0, FileLink) == Some(id)
    ensures ConvertEditor(url, isVideo) == OutputUrl(id, isVideo)
  {
  }

  /** Wherever `thumbnail?id=X` or `uc?id=X` matches, `?id=X` matches four
      characters before the capture. */
  lemma EndpointImpliesQuery(url: string, k: nat)
    requires AltEnd(url, k, EndpointId).Some?
    ensures AltEnd(url, AltEnd(url, k, EndpointId).value - 4, QueryId).Some?
  {
    var e := AltEnd(url, k, EndpointId).value;
    if LitEnd(url, k, "thumbnail?id=").Some? {
      assert url[e - 4..e] == url[k..k + 13][9..13];
    } else {
      assert url[e - 4..e] == url[k..k + 6][2..6];
    }
    assert LitEnd(url, e - 4, "?id=").Some?;
  }

  /** The third pattern never fires: wherever it matches, the second one
      matches too, so the second search already succeeded. */
  lemma EndpointPatternRedundant(url: string)
    requires SearchFrom(url, 0, QueryId).None?
    ensures SearchFrom(url, 0, EndpointId).None?
  {
    SearchNoneIff(url, 0, QueryId);
    forall k: nat | k < |url| ensures AltEnd(url, k, EndpointId).None? {
      if AltEnd(url, k, EndpointId).Some? {
        EndpointImpliesQuery(url, k);
        assert false;
      }
    }
    SearchNoneIff(url, 0, EndpointId);
  }

  /** A literal does not occur at `p` when one of its characters disagrees
      with the text (or runs past its end). */
  lemma LitMismatch(s: string, p: nat, lit: string, j: nat)
    requires j < |lit| && (p + j >= |s| || s[p + j] != lit[j])
    ensures LitEnd(s, p, lit).None?
  {
  }

  const Host: string := "https://drive.google.com/"
  const FileLinkLit: string := "drive.google.com/file/d/"

  lemma HostFacts()
    ensures |Host| == 25 && |FileLinkLit| == 24
    ensures forall k :: 0 <= k < 25 ==> Host[k] != '?' && Host[k] != '&'
    ensures Host[0] != FileLinkLit[0] && Host[1] != FileLinkLit[0] && FileLinkLit[23] == '/'
  {}

  lemma ImagePrefixFacts()
    ensures |ImagePrefix| == 38 && ImagePrefix[..25] == Host && ImagePrefix[34..38] == "?id="
    ensures forall k :: 0 <= k < 34 ==> ImagePrefix[k] != '?' && ImagePrefix[k] != '&'
    ensures forall k :: 25 <= k < 38 ==> ImagePrefix[k] != '/'
    ensures forall k :: 0 <= k < |ImageSuffix| ==> ImageSuffix[k] != '/'
    ensures ImageSuffix[0] == '&'
  {}

  lemma VideoPrefixFacts()
    ensures |VideoPrefix| == 47 && VideoPrefix[..25] == Host && VideoPrefix[43..47] == "&id="
    ensures forall k :: 0 <= k < 27 ==> VideoPrefix[k] != '?' && VideoPrefix[k] != '&'
    ensures forall k :: 28 <= k < 43 ==> VideoPrefix[k] != '?' && VideoPrefix[k] != '&'
    ensures VideoPrefix[28] == 'e'
    ensures forall k :: 25 <= k < 47 ==> VideoPrefix[k] != '/'
  {
    HostFacts();
    forall k | 0 <= k < 25 ensures VideoPrefix[k] == Host[k] {
      assert VideoPrefix[k] == VideoPrefix[..25][k];
    }
  }

  /** The `/file/d/` literal cannot occur at `k` in a link whose only `/`
      after the scheme are those of `https://drive.google.com/`. */
  lemma FileLinkNotAt(s: string, k: nat)
    requires |s| >= 25 && s[..25] == Host
    requires forall i :: 25 <= i < |s| ==> s[i] != '/'
    ensures AltEnd(s, k, FileLink).None?
  {
    HostFacts();
    if k >= 2 {
      LitMismatch(s, k, FileLinkLit, 23);
    } else {
      assert s[k] == s[..25][k] == Host[k];
      LitMismatch(s, k, FileLinkLit, 0);
    }
  }

  /** No `drive.google.com/file/d/` occurs in `https://drive.google.com/`
      followed by slash-free text. */
  lemma NoFileLinkAfterHost(s: string)
    requires |s| >= 25 && s[..25] == Host
    requires forall i :: 25 <= i < |s| ==> s[i] != '/'
    ensures SearchFrom(s, 0, FileLink).None?
  {
    forall k | 0 <= k < |s| ensures AltEnd(s, k, FileLink).None? {
      FileLinkNotAt(s, k);
    }
    SearchNoneIff(s, 0, FileLink);
  }

  /** Neither `?id=` nor `&id=` starts at a position holding another character. */
  lemma QueryNotAt(s: string, k: nat)
    requires k < |s| && s[k] != '?' && s[k] != '&'
    ensures AltEnd(s, k, QueryId).None?
  {
    LitMismatch(s, k, "?id=", 0);
    LitMismatch(s, k, "&id=", 0);
  }

  /** The image form is a fixed point of the editor's extraction. */
  lemma ImageUrlExtractsId(id: string)
    requires IsDriveId(id)
    ensures EditorFileId(OutputUrl(id, false)) == Some(id)
  {
    ImageUrlHasNoFileLink(id);
    ImageUrlQueryFindsId(id);
  }

  /** After its host, the image form has no `/`, so no `/file/d/` link. */
  lemma ImageUrlHasNoFileLink(id: string)
    requires IsDriveId(id)
    ensures SearchFrom(OutputUrl(id, false), 0, FileLink).None?
  {
    var s := OutputUrl(id, false);
    ImagePrefixFacts();
    assert s[..38] == ImagePrefix;
    assert s[38..38 + |id|] == id;
    assert s[..25] == Host by { assert s[..25] == s[..38][..25]; }
    forall i | 25 <= i < |s| ensures s[i] != '/' {
      if i < 38 { assert s[i] == ImagePrefix[i]; }
      else if i < 38 + |id| { assert s[i] == id[i - 38]; }
      else { assert s[i] == ImageSuffix[i - 38 - |id|]; }
    }
    NoFileLinkAfterHost(s);
  }

  /** The first `?id=` of the image form is followed by the id. */
  lemma ImageUrlQueryFindsId(id: string)
    requires IsDriveId(id)
    ensures SearchFrom(OutputUrl(id, false), 0, QueryId) == Some(id)
  {
    var s := OutputUrl(id, false);
    ImagePrefixFacts();
    assert s[..38] == ImagePrefix;
    assert s[38..38 + |id|] == id;
    forall k | 0 <= k < 34 ensures AltEnd(s, k, QueryId).None? {
      assert s[k] == ImagePrefix[k];
      QueryNotAt(s, k);
    }
    SearchSkip(s, 0, 34, QueryId);
    assert s[34..38] == s[..38][34..38];
    assert LitAt(s, 34, "?id=") && s[38] == id[0];
    assert s[38 + |id|] == ImageSuffix[0];
    IdRunExact(s, 38, id);
  }

  lemma VideoUrlExtractsId(id: string)
    requires IsDriveId(id)
    ensures EditorFileId(OutputUrl(id, true)) == Some(id)
  {
    VideoUrlHasNoFileLink(id);
    VideoUrlQueryFindsId(id);
  }

  /** After its host, the video form has no `/`, so no `/file/d/` link. */
  lemma VideoUrlHasNoFileLink(id: string)
    requires IsDriveId(id)
    ensures SearchFrom(OutputUrl(id, true), 0, FileLink).None?
  {
    var s := OutputUrl(id, true);
    VideoPrefixFacts();
    assert s[..47] == VideoPrefix;
    assert s[47..] == id;
    assert s[..25] == Host by { assert s[..25] == s[..47][..25]; }
    forall i | 25 <= i < |s| ensures s[i] != '/' {
      if i < 47 { assert s[i] == VideoPrefix[i]; }
      else { assert s[i] == id[i - 47]; }
    }
    NoFileLinkAfterHost(s);
  }

  /** The first `?id=` or `&id=` of the video form is followed by the id. */
  lemma VideoUrlQueryFindsId(id: string)
    requires IsDriveId(id)
    ensures SearchFrom(OutputUrl(id, true), 0, QueryId) == Some(id)
  {
    var s := OutputUrl(id, true);
    VideoPrefixFacts();
    assert s[..47] == VideoPrefix;
    assert s[47..] == id;
    forall k | 0 <= k < 43 ensures AltEnd(s, k, QueryId).None? {
      assert s[k] == VideoPrefix[k];
      if k == 27 {
        assert s[28] == 'e';
        LitMismatch(s, k, "?id=", 1);
        LitMismatch(s, k, "&id=", 0);
      } else {
        QueryNotAt(s, k);
      }
    }
    SearchSkip(s, 0, 43, QueryId);
    assert s[43..47] == s[..47][43..47];
    assert LitAt(s, 43, "&id=") && s[47] == id[0];
    IdRunExact(s, 47, id);
  }

  lemma ConvertEditorIdempotent(url: string, isVideo: bool)
    ensures ConvertEditor(ConvertEditor(url, isVideo), isVideo) == ConvertEditor(url, isVideo)
  {
    match EditorFileId(url)
    case None =>
    case Some(id) =>
      if url != [] {
        if isVideo { VideoUrlExtractsId(id); } else { ImageUrlExtractsId(id); }
      }
  }

  /** Every alternative of the single-post pattern contains `=`. */
  lemma NoEqualsNoMatch(url: string)
    requires forall i :: 0 <= i < |url| ==> url[i] != '='
    ensures SearchFrom(url, 0, AnyId).None?
  {
    forall k: nat | k < |url| ensures AltEnd(url, k, AnyId).None? {
      LitMismatch(url, k, "?id=", 3);
      LitMismatch(url, k, "&id=", 3);
      LitMismatch(url, k, "/id=", 3);
    }
    SearchNoneIff(url, 0, AnyId);
  }

  const Scheme: string := "https://"
  const FileLinkPrefix: string := Scheme + FileLinkLit

  lemma SchemeFacts()
    ensures |Scheme| == 8
    ensures forall k :: 0 <= k < 8 ==> Scheme[k] != FileLinkLit[0] && Scheme[k] != '='
  {}

  lemma FileLinkLitHasNoEquals()
    ensures forall k :: 0 <= k < |FileLinkLit| ==> FileLinkLit[k] != '='
  {}

  lemma FileLinkPrefixFacts()
    ensures |FileLinkPrefix| == 32 && FileLinkPrefix[8..] == FileLinkLit
    ensures forall k :: 0 <= k < 8 ==> FileLinkPrefix[k] != FileLinkLit[0]
    ensures forall k :: 0 <= k < 32 ==> FileLinkPrefix[k] != '='
    ensures forall k :: 0 <= k < 5 ==> "/view"[k] != '=' && !IsIdChar("/view"[0])
  {
    HostFacts();
    SchemeFacts();
    FileLinkLitHasNoEquals();
    forall k | 0 <= k < 32 ensures FileLinkPrefix[k] != '=' && (k < 8 ==> FileLinkPrefix[k] != FileLinkLit[0]) {
      if k < 8 {
        assert FileLinkPrefix[k] == Scheme[k];
      } else {
        assert FileLinkPrefix[k] == FileLinkLit[k - 8];
      }
    }
  }

  /** A sharing link `https://drive.google.com/file/d/{id}/view` is rewritten
      by the editor and returned unchanged by the single-post view. */
  lemma VariantsDisagreeOnFileLinks(id: string)
    requires IsDriveId(id)
    ensures ConvertEditor(FileLinkPrefix + id + "/view", false) == OutputUrl(id, false)
    ensures ConvertSingle(FileLinkPrefix + id + "/view", false) == FileLinkPrefix + id + "/view"
  {
    var s := FileLinkPrefix + id + "/view";
    FileLinkPrefixFacts();
    assert s[..32] == FileLinkPrefix;
    assert s[32..32 + |id|] == id;
    forall i | 0 <= i < |s| ensures s[i] != '=' {
      if i < 32 { assert s[i] == FileLinkPrefix[i]; }
      else if i < 32 + |id| { assert s[i] == id[i - 32]; }
      else { assert s[i] == "/view"[i - 32 - |id|]; }
    }
    NoEqualsNoMatch(s);
    forall k | 0 <= k < 8 ensures AltEnd(s, k, FileLink).None? {
      assert s[k] == FileLinkPrefix[k];
      LitMismatch(s, k, FileLinkLit, 0);
    }
    SearchSkip(s, 0, 8, FileLink);
    assert s[8..32] == s[..32][8..];
    assert LitAt(s, 8, FileLinkLit) && s[32] == id[0];
    assert s[32 + |id|] == '/';
    IdRunExact(s, 32, id);
  }

  /** Where no `/id=` occurs, the single-post pattern matches where `?id=`/`&id=` does. */
  lemma AnyIsQueryAt(url: string, k: nat)
    requires !LitAt(url, k, "/id=")
    ensures AltEnd(url, k, AnyId) == AltEnd(url, k, QueryId)
  {
  }

  /** Without `/file/d/` links and `/id=` forms, both extractions yield the same id. */
  lemma SameExtractedId(url: string)
    requires SearchFrom(url, 0, FileLink).None?
    requires forall k :: 0 <= k < |url| ==> !LitAt(url, k, "/id=")
    ensures EditorFileId(url) == SearchFrom(url, 0, AnyId)
  {
    forall k | 0 <= k < |url| ensures AltEnd(url, k, AnyId) == AltEnd(url, k, QueryId) {
      AnyIsQueryAt(url, k);
    }
    SameSearch(url, 0);
    if SearchFrom(url, 0, QueryId).None? { EndpointPatternRedundant(url); }
  }

  /** Apart from `/file/d/` links and `/id=` forms, the two variants agree. */
  lemma VariantsAgreeOtherwise(url: string, isVideo: bool)
    requires SearchFrom(url, 0, FileLink).None?
    requires forall k :: 0 <= k < |url| ==> !LitAt(url, k, "/id=")
    ensures ConvertSingle(url, isVideo) == ConvertEditor(url, isVideo)
  {
    SameExtractedId(url);
    SameIdSameUrl(url, isVideo);
  }

  lemma SameIdSameUrl(url: string, isVideo: bool)
    requires EditorFileId(url) == SearchFrom(url, 0, AnyId)
    ensures ConvertSingle(url, isVideo) == ConvertEditor(url, isVideo)
  {
  }

  lemma {:induction false} SameSearch(url: string, p: nat)
    requires forall k :: p <= k < |url| ==> AltEnd(url, k, AnyId) == AltEnd(url, k, QueryId)
    ensures SearchFrom(url, p, AnyId) == SearchFrom(url, p, QueryId)
    decreases |url| - p
  {
    if p < |url| { SameSearch(url, p + 1); }
  }
}
