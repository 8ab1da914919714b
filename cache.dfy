/** The server's image cache: files under `CachedImages/<type>s/` plus a
    metadata object (`CachedImages/metadata.json`) keyed by file name. The
    project's files are a map from their path relative to the project root
    to their modification time in milliseconds; the metadata object is the
    sequence of its entries in insertion order, which is the order
    `Object.entries` walks. */
module Cache {
  import opened Options
  import opened JsText
  import opened JsIds
  import Seqs

  /** Files older than this are removed by the periodic cleanup (60 days). */
  const TwoMonthsMs: int := 60 * 24 * 60 * 60 * 1000

  /** The four folders the cleanup visits. */
  const CacheFolders: seq<string> := ["posts", "reels", "carousels", "profiles"]

  /** The folder of a media type (`post` to `posts`, ...; any other type
      gets an `s` too). */
  function TypeFolder(kind: string): string {
    if kind == "post" then "posts"
    else if kind == "reel" then "reels"
    else if kind == "carousel" then "carousels"
    else if kind == "profile" then "profiles"
    else kind + "s"
  }

  function FolderPrefix(folder: string): string {
    "CachedImages/" + folder + "/"
  }

  /** Where a cached file lives, relative to the project root. */
  function CachePath(folder: string, name: string): string {
    FolderPrefix(folder) + name
  }

  /** `path` names an entry directly inside the cache folder `folder`. */
  predicate InFolder(path: string, folder: string) {
    var pre := FolderPrefix(folder);
    |pre| < |path| && path[..|pre|] == pre && forall i :: |pre| <= i < |path| ==> path[i] != '/'
  }

  /** `path` is a file of one of the four cache folders. */
  predicate IsCacheFile(path: string) {
    exists j :: 0 <= j < |CacheFolders| && InFolder(path, CacheFolders[j])
  }

  datatype CacheInfo = CacheInfo(kind: string, id: JsId, index: Option<int>, originalUrl: string, cachedAtMs: int)

  datatype MetaEntry = MetaEntry(fileName: string, info: CacheInfo)

  /** Object keys are unique. */
  predicate UniqueNames(meta: seq<MetaEntry>) {
    forall i, j :: 0 <= i < j < |meta| ==> meta[i].fileName != meta[j].fileName
  }

  /** `metadata[fileName] = info`: an existing key keeps its place, a new
      one goes last. */
  function SetEntry(meta: seq<MetaEntry>, name: string, info: CacheInfo): (r: seq<MetaEntry>)
    ensures UniqueNames(meta) ==> UniqueNames(r)
    ensures (forall j :: 0 <= j < |meta| ==> meta[j].fileName != name) ==> r == meta + [MetaEntry(name, info)]
    ensures forall j :: 0 <= j < |meta| && meta[j].fileName == name ==>
      (forall i :: 0 <= i < j ==> meta[i].fileName != name) ==> r == meta[j := MetaEntry(name, info)]
    ensures exists j :: 0 <= j < |r| && r[j] == MetaEntry(name, info)
    ensures forall j :: 0 <= j < |meta| && meta[j].fileName != name ==> meta[j] in r
    ensures forall j :: 0 <= j < |r| && r[j].fileName != name ==> r[j] in meta
  {
    match Seqs.FindIndex(meta, (e: MetaEntry) => e.fileName == name)
    case Some(i) =>
      var r := meta[i := MetaEntry(name, info)];
      assert r[i] == MetaEntry(name, info);
      assert forall j :: 0 <= j < |meta| && j != i ==> r[j] == meta[j];
      r
    case None =>
      var r := meta + [MetaEntry(name, info)];
      assert r[|meta|] == MetaEntry(name, info);
      r
  }

  /** `delete metadata[fileName]`. */
  function RemoveEntry(meta: seq<MetaEntry>, name: string): (r: seq<MetaEntry>)
    ensures forall j :: 0 <= j < |r| ==> r[j] in meta && r[j].fileName != name
    ensures forall j :: 0 <= j < |meta| && meta[j].fileName != name ==> meta[j] in r
  {
    Seqs.Filter(meta, (e: MetaEntry) => e.fileName != name)
  }

  /** What a download asks for. */
  datatype Query = Query(kind: string, id: JsId, index: Option<int>, url: string)

  /** Same type, same id, same index (`null` for none), same source URL. */
  predicate Matches(e: MetaEntry, q: Query) {
    e.info.kind == q.kind && e.info.id == q.id && e.info.index == q.index && e.info.originalUrl == q.url
  }

  /** The result of `getExistingCachePath`: the cache path served, and the
      metadata left in the file. */
  datatype LookupOutcome = LookupOutcome(hit: Option<string>, meta: seq<MetaEntry>)

  /** Where the loop looks for an entry's file: in the fixed folder
      `Some(f)`, or with `None` in the entry's own type folder. */
  function Probe(e: MetaEntry, folder: Option<string>): string {
    CachePath(if folder.Some? then folder.value else TypeFolder(e.info.kind), e.fileName)
  }

  /** Where an entry's own file lives. */
  function OwnPath(e: MetaEntry): string {
    Probe(e, None)
  }

  /** A matching entry whose probed file exists. */
  predicate Served(e: MetaEntry, files: map<string, int>, q: Query, folder: Option<string>) {
    Matches(e, q) && Probe(e, folder) in files
  }

  /** The first served entry at or after `from`. */
  function FirstServed(meta: seq<MetaEntry>, files: map<string, int>, q: Query, folder: Option<string>, from: nat): (r: Option<nat>)
    ensures r.Some? ==> from <= r.value < |meta| && Served(meta[r.value], files, q, folder)
    ensures r.Some? ==> forall k :: from <= k < r.value ==> !Served(meta[k], files, q, folder)
    ensures r.None? ==> forall k :: from <= k < |meta| ==> !Served(meta[k], files, q, folder)
    decreases |meta| - from
  {
    if from >= |meta| then None
    else if Served(meta[from], files, q, folder) then Some(from)
    else FirstServed(meta, files, q, folder, from + 1)
  }

  /** The entries whose probed file exists, in order. */
  function LiveEntries(meta: seq<MetaEntry>, files: map<string, int>, folder: Option<string>): seq<MetaEntry> {
    if meta == [] then []
    else
      var last := meta[|meta| - 1];
      LiveEntries(meta[..|meta| - 1], files, folder) + (if Probe(last, folder) in files then [last] else [])
  }

  /** `LiveEntries` keeps exactly the entries whose probed file exists. */
  lemma {:induction false} LiveEntriesMeaning(meta: seq<MetaEntry>, files: map<string, int>, folder: Option<string>)
    ensures forall e :: e in LiveEntries(meta, files, folder) ==> e in meta && Probe(e, folder) in files
    ensures forall j :: 0 <= j < |meta| && Probe(meta[j], folder) in files ==> meta[j] in LiveEntries(meta, files, folder)
  {
    if meta != [] {
      var init := meta[..|meta| - 1];
      var last := meta[|meta| - 1];
      var r0 := LiveEntries(init, files, folder);
      LiveEntriesMeaning(init, files, folder);
      assert LiveEntries(meta, files, folder) == r0 + (if Probe(last, folder) in files then [last] else []);
      assert forall e :: e in init ==> e in meta;
      forall j | 0 <= j < |meta| && Probe(meta[j], folder) in files ensures meta[j] in LiveEntries(meta, files, folder) {
        if j < |init| {
          assert meta[j] == init[j];
        }
      }
    }
  }

  lemma LiveEntriesExtend(meta: seq<MetaEntry>, files: map<string, int>, folder: Option<string>, i: nat)
    requires i < |meta|
    ensures meta[..i + 1] == meta[..i] + [meta[i]]
    ensures LiveEntries(meta[..i + 1], files, folder)
         == LiveEntries(meta[..i], files, folder) + (if Probe(meta[i], folder) in files then [meta[i]] else [])
  {
    var s := meta[..i + 1];
    assert s[..|s| - 1] == meta[..i];
  }

  /** The lookup loop: the first served entry is returned, leaving the
      metadata as it was (deletions made before the hit are never written);
      when nothing is served, every entry whose file is missing has been
      deleted and the rest is written back. */
  function LookupWith(meta: seq<MetaEntry>, files: map<string, int>, q: Query, folder: Option<string>): LookupOutcome {
    match FirstServed(meta, files, q, folder, 0)
    case Some(i) => LookupOutcome(Some("/" + Probe(meta[i], folder)), meta)
    case None => LookupOutcome(None, LiveEntries(meta, files, folder))
  }

  /** The loop as written: every entry is looked for in the folder of the
      requested type. */
  function LookupAsWritten(meta: seq<MetaEntry>, files: map<string, int>, q: Query): LookupOutcome {
    LookupWith(meta, files, q, Some(TypeFolder(q.kind)))
  }

  /** Entry `j` is the first matching entry whose own file exists. */
  predicate FirstLive(meta: seq<MetaEntry>, files: map<string, int>, q: Query, j: int) {
    0 <= j < |meta| && Matches(meta[j], q) && OwnPath(meta[j]) in files
    && forall k :: 0 <= k < j ==> !(Matches(meta[k], q) && OwnPath(meta[k]) in files)
  }

  /** The corrected loop: every entry is looked for in its own folder. */
  function Lookup(meta: seq<MetaEntry>, files: map<string, int>, q: Query): LookupOutcome {
    LookupWith(meta, files, q, None)
  }

  /** The corrected lookup serves a file exactly when some matching entry's
      own file exists, and then the first one; on a miss it keeps exactly
      the entries whose own file exists. */
  lemma LookupMeaning(meta: seq<MetaEntry>, files: map<string, int>, q: Query)
    ensures Lookup(meta, files, q).hit.Some? <==> exists j :: 0 <= j < |meta| && Matches(meta[j], q) && OwnPath(meta[j]) in files
    ensures forall j :: FirstLive(meta, files, q, j) ==> Lookup(meta, files, q).hit == Some("/" + OwnPath(meta[j]))
    ensures Lookup(meta, files, q).hit.Some? ==> Lookup(meta, files, q).meta == meta
    ensures Lookup(meta, files, q).hit.None? ==>
      forall j :: 0 <= j < |meta| ==> (meta[j] in Lookup(meta, files, q).meta <==> OwnPath(meta[j]) in files)
    ensures Lookup(meta, files, q).hit.None? ==>
      forall j :: 0 <= j < |Lookup(meta, files, q).meta| ==> Lookup(meta, files, q).meta[j] in meta
  {
    var r := Lookup(meta, files, q);
    var f := FirstServed(meta, files, q, None, 0);
    if f.Some? {
      forall j | FirstLive(meta, files, q, j) ensures r.hit == Some("/" + OwnPath(meta[j])) {
        assert Served(meta[j], files, q, None);
        assert !(j < f.value) && !(f.value < j);
      }
    } else {
      LiveEntriesMeaning(meta, files, None);
      forall j | 0 <= j < |meta| && meta[j] in r.meta ensures OwnPath(meta[j]) in files {
        var k :| 0 <= k < |r.meta| && r.meta[k] == meta[j];
        assert Probe(r.meta[k], None) in files;
      }
    }
  }

  /** `${type}_${id}${index ? `_${index}` : ''}_${Date.now()}.jpg`. */
  function CacheFileName(kind: string, id: JsId, index: Option<int>, now: int): string {
    var suffix := if index.Some? && index.value != 0 then "_" + IntText(index.value) else "";
    kind + "_" + id.Text() + suffix + "_" + IntText(now) + ".jpg"
  }

  /** The file system after the cleanup: cache files whose age exceeds two
      months are gone, everything else is untouched. */
  function Cleaned(files: map<string, int>, now: int): (r: map<string, int>)
  {
    map p | p in files && !(IsCacheFile(p) && now - files[p] > TwoMonthsMs) :: files[p]
  }

  /** The state the delete route leaves behind. */
  datatype DeleteState = DeleteState(files: map<string, int>, meta: seq<MetaEntry>, deleted: nat)

  /** `filePath.replace(/^\//, '')`. */
  function StripLeadingSlash(p: string): string {
    if |p| > 0 && p[0] == '/' then p[1..] else p
  }

  /** `path.basename`: what follows the last `/`. */
  function BaseName(p: string): (r: string)
    ensures |r| <= |p| && r == p[|p| - |r|..]
    ensures forall i :: 0 <= i < |r| ==> r[i] != '/'
  {
    if p == [] then []
    else if p[|p| - 1] == '/' then []
    else BaseName(p[..|p| - 1]) + [p[|p| - 1]]
  }

  /** One iteration of the delete loop; `allowed` says which existing paths
      may be unlinked. */
  function DeleteStep(st: DeleteState, p: string, allowed: string -> bool): DeleteState {
    if p == "" then st
    else
      var rel := StripLeadingSlash(p);
      if rel in st.files && allowed(rel)
      then DeleteState(st.files - {rel}, RemoveEntry(st.meta, BaseName(rel)), st.deleted + 1)
      else st
  }

  /** The whole delete loop over `paths`, in order. */
  function DeleteAll(st: DeleteState, paths: seq<string>, allowed: string -> bool): DeleteState
    decreases |paths|
  {
    if paths == [] then st
    else DeleteStep(DeleteAll(st, paths[..|paths| - 1], allowed), paths[|paths| - 1], allowed)
  }

  /** The route as written: any existing path under the project root. */
  function DeleteAsWritten(st: DeleteState, paths: seq<string>): DeleteState {
    DeleteAll(st, paths, _ => true)
  }

  /** The corrected route: only files of the four cache folders. */
  function DeleteCachedOnly(st: DeleteState, paths: seq<string>): DeleteState {
    DeleteAll(st, paths, IsCacheFile)
  }

  class CacheStore {
    var files: map<string, int>
    var metadata: seq<MetaEntry>

    constructor (files0: map<string, int>)
      ensures files == files0 && metadata == []
    {
      files := files0;
      metadata := [];
    }

    /** `saveCacheMetadata`. */
    method SaveCacheMetadata(name: string, info: CacheInfo)
      modifies this
      ensures metadata == SetEntry(old(metadata), name, info) && files == old(files)
    {
      metadata := SetEntry(metadata, name, info);
    }

    /** `removeCacheMetadata`. */
    method RemoveCacheMetadata(name: string)
      modifies this
      ensures metadata == RemoveEntry(old(metadata), name) && files == old(files)
    {
      metadata := RemoveEntry(metadata, name);
    }

    /** `getExistingCachePath`, probing each entry's own folder. */
    method GetExistingCachePath(q: Query) returns (hit: Option<string>)
      modifies this
      ensures hit == Lookup(old(metadata), old(files), q).hit
      ensures metadata == Lookup(old(metadata), old(files), q).meta && files == old(files)
    {
      var meta, fs := metadata, files;
      var kept: seq<MetaEntry> := [];
      var changed := false;
      var i := 0;
      while i < |meta|
        invariant 0 <= i <= |meta| && metadata == meta && files == fs
        invariant FirstServed(meta, fs, q, None, 0) == FirstServed(meta, fs, q, None, i)
        invariant kept == LiveEntries(meta[..i], fs, None)
        invariant !changed ==> kept == meta[..i]
      {
        var e := meta[i];
        var path := OwnPath(e);
        if Served(e, fs, q, None) {
          return Some("/" + path);
        }
        assert FirstServed(meta, fs, q, None, i) == FirstServed(meta, fs, q, None, i + 1);
        LiveEntriesExtend(meta, fs, None, i);
        if path in fs {
          kept := kept + [e];
        } else {
          changed := true;
        }
        i := i + 1;
      }
      assert meta[..i] == meta;
      if changed {
        metadata := kept;
      }
      hit := None;
    }

    /** `POST /api/cache/download`: 400 without a URL, type or id; a live
        cached copy is served; otherwise the image is fetched (`fetched`
        says whether that succeeded), stored under a fresh name and
        recorded in the metadata. */
    method Download(url: string, kind: string, id: JsId, index: Option<int>, now: int, fetched: bool)
      returns (status: nat, localPath: string)
      modifies this
      ensures url == "" || kind == "" || !id.Truthy() ==>
        status == 400 && files == old(files) && metadata == old(metadata)
      ensures url != "" && kind != "" && id.Truthy() ==> (
        var look := Lookup(old(metadata), old(files), Query(kind, id, index, url));
        var name := CacheFileName(kind, id, index, now);
        var path := CachePath(TypeFolder(kind), name);
        if look.hit.Some? then
          status == 200 && localPath == look.hit.value && files == old(files) && metadata == look.meta
        else if !fetched then
          status == 500 && files == old(files) && metadata == look.meta
        else
          status == 200 && localPath == "/" + path && files == old(files)[path := now]
          && metadata == SetEntry(look.meta, name, CacheInfo(kind, id, index, url, now)))
    {
      if url == "" || kind == "" || !id.Truthy() {
        return 400, "";
      }
      var folder := TypeFolder(kind);
      var existing := GetExistingCachePath(Query(kind, id, index, url));
      if existing.Some? {
        return 200, existing.value;
      }
      var name := CacheFileName(kind, id, index, now);
      var path := CachePath(folder, name);
      if !fetched {
        return 500, "";
      }
      files := files[path := now];
      SaveCacheMetadata(name, CacheInfo(kind, id, index, url, now));
      status, localPath := 200, "/" + path;
    }

    /** `cleanupOldCache`: for each of the four folders, unlink every file
        whose age exceeds two months. */
    method CleanupOldCache(now: int)
      modifies this
      ensures files == Cleaned(old(files), now) && metadata == old(metadata)
    {
      var files0 := files;
      var fs := files;
      var t := 0;
      while t < |CacheFolders|
        invariant 0 <= t <= |CacheFolders|
        invariant forall p :: p in fs ==> p in files0 && fs[p] == files0[p]
        invariant forall p :: p in files0 ==>
          (p in fs <==> !(now - files0[p] > TwoMonthsMs && exists j :: 0 <= j < t && InFolder(p, CacheFolders[j])))
      {
        var folder := CacheFolders[t];
        var listing := set p | p in fs && InFolder(p, folder);
        var remaining := listing;
        ghost var before := fs;
        while remaining != {}
          decreases |remaining|
          invariant remaining <= listing
          invariant forall p :: p in fs ==> p in before && fs[p] == before[p]
          invariant forall p :: p in before ==>
            (p in fs <==> !(p in listing && p !in remaining && now - before[p] > TwoMonthsMs))
        {
          var p :| p in remaining;
          if now - fs[p] > TwoMonthsMs {
            fs := fs - {p};
          }
          remaining := remaining - {p};
        }
        t := t + 1;
      }
      assert forall p :: p in files0 ==> (p in fs <==> p in Cleaned(files0, now));
      files := fs;
    }

    /** `POST /api/cache/delete`, restricted to cache files: 400 without a
        list of paths; otherwise each existing cache file named is unlinked,
        its metadata entry dropped, and counted. */
    method DeleteCached(paths: Option<seq<string>>) returns (status: nat, deleted: nat)
      modifies this
      ensures paths.None? ==> status == 400 && files == old(files) && metadata == old(metadata)
      ensures paths.Some? ==> (status == 200 &&
        DeleteState(files, metadata, deleted) == DeleteCachedOnly(DeleteState(old(files), old(metadata), 0), paths.value))
    {
      if paths.None? {
        return 400, 0;
      }
      var ps := paths.value;
      var start := DeleteState(files, metadata, 0);
      var fs, meta := files, metadata;
      deleted := 0;
      var i := 0;
      while i < |ps|
        invariant 0 <= i <= |ps|
        invariant DeleteState(fs, meta, deleted) == DeleteAll(start, ps[..i], IsCacheFile)
      {
        assert ps[..i + 1][..i] == ps[..i];
        assert DeleteAll(start, ps[..i + 1], IsCacheFile)
            == DeleteStep(DeleteAll(start, ps[..i], IsCacheFile), ps[i], IsCacheFile);
        ghost var before := DeleteState(fs, meta, deleted);
        var p := ps[i];
        if p != "" {
          var rel := StripLeadingSlash(p);
          if rel in fs && IsCacheFile(rel) {
            fs := fs - {rel};
            meta := RemoveEntry(meta, BaseName(rel));
            deleted := deleted + 1;
          }
        }
        assert DeleteState(fs, meta, deleted) == DeleteStep(before, p, IsCacheFile);
        i := i + 1;
      }
      assert ps[..i] == ps;
      files, metadata := fs, meta;
      status := 200;
    }
  }

  // ---- properties ----

  /** The type-to-folder ternary always yields the type with an `s`. */
  lemma TypeFolderIsPlural(kind: string)
    ensures TypeFolder(kind) == kind + "s"
  {
  }

  /** Distinct media types are cached in distinct folders. */
  lemma TypeFoldersSeparateTypes(a: string, b: string)
    ensures TypeFolder(a) == TypeFolder(b) <==> a == b
  {
    TypeFolderIsPlural(a);
    TypeFolderIsPlural(b);
    if TypeFolder(a) == TypeFolder(b) {
      assert a == (a + "s")[..|a|] && b == (b + "s")[..|b|];
    }
  }

  /** A file the download route stores for one of the four media types
      lies in a folder the cleanup visits, so it is removed once it is more
      than two months old. */
  lemma StoredFilesExpire(files: map<string, int>, kind: string, name: string, stored: int, now: int)
    requires kind == "post" || kind == "reel" || kind == "carousel" || kind == "profile"
    requires name != [] && forall i :: 0 <= i < |name| ==> name[i] != '/'
    requires now - stored > TwoMonthsMs
    ensures CachePath(TypeFolder(kind), name) !in Cleaned(files[CachePath(TypeFolder(kind), name) := stored], now)
  {
    var folder := TypeFolder(kind);
    var path := CachePath(folder, name);
    var j := if kind == "post" then 0 else if kind == "reel" then 1 else if kind == "carousel" then 2 else 3;
    assert CacheFolders[j] == folder;
    var pre := FolderPrefix(folder);
    assert path[..|pre|] == pre;
    forall i | |pre| <= i < |path| ensures path[i] != '/' {
      assert path[i] == name[i - |pre|];
    }
    assert InFolder(path, CacheFolders[j]);
  }

  /** Index `0` and no index give the same file name: the suffix is only
      written for a truthy index. */
  lemma IndexZeroLikeNone(kind: string, id: JsId, now: int)
    ensures CacheFileName(kind, id, Some(0), now) == CacheFileName(kind, id, None, now)
  {
  }

  /** After a miss, the download route records the fetched file and its
      entry in the pruned metadata; the next identical request is then served
      exactly the path the download returned. */
  lemma StoredImageIsServed(meta: seq<MetaEntry>, files: map<string, int>, q: Query, name: string, now: int)
    requires Lookup(meta, files, q).hit.None?
    ensures var path := CachePath(TypeFolder(q.kind), name);
      Lookup(SetEntry(Lookup(meta, files, q).meta, name, CacheInfo(q.kind, q.id, q.index, q.url, now)),
             files[path := now], q).hit == Some("/" + path)
  {
    var pruned := Lookup(meta, files, q).meta;
    var e := MetaEntry(name, CacheInfo(q.kind, q.id, q.index, q.url, now));
    var m := SetEntry(pruned, name, e.info);
    var f := files[CachePath(TypeFolder(q.kind), name) := now];
    MissLeavesNoMatch(meta, files, q);
    var k: nat;
    if forall j :: 0 <= j < |pruned| ==> pruned[j].fileName != name {
      k := |pruned|;
      assert m == pruned + [e];
    } else {
      var first := Seqs.FindIndex(pruned, (x: MetaEntry) => x.fileName == name);
      k := first.value;
      assert m == pruned[k := e];
    }
    assert m[k] == e && OwnPath(e) in f;
    assert forall i :: 0 <= i < k ==> m[i] == pruned[i] && !Matches(m[i], q);
    assert FirstLive(m, f, q, k);
    LookupMeaning(m, f, q);
  }

  /** A miss prunes the metadata down to entries none of which matches. */
  lemma MissLeavesNoMatch(meta: seq<MetaEntry>, files: map<string, int>, q: Query)
    requires Lookup(meta, files, q).hit.None?
    ensures forall i :: 0 <= i < |Lookup(meta, files, q).meta| ==> !Matches(Lookup(meta, files, q).meta[i], q)
  {
    var pruned := Lookup(meta, files, q).meta;
    LookupMeaning(meta, files, q);
    forall i | 0 <= i < |pruned| ensures !Matches(pruned[i], q) {
      var j :| 0 <= j < |meta| && meta[j] == pruned[i];
      assert OwnPath(meta[j]) in files;
    }
  }

  lemma {:induction false} SameProbeSameServed(meta: seq<MetaEntry>, files: map<string, int>, q: Query, a: Option<string>, b: Option<string>, from: nat)
    requires forall j :: 0 <= j < |meta| ==> Probe(meta[j], a) == Probe(meta[j], b)
    ensures FirstServed(meta, files, q, a, from) == FirstServed(meta, files, q, b, from)
    decreases |meta| - from
  {
    if from < |meta| {
      SameProbeSameServed(meta, files, q, a, b, from + 1);
    }
  }

  lemma {:induction false} SameProbeSameLive(meta: seq<MetaEntry>, files: map<string, int>, a: Option<string>, b: Option<string>)
    requires forall j :: 0 <= j < |meta| ==> Probe(meta[j], a) == Probe(meta[j], b)
    ensures LiveEntries(meta, files, a) == LiveEntries(meta, files, b)
  {
    if meta != [] {
      var init := meta[..|meta| - 1];
      assert forall j :: 0 <= j < |init| ==> init[j] == meta[j];
      SameProbeSameLive(init, files, a, b);
    }
  }

  /** When every entry has the requested type, the loop as written and the
      corrected one behave alike: the defect only hits other types. */
  lemma AsWrittenAgreesOnItsOwnType(meta: seq<MetaEntry>, files: map<string, int>, q: Query)
    requires forall j :: 0 <= j < |meta| ==> meta[j].info.kind == q.kind
    ensures LookupAsWritten(meta, files, q) == Lookup(meta, files, q)
  {
    SameProbeSameServed(meta, files, q, Some(TypeFolder(q.kind)), None, 0);
    SameProbeSameLive(meta, files, Some(TypeFolder(q.kind)), None);
  }

  /** A reel lookup as written discards the metadata of a cached post whose
      file is still on disk; the corrected lookup keeps it. */
  lemma AsWrittenDropsOtherTypes()
    ensures LookupAsWritten([PostEntry], PostFiles, ReelQuery) == LookupOutcome(None, [])
    ensures Lookup([PostEntry], PostFiles, ReelQuery) == LookupOutcome(None, [PostEntry])
  {
    AsWrittenMissesPost();
    CorrectedKeepsPost();
  }

  /** The post's file is looked for under `reels/`, where it is not. */
  lemma AsWrittenMissesPost()
    ensures LookupAsWritten([PostEntry], PostFiles, ReelQuery) == LookupOutcome(None, [])
  {
    var e := PostEntry;
    var folder := Some(TypeFolder("reel"));
    assert !Served(e, PostFiles, ReelQuery, folder);
    assert FirstServed([e], PostFiles, ReelQuery, folder, 0).None?;
    var probed := Probe(e, folder);
    assert probed == "CachedImages/reels/post_1_5.jpg";
    assert probed[13] != "CachedImages/posts/post_1_5.jpg"[13];
    assert probed !in PostFiles;
    assert LiveEntries([e], PostFiles, folder) == LiveEntries([e][..0], PostFiles, folder) + [];
  }

  /** The post's file is looked for under `posts/`, where it is. */
  lemma CorrectedKeepsPost()
    ensures Lookup([PostEntry], PostFiles, ReelQuery) == LookupOutcome(None, [PostEntry])
  {
    var e := PostEntry;
    assert !Served(e, PostFiles, ReelQuery, None);
    assert FirstServed([e], PostFiles, ReelQuery, None, 0).None?;
    assert OwnPath(e) == "CachedImages/posts/post_1_5.jpg";
    assert LiveEntries([e], PostFiles, None) == LiveEntries([e][..0], PostFiles, None) + [e];
  }

  const PostEntry: MetaEntry := MetaEntry("post_1_5.jpg", CacheInfo("post", Num(1), None, "u", 5))
  const PostFiles: map<string, int> := map["CachedImages/posts/post_1_5.jpg" := 5]
  const ReelQuery: Query := Query("reel", Num(1), None, "v")

  /** Cleaning twice, the second time later, is cleaning once at the later
      time. */
  lemma CleanupLaterSubsumes(files: map<string, int>, a: int, b: int)
    requires a <= b
    ensures Cleaned(Cleaned(files, a), b) == Cleaned(files, b)
  {
  }

  /** The data store is not a cache file. */
  lemma DataFileIsNotCacheFile()
    ensures !IsCacheFile("Data/users.json")
  {
    forall j | 0 <= j < |CacheFolders| ensures !InFolder("Data/users.json", CacheFolders[j]) {
      var pre := FolderPrefix(CacheFolders[j]);
      if |pre| < |"Data/users.json"| {
        assert pre[0] == 'C';
        assert "Data/users.json"[..|pre|][0] == 'D';
      }
    }
  }

  /** The route as written deletes the user store when asked to; the
      corrected one leaves it in place. */
  lemma AsWrittenDeletesDataFiles(st: DeleteState)
    requires "Data/users.json" in st.files
    ensures "Data/users.json" !in DeleteAsWritten(st, ["/Data/users.json"]).files
    ensures DeleteCachedOnly(st, ["/Data/users.json"]) == st
  {
    assert ["/Data/users.json"][..0] == [];
    assert StripLeadingSlash("/Data/users.json") == "Data/users.json";
    DataFileIsNotCacheFile();
  }

  /** The corrected route never touches a file outside the cache folders. */
  lemma {:induction false} DeleteKeepsNonCacheFiles(st: DeleteState, paths: seq<string>)
    ensures forall p :: p in st.files && !IsCacheFile(p) ==>
      p in DeleteCachedOnly(st, paths).files && DeleteCachedOnly(st, paths).files[p] == st.files[p]
    decreases |paths|
  {
    if paths != [] {
      DeleteKeepsNonCacheFiles(st, paths[..|paths| - 1]);
    }
  }

  /** The count the route answers is the number of files it removed. */
  lemma {:induction false} DeleteCountsRemovals(st: DeleteState, paths: seq<string>, allowed: string -> bool)
    ensures DeleteAll(st, paths, allowed).files.Keys <= st.files.Keys
    ensures DeleteAll(st, paths, allowed).deleted
         == st.deleted + |st.files.Keys - DeleteAll(st, paths, allowed).files.Keys|
    decreases |paths|
  {
    if paths != [] {
      var mid := DeleteAll(st, paths[..|paths| - 1], allowed);
      DeleteCountsRemovals(st, paths[..|paths| - 1], allowed);
      var p := paths[|paths| - 1];
      var fin := DeleteAll(st, paths, allowed);
      if p != "" && StripLeadingSlash(p) in mid.files && allowed(StripLeadingSlash(p)) {
        var rel := StripLeadingSlash(p);
        assert fin.files.Keys == mid.files.Keys - {rel};
        assert st.files.Keys - fin.files.Keys == (st.files.Keys - mid.files.Keys) + {rel};
      }
    }
  }
}
