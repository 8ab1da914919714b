/** Browser-side Google Drive uploads (client/drive-upload.js): the file
    check, the two link forms an uploaded file is shown under, and the
    checks and result shaping around the upload request. The request itself
    is a parameter: what Drive answered. */
module DriveUpload {
  import opened Options
  import opened JsIds
  import DriveUrl

  /** A browser `File`: its name, MIME type and size in bytes. */
  datatype FileInfo = FileInfo(name: string, mime: string, size: int)

  /** `CONFIG.UPLOAD_SETTINGS`; either field may be absent. */
  datatype UploadSettings = UploadSettings(maxFileSize: Option<int>, allowedTypes: Option<seq<string>>)

  /** The configuration the uploader reads: the Drive folder id of each
      folder type and the optional upload settings. */
  datatype Config = Config(folders: map<string, string>, settings: Option<UploadSettings>)

  /** The values of client/config.js. */
  const MaxFileSize: int := 100 * 1024 * 1024
  const AllowedTypes: seq<string> := ["image/jpeg", "image/png", "image/gif", "video/mp4"]
  const DefaultSettings: UploadSettings := UploadSettings(Some(MaxFileSize), Some(AllowedTypes))

  const NoFile: string := "No file provided"
  const BadType: string := "Invalid file type"
  const TooLarge: string := "File too large"
  const NotAuthenticated: string := "Not authenticated. Please connect Google Drive."

  /** `validateFile`: the error it throws, `None` when it returns. A type
      check comes first; a size check runs only with a non-zero cap. */
  function ValidateFile(file: Option<FileInfo>, settings: Option<UploadSettings>): (r: Option<string>)
  {
    if file.None? then Some(NoFile)
    else if settings.None? then None
    else
      var s := settings.value;
      if s.allowedTypes.Some? && file.value.mime !in s.allowedTypes.value then Some(BadType)
      else if s.maxFileSize.Some? && s.maxFileSize.value != 0 && file.value.size > s.maxFileSize.value then Some(TooLarge)
      else None
  }

  /** `getViewUrl`: the large thumbnail form. */
  function ViewUrl(fileId: string): string {
    "https://drive.google.com/thumbnail?id=" + fileId + "&sz=w1600"
  }

  /** `getThumbnailUrl`: the small thumbnail form. */
  function ThumbnailUrl(fileId: string): string {
    "https://drive.google.com/thumbnail?id=" + fileId + "&sz=w800"
  }

  /** What `uploadToGoogleDrive` resolves to. */
  datatype Uploaded = Uploaded(fileId: string, fileName: string, url: string, thumbnailUrl: string)

  /** Drive's answer to the multipart request: not ok with a status and a
      body, or the created file's id, name and optional thumbnail link. */
  datatype DriveAnswer = Rejected(status: int, body: string) | Created(id: string, name: string, thumbnailLink: Option<string>)

  /** The checks made before anything is sent, in the order the source makes
      them; `None` when the request goes out. */
  function UploadGuard(accessToken: Option<string>, file: Option<FileInfo>, config: Config, folderType: string): (r: Option<string>)
  {
    if accessToken.None? || accessToken.value == "" then Some(NotAuthenticated)
    else if ValidateFile(file, config.settings).Some? then ValidateFile(file, config.settings)
    else if folderType !in config.folders || config.folders[folderType] == "" then
      Some("Drive folder ID missing for " + folderType)
    else None
  }

  /** `uploadToGoogleDrive`: a guard failure, a rejected request, or the
      result built from the created file. Setting the public permission is
      best effort and never changes the outcome. */
  function Upload(accessToken: Option<string>, file: Option<FileInfo>, config: Config, folderType: string,
                  answer: DriveAnswer): (r: Result<Uploaded>)
    ensures r.Ok? <==> UploadGuard(accessToken, file, config, folderType).None? && answer.Created?
    ensures UploadGuard(accessToken, file, config, folderType).Some? ==>
      r == Err(UploadGuard(accessToken, file, config, folderType).value)
    ensures r.Ok? ==> r.value.fileId == answer.id && r.value.fileName == answer.name
    ensures r.Ok? ==> r.value.url == ViewUrl(answer.id)
    ensures r.Ok? && answer.thumbnailLink.Some? && answer.thumbnailLink.value != "" ==>
      r.value.thumbnailUrl == answer.thumbnailLink.value
  {
    var guard := UploadGuard(accessToken, file, config, folderType);
    if guard.Some? then Err(guard.value)
    else match answer
      case Rejected(status, body) => Err("Upload failed (" + IntText(status) + "): " + body)
      case Created(id, name, link) =>
        var thumb := if link.Some? && link.value != "" then link.value else ThumbnailUrl(id);
        Ok(Uploaded(id, name, ViewUrl(id), thumb))
  }

  // ---- properties ----

  /** With the shipped settings, a file passes exactly when its type is one
      of the four allowed and it is at most 100 MiB. */
  lemma DefaultValidation(f: FileInfo)
    ensures ValidateFile(Some(f), Some(DefaultSettings)).None? <==> f.mime in AllowedTypes && f.size <= MaxFileSize
    ensures f.mime !in AllowedTypes ==> ValidateFile(Some(f), Some(DefaultSettings)) == Some(BadType)
    ensures f.mime in AllowedTypes && f.size > MaxFileSize ==> ValidateFile(Some(f), Some(DefaultSettings)) == Some(TooLarge)
  {
  }

  /** A file of a refused type is reported as such whatever its size: the
      type is checked first. */
  lemma TypeCheckedBeforeSize(f: FileInfo, s: UploadSettings)
    requires s.allowedTypes.Some? && f.mime !in s.allowedTypes.value
    ensures ValidateFile(Some(f), Some(s)) == Some(BadType)
  {
  }

  /** The size cap is inclusive. */
  lemma CapIsInclusive(name: string, mime: string)
    requires mime in AllowedTypes
    ensures ValidateFile(Some(FileInfo(name, mime, MaxFileSize)), Some(DefaultSettings)).None?
    ensures ValidateFile(Some(FileInfo(name, mime, MaxFileSize + 1)), Some(DefaultSettings)) == Some(TooLarge)
  {
  }

  /** Without a token nothing else is looked at, not even the file. */
  lemma AuthenticationComesFirst(file: Option<FileInfo>, config: Config, folderType: string, answer: DriveAnswer)
    ensures Upload(None, file, config, folderType, answer) == Err(NotAuthenticated)
    ensures Upload(Some(""), file, config, folderType, answer) == Err(NotAuthenticated)
  {
  }

  /** An upload succeeds only for a valid file going to a configured folder. */
  lemma UploadNeedsValidFile(accessToken: Option<string>, file: Option<FileInfo>, config: Config, folderType: string,
                             answer: DriveAnswer)
    requires Upload(accessToken, file, config, folderType, answer).Ok?
    ensures file.Some? && ValidateFile(file, config.settings).None?
    ensures folderType in config.folders && config.folders[folderType] != ""
  {
    assert UploadGuard(accessToken, file, config, folderType).None?;
  }

  /** The link an upload is shown under is the one the editor's link
      rewriting produces for that file, so rewriting leaves it alone and
      finds the file's id in it. */
  lemma UploadedUrlIsCanonical(accessToken: Option<string>, file: Option<FileInfo>, config: Config, folderType: string,
                               answer: DriveAnswer)
    requires Upload(accessToken, file, config, folderType, answer).Ok?
    requires DriveUrl.IsDriveId(answer.id)
    ensures var u := Upload(accessToken, file, config, folderType, answer).value.url;
      DriveUrl.EditorFileId(u) == Some(answer.id) && DriveUrl.ConvertEditor(u, false) == u
  {
    var u := ViewUrl(answer.id);
    assert u == DriveUrl.OutputUrl(answer.id, false);
    DriveUrl.ImageUrlExtractsId(answer.id);
  }

  /** Without a thumbnail link from Drive, the small form of the same file
      is used. */
  lemma ThumbnailFallback(accessToken: Option<string>, file: Option<FileInfo>, config: Config, folderType: string,
                          id: string, name: string)
    requires UploadGuard(accessToken, file, config, folderType).None?
    ensures Upload(accessToken, file, config, folderType, Created(id, name, None)).value.thumbnailUrl == ThumbnailUrl(id)
    ensures Upload(accessToken, file, config, folderType, Created(id, name, Some(""))).value.thumbnailUrl == ThumbnailUrl(id)
  {
  }
}
