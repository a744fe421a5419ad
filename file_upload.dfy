/** The upload middleware of middleware/file-upload.js: the MIME map, the file
    filter, the generated file name and the directory the file is stored in. */
module FileUpload {
  import opened Common

  /** `MIME_TYPE_MAP`: accepted MIME types and the extension each is saved with. */
  const MimeTypeMap: map<string, string> :=
    map["image/png" := "png", "image/jpeg" := "jpeg", "image/jpg" := "jpg", "image/webp" := "webp"]

  /** Where `destination` puts every upload. */
  const UploadDirectory := "uploads/images"

  const InvalidMimeType := "Invalid mime type!"

  predicate EndsWith(s: string, suffix: string)
  {
    |suffix| <= |s| && s[|s| - |suffix|..] == suffix
  }

  /** The map has the four image types and no other key. */
  lemma MimeTypeMapKeys()
    ensures MimeTypeMap.Keys == {"image/png", "image/jpeg", "image/jpg", "image/webp"}
    ensures |MimeTypeMap| == 4
    ensures "text/html" !in MimeTypeMap
  {
  }

  /** `MIME_TYPE_MAP[file.mimetype]`: `None` (undefined) for a type it does not list.
      Every listed type is `image/` followed by its own extension. */
  function Extension(mimetype: string): (ext: Option<string>)
    ensures ext.Some? <==> mimetype in MimeTypeMap
    ensures ext.Some? ==> mimetype == "image/" + ext.value
  {
    if mimetype in MimeTypeMap then Some(MimeTypeMap[mimetype]) else None
  }

  /** A value as string concatenation renders it: `undefined` for a missing one. */
  function Text(v: Option<string>): string
  {
    match v
    case Some(s) => s
    case None => "undefined"
  }

  /** The `filename` callback: the generated id, a dot and the extension. */
  function Filename(generatedId: string, mimetype: string): (name: string)
    ensures |generatedId| < |name| && name[..|generatedId|] == generatedId
    ensures mimetype in MimeTypeMap ==> EndsWith(name, "." + MimeTypeMap[mimetype])
    ensures mimetype !in MimeTypeMap ==> EndsWith(name, ".undefined")
    ensures |name| == |generatedId| + 1 + |Text(Extension(mimetype))|
  {
    var name := generatedId + "." + Text(Extension(mimetype));
    assert name[..|generatedId|] == generatedId;
    name
  }

  /** What the `fileFilter` callback hands to `cb`: an error and the accept flag. */
  datatype FilterDecision = FilterDecision(error: Option<string>, accept: bool)

  /** The `fileFilter` callback. */
  function FileFilter(mimetype: string): (d: FilterDecision)
    ensures d.accept <==> mimetype in MimeTypeMap
    ensures d.error.Some? <==> !d.accept
    ensures d.error.Some? ==> d.error.value == InvalidMimeType
  {
    var isValid := Extension(mimetype).Some?;
    FilterDecision(if isValid then None else Some(InvalidMimeType), isValid)
  }

  /** `file.path` of a stored upload: the `destination` joined with the `filename`,
      so it lies in the upload directory and keeps the file name's extension. */
  function StoredPath(generatedId: string, mimetype: string): (path: string)
    ensures |UploadDirectory| + 1 < |path| && path[..|UploadDirectory| + 1] == UploadDirectory + "/"
    ensures path == UploadDirectory + "/" + Filename(generatedId, mimetype)
    ensures mimetype in MimeTypeMap ==> EndsWith(path, "." + MimeTypeMap[mimetype])
    ensures mimetype !in MimeTypeMap ==> EndsWith(path, ".undefined")
  {
    var path := UploadDirectory + "/" + Filename(generatedId, mimetype);
    assert path[..|UploadDirectory| + 1] == UploadDirectory + "/";
    path
  }

  /** The fate of an uploaded file. */
  datatype Upload = Stored(path: string) | Rejected(message: string)

  /** The upload as configured: `fileFilter` is given to `diskStorage`, which reads
      only `destination` and `filename`, so no file is ever filtered out. */
  function StoreAsWritten(generatedId: string, mimetype: string): (u: Upload)
    ensures u.Stored?
  {
    Stored(StoredPath(generatedId, mimetype))
  }

  /** As configured, a file of an unlisted type, `text/html` say, is stored with
      extension `undefined`. */
  lemma AsWrittenStoresUnlistedType(generatedId: string, mimetype: string)
    requires mimetype !in MimeTypeMap
    ensures StoreAsWritten(generatedId, mimetype) == Stored(UploadDirectory + "/" + generatedId + ".undefined")
  {
    assert Text(Extension(mimetype)) == "undefined";
  }

  /** The upload with the filter applied before the file is written, as the
      filter is evidently meant to be. */
  function Store(generatedId: string, mimetype: string): (u: Upload)
    ensures u.Stored? <==> FileFilter(mimetype).accept
    ensures u.Rejected? ==> u.message == InvalidMimeType
    ensures u.Stored? ==> mimetype in MimeTypeMap && EndsWith(u.path, "." + MimeTypeMap[mimetype])
  {
    var decision := FileFilter(mimetype);
    if decision.accept then Stored(StoredPath(generatedId, mimetype))
    else Rejected(decision.error.value)
  }
}
