/**
 The image storage rules used by the admin screens: which files may be
 uploaded, how the stored object's path and extension are built, when a
 path is resolved through the storage service and when a deletion is issued.
 The storage service itself is a parameter: its URL builder is a function and
 its replies to an upload or a removal are inputs.
 */
module ImageStorage {
  import opened Wrappers
  import opened Text

  const AllowedTypes: seq<string> := ["image/jpeg", "image/png", "image/webp", "image/gif"]
  const MaxFileSize: nat := 5 * 1024 * 1024

  datatype ImageFile = ImageFile(name: string, mimeType: string, size: nat)

  datatype ImageError =
    | UnsupportedType(mimeType: string)
    | TooLarge(size: nat)
  {
    /** The size message's megabyte figure is left to the renderer. */
    function TypeMessage(): (m: string)
      requires UnsupportedType?
      ensures StartsWith(m, "Tipo de arquivo não suportado: ")
      ensures |m| > 31 + |mimeType| && m[31..31 + |mimeType|] == mimeType
      ensures m[31 + |mimeType|..] == ". Use JPEG, PNG, WebP ou GIF."
    {
      "Tipo de arquivo não suportado: " + mimeType + ". Use JPEG, PNG, WebP ou GIF."
    }
  }

  /** `validateImageFile`: the type is checked before the size. */
  function ValidateImageFile(file: ImageFile): (r: Option<ImageError>)
    ensures r.None? <==> file.mimeType in AllowedTypes && file.size <= MaxFileSize
    ensures file.mimeType !in AllowedTypes ==> r == Some(UnsupportedType(file.mimeType))
    ensures r == Some(TooLarge(file.size)) <==> file.mimeType in AllowedTypes && file.size > MaxFileSize
  {
    if file.mimeType !in AllowedTypes then Some(UnsupportedType(file.mimeType))
    else if file.size > MaxFileSize then Some(TooLarge(file.size))
    else None
  }

  // ---------------------------------------------------------------- paths

  predicate IsAbsoluteUrl(path: string) {
    StartsWith(path, "http://") || StartsWith(path, "https://")
  }

  /** A path that names an object in the storage bucket rather than an external image. */
  predicate IsStoragePath(path: string) {
    path != [] && !IsAbsoluteUrl(path)
  }

  /** `getPublicUrl`: `urlOf` is the storage service's own URL builder. */
  function GetPublicUrl(path: string, urlOf: string -> string): (url: string)
    ensures path == [] ==> url == []
    ensures IsAbsoluteUrl(path) ==> url == path
    ensures IsStoragePath(path) ==> url == urlOf(path)
  {
    if path == [] then []
    else if IsAbsoluteUrl(path) then path
    else urlOf(path)
  }

  /** When the storage service hands out absolute URLs, resolving a resolved path changes nothing. */
  lemma PublicUrlIdempotent(path: string, urlOf: string -> string)
    requires forall p :: IsAbsoluteUrl(urlOf(p))
    ensures GetPublicUrl(GetPublicUrl(path, urlOf), urlOf) == GetPublicUrl(path, urlOf)
  {
  }

  datatype Resize = Cover | Contain | Fill
  datatype TransformOptions = TransformOptions(width: Option<int>, height: Option<int>, quality: Option<int>, resize: Option<Resize>)
  datatype Transform = Transform(width: int, height: int, quality: int, resize: Resize)

  /** Absent transformation options default to 800 x 600 at quality 80, cropped to cover. */
  function TransformFor(options: TransformOptions): (t: Transform)
    ensures options == TransformOptions(None, None, None, None) ==> t == Transform(800, 600, 80, Cover)
    ensures options.width.Some? ==> t.width == options.width.value
    ensures options.width.None? ==> t.width == 800
    ensures options.height.Some? ==> t.height == options.height.value
    ensures options.height.None? ==> t.height == 600
    ensures options.quality.Some? ==> t.quality == options.quality.value
    ensures options.quality.None? ==> t.quality == 80
    ensures options.resize.Some? ==> t.resize == options.resize.value
    ensures options.resize.None? ==> t.resize == Cover
  {
    Transform(options.width.GetOr(800), options.height.GetOr(600), options.quality.GetOr(80), options.resize.GetOr(Cover))
  }

  /** Spelling out every option of a transformation gives back that transformation. */
  lemma TransformForExplicit(t: Transform)
    ensures TransformFor(TransformOptions(Some(t.width), Some(t.height), Some(t.quality), Some(t.resize))) == t
  {
  }

  /** `getTransformedUrl`: the same guards as `GetPublicUrl`, with a transformation for storage paths. */
  function GetTransformedUrl(path: string, options: TransformOptions, urlOf: (string, Transform) -> string): (url: string)
    ensures !IsStoragePath(path) ==> url == path
    ensures IsStoragePath(path) ==> url == urlOf(path, TransformFor(options))
  {
    if path == [] then []
    else if IsAbsoluteUrl(path) then path
    else urlOf(path, TransformFor(options))
  }

  /** The text after the last `.` of `name`, or all of `name` when it has no dot. */
  function AfterLastDot(name: string): (r: string)
    ensures |r| <= |name| && r == name[|name| - |r|..]
    ensures '.' !in r
    ensures |r| < |name| ==> name[|name| - |r| - 1] == '.'
  {
    if name == [] then []
    else if name[|name| - 1] == '.' then []
    else AfterLastDot(name[..|name| - 1]) + [name[|name| - 1]]
  }

  /** `name.split('.').pop().toLowerCase()`; the `'jpg'` fallback is unreachable because `split` never yields an empty array. */
  function FileExtension(name: string): (ext: string)
    ensures '.' !in name ==> ext == ToLower(name)
  {
    ToLower(AfterLastDot(name))
  }

  lemma AfterLastDotOfSuffix(base: string, ext: string)
    requires '.' !in ext
    ensures AfterLastDot(base + "." + ext) == ext
  {
    var name := base + "." + ext;
    var r := AfterLastDot(name);
    assert name[|name| - |ext|..] == ext;
    assert name[|base|] == '.';
    if |r| < |ext| {
      assert false;
    } else if |r| > |ext| {
      assert false;
    }
  }

  /** A name ending in `.ext`, with no dot in `ext`, has the extension `ext` in lower case. */
  lemma FileExtensionOfName(base: string, ext: string)
    requires '.' !in ext
    ensures FileExtension(base + "." + ext) == ToLower(ext)
  {
    AfterLastDotOfSuffix(base, ext);
  }

  /** `${Date.now()}_${token}.${ext}`; `token` stands for the random base-36 text. */
  function UniqueName(now: nat, token: string, ext: string): (r: string)
    ensures var stamp := NatToString(now);
      && |r| == |stamp| + |token| + |ext| + 2
      && r[..|stamp|] == stamp && r[|stamp|] == '_'
      && r[|r| - |ext| - 1] == '.' && r[|r| - |ext|..] == ext
  {
    NatToString(now) + "_" + token + "." + ext
  }

  /** The object path: inside `folder` when one is given. */
  function UploadPath(folder: string, name: string): (path: string)
    ensures |path| >= |name| && path[|path| - |name|..] == name
    ensures folder == [] ==> path == name
    ensures folder != [] ==> |path| == |folder| + 1 + |name| && path[..|folder|] == folder && path[|folder|] == '/'
  {
    if folder != [] then folder + "/" + name else name
  }

  // ---------------------------------------------------------------- upload, delete, replace

  /** The storage service's answer to an upload: the stored path, or an error. */
  datatype UploadReply = UploadedAt(path: string) | UploadRejected(message: string)

  datatype UploadError = Invalid(error: ImageError) | StorageError(message: string)

  datatype StoredImage = StoredImage(path: string, publicUrl: string)

  /** The upload request issued (if any) and what `uploadImage` resolves or throws. */
  datatype UploadReport = UploadReport(request: Option<string>, result: Result<StoredImage, UploadError>)

  /** `uploadImage`: validate, name the object, upload, then resolve its public URL. */
  function UploadImage(file: ImageFile, folder: string, now: nat, token: string,
                       reply: UploadReply, urlOf: string -> string): (r: UploadReport)
    ensures r.request.None? <==> ValidateImageFile(file).Some?
    ensures ValidateImageFile(file).Some? ==> r.result == Failure(Invalid(ValidateImageFile(file).value))
    ensures r.request.Some? ==> r.request.value == UploadPath(folder, UniqueName(now, token, FileExtension(file.name)))
    ensures r.result.Success? <==> r.request.Some? && reply.UploadedAt?
    ensures r.result.Success? ==> r.result.value.path == reply.path && r.result.value.publicUrl == GetPublicUrl(reply.path, urlOf)
    ensures r.request.Some? && reply.UploadRejected? ==> r.result == Failure(StorageError(reply.message))
  {
    match ValidateImageFile(file)
    case Some(error) => UploadReport(None, Failure(Invalid(error)))
    case None =>
      var path := UploadPath(folder, UniqueName(now, token, FileExtension(file.name)));
      match reply
      case UploadRejected(message) => UploadReport(Some(path), Failure(StorageError(message)))
      case UploadedAt(stored) => UploadReport(Some(path), Success(StoredImage(stored, GetPublicUrl(stored, urlOf))))
  }

  /** The removal request issued (if any) and whether `deleteImage` throws. */
  datatype DeleteReport = DeleteReport(request: Option<string>, error: Option<string>)

  /** `deleteImage`: empty and absolute paths are left alone; a removal error is rethrown. */
  function DeleteImage(path: string, removeError: Option<string>): (r: DeleteReport)
    ensures r.request.Some? <==> IsStoragePath(path)
    ensures r.request.Some? ==> r.request.value == path
    ensures r.error.Some? <==> IsStoragePath(path) && removeError.Some?
  {
    if !IsStoragePath(path) then DeleteReport(None, None)
    else DeleteReport(Some(path), removeError)
  }

  /** A deletion is issued exactly for the paths whose URL the storage service builds. */
  lemma DeleteMatchesResolution(path: string, urlOf: string -> string)
    requires forall p :: IsAbsoluteUrl(urlOf(p))
    ensures DeleteImage(path, None).request.Some? <==> path != [] && GetPublicUrl(path, urlOf) != path
  {
  }

  datatype ReplaceReport = ReplaceReport(deleteRequest: Option<string>, upload: UploadReport)

  /** `replaceImage`: try to remove the old image, ignoring failure, then upload the new one. */
  function ReplaceImage(file: ImageFile, oldPath: Option<string>, folder: string, now: nat, token: string,
                        removeError: Option<string>, reply: UploadReply, urlOf: string -> string): (r: ReplaceReport)
    ensures r.upload == UploadImage(file, folder, now, token, reply, urlOf)
    ensures r.deleteRequest.Some? <==> oldPath.Some? && IsStoragePath(oldPath.value)
    ensures r.deleteRequest.Some? ==> r.deleteRequest.value == oldPath.value
  {
    var deleted := if oldPath.Some? && oldPath.value != [] then DeleteImage(oldPath.value, removeError).request else None;
    ReplaceReport(deleted, UploadImage(file, folder, now, token, reply, urlOf))
  }

  /** The old image is removed before the new file is validated, so a rejected file still costs the old image. */
  lemma ReplaceDeletesBeforeValidating(file: ImageFile, oldPath: string, folder: string, now: nat, token: string,
                                       reply: UploadReply, urlOf: string -> string)
    requires IsStoragePath(oldPath) && file.mimeType !in AllowedTypes
    ensures var r := ReplaceImage(file, Some(oldPath), folder, now, token, None, reply, urlOf);
      && r.deleteRequest == Some(oldPath)
      && r.upload.request.None?
      && r.upload.result == Failure(Invalid(UnsupportedType(file.mimeType)))
  {
  }
}
