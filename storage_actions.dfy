/** The server actions over the hosted object storage: upload an image under
    a generated name, delete the object a public URL points to, and the
    public base URL of a bucket. The storage service is an input: its answer
    to the one call each action makes. */
module StorageActions {
  import opened Common
  import opened Numbers

  const DefaultBucket := "products"
  const BannerBucket := "banners"

  /** The path between the project's address and a bucket in a public
      object URL. */
  const PublicPath := "/storage/v1/object/public/"

  /** A file picked in the browser. */
  datatype File = File(name: string, mimeType: string, size: nat)

  /** What the storage service answered to one call: success, an error
      object with its message, or an exception anywhere in the action. */
  datatype StorageReply = Stored | StorageError(message: string) | Threw

  /** An object of a bucket that an action uploaded or removed. */
  datatype StorageCall = StorageCall(bucket: string, objectName: string)

  /** `{ success, url?, error? }`. */
  datatype UploadResult = UploadResult(success: bool, url: Option<string>, error: Option<string>)

  /** The upload an action attempted (none when there was no file) and
      what it returned. */
  datatype Upload = Upload(call: Option<StorageCall>, result: UploadResult)

  /** `s.split(sep)` followed by taking the last part: the longest suffix of
      `s` that holds no `sep`. */
  function LastSegment(s: string, sep: char): (r: string)
    ensures |r| <= |s| && r == s[|s| - |r|..]
    ensures sep !in r
    ensures |r| < |s| ==> s[|s| - |r| - 1] == sep
  {
    if s == [] then []
    else if s[|s| - 1] == sep then []
    else
      var front := s[..|s| - 1];
      var rest := LastSegment(front, sep);
      assert front[|front| - |rest|..] + [s[|s| - 1]] == s[|s| - |rest| - 1..];
      rest + [s[|s| - 1]]
  }

  /** Whatever follows the last separator is its last segment. */
  lemma {:induction false} LastSegmentAfter(front: string, sep: char, last: string)
    requires sep !in last
    ensures LastSegment(front + [sep] + last, sep) == last
  {
    var s := front + [sep] + last;
    if last != [] {
      var init := last[..|last| - 1];
      assert s[..|s| - 1] == front + [sep] + init;
      LastSegmentAfter(front, sep, init);
      assert init + [last[|last| - 1]] == last;
    }
  }

  /** `file.name.split(".").pop()`: the text after the last dot, or the
      whole name when it has none. */
  function Extension(fileName: string): (ext: string)
    ensures '.' !in ext
    ensures '.' !in fileName ==> ext == fileName
  {
    LastSegment(fileName, '.')
  }

  /** The extension is what follows the last dot of the name. */
  lemma ExtensionAfterLastDot(stem: string, ext: string)
    requires '.' !in ext
    ensures Extension(stem + "." + ext) == ext
  {
    LastSegmentAfter(stem, '.', ext);
  }

  /** The generated object name: the upload instant in milliseconds, a
      dash, a random token and the file's extension. */
  function ObjectName(stamp: nat, token: string, fileName: string): (name: string)
    ensures '/' !in token && '/' !in fileName ==> '/' !in name
    ensures NatToString(stamp) <= name
    ensures var dotExt := "." + Extension(fileName);
      |dotExt| <= |name| && name[|name| - |dotExt|..] == dotExt
  {
    var ext := Extension(fileName);
    assert forall c :: c in ext ==> c in fileName;
    NatToString(stamp) + "-" + token + "." + ext
  }

  /** `getPublicUrl(name)` of a bucket of the project at `project`. */
  function PublicUrl(project: string, bucket: string, name: string): string
  {
    project + PublicPath + bucket + "/" + name
  }

  /** uploadImage. `stamp` is `Date.now()` and `token` the random text the
      action generates. `call` records the upload the action attempts for a
      file; on `Threw` the exception may come before that upload reaches
      storage (from creating the client), so it says what was attempted, not
      what was stored. */
  function UploadImage(file: Option<File>, bucket: string, project: string, stamp: nat, token: string, reply: StorageReply): (u: Upload)
    ensures file.None? ==> u == Upload(None, UploadResult(false, None, Some("No file provided")))
    ensures file.Some? ==> u.call == Some(StorageCall(bucket, ObjectName(stamp, token, file.value.name)))
    ensures u.result.success <==> file.Some? && reply.Stored?
    ensures u.result.success ==> u.result.url == Some(PublicUrl(project, bucket, u.call.value.objectName)) && u.result.error == None
    ensures !u.result.success ==> u.result.url == None && u.result.error.Some?
    ensures file.Some? && reply.StorageError? ==> u.result.error == Some(reply.message)
    ensures file.Some? && reply.Threw? ==> u.result.error == Some("Failed to upload image")
  {
    match file
    case None => Upload(None, UploadResult(false, None, Some("No file provided")))
    case Some(f) =>
      var name := ObjectName(stamp, token, f.name);
      var call := Some(StorageCall(bucket, name));
      match reply
      case Stored => Upload(call, UploadResult(true, Some(PublicUrl(project, bucket, name)), None))
      case StorageError(m) => Upload(call, UploadResult(false, None, Some(m)))
      case Threw => Upload(call, UploadResult(false, None, Some("Failed to upload image")))
  }

  /** uploadBannerImage: an upload into the banners bucket. */
  function UploadBannerImage(file: Option<File>, project: string, stamp: nat, token: string, reply: StorageReply): (u: Upload)
    ensures u.call.Some? ==> u.call.value.bucket == BannerBucket
    ensures u.result.success ==> u.result.url.Some? && project + PublicPath + BannerBucket <= u.result.url.value
  {
    UploadImage(file, BannerBucket, project, stamp, token, reply)
  }

  /** The object deleteImage removes for a URL: its last path segment. */
  function DeleteTarget(imageUrl: string): (name: string)
    ensures '/' !in name
  {
    LastSegment(imageUrl, '/')
  }

  /** deleteImage: removes the object the URL ends with from `bucket`. */
  function DeleteImage(imageUrl: string, bucket: string, reply: StorageReply): (d: (StorageCall, ActionResult))
    ensures d.0 == StorageCall(bucket, DeleteTarget(imageUrl))
    ensures d.1.success <==> reply.Stored?
    ensures reply.StorageError? ==> d.1.error == Some(reply.message)
    ensures reply.Threw? ==> d.1.error == Some("Failed to delete image")
    ensures reply.Stored? ==> d.1.error == None
  {
    var call := StorageCall(bucket, DeleteTarget(imageUrl));
    match reply
    case Stored => (call, ActionResult(true, None))
    case StorageError(m) => (call, ActionResult(false, Some(m)))
    case Threw => (call, ActionResult(false, Some("Failed to delete image")))
  }

  /** Deleting by the URL an upload returned removes the object that upload
      stored, provided neither the token nor the file name holds a slash. */
  lemma UploadThenDelete(file: File, bucket: string, project: string, stamp: nat, token: string, reply: StorageReply, deleteReply: StorageReply)
    requires '/' !in token && '/' !in file.name
    requires UploadImage(Some(file), bucket, project, stamp, token, reply).result.success
    ensures var u := UploadImage(Some(file), bucket, project, stamp, token, reply);
      DeleteImage(u.result.url.value, bucket, deleteReply).0 == u.call.value
  {
    var name := ObjectName(stamp, token, file.name);
    assert PublicUrl(project, bucket, name) == (project + PublicPath + bucket) + ['/'] + name;
    LastSegmentAfter(project + PublicPath + bucket, '/', name);
  }

  /** `s.replace(/\/$/, "")`: one trailing slash removed. */
  function TrimTrailingSlash(s: string): (r: string)
    ensures |s| > 0 && s[|s| - 1] == '/' ==> r + "/" == s
    ensures !(|s| > 0 && s[|s| - 1] == '/') ==> r == s
  {
    if |s| > 0 && s[|s| - 1] == '/' then s[..|s| - 1] else s
  }

  /** getStorageUrl: the public URL of the empty name without its slash,
      so that adding "/" and a name gives that name's public URL. */
  function GetStorageUrl(project: string, bucket: string): (base: string)
    ensures forall name :: base + "/" + name == PublicUrl(project, bucket, name)
  {
    var r := TrimTrailingSlash(PublicUrl(project, bucket, ""));
    assert r == project + PublicPath + bucket;
    r
  }
}
