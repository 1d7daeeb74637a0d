/** The image field of the admin forms: a text box for a URL, a file picker
    that checks the file and uploads it through a storage action, and a
    preview. The parent's `onChange` is modelled as the `value` field it
    keeps for the component. */
module Upload {
  import opened Common
  import opened StorageActions

  /** The largest file accepted: 5 MB. */
  const MaxImageBytes: nat := 5 * 1024 * 1024

  /** The outcome of the checks made before uploading, in their order. */
  datatype Verdict = Accepted | NotAnImage | TooLarge

  /** The type check comes first, then the size check. */
  function Check(file: File): (v: Verdict)
    ensures v == NotAnImage <==> !("image/" <= file.mimeType)
    ensures v == TooLarge <==> "image/" <= file.mimeType && file.size > MaxImageBytes
    ensures v == Accepted <==> "image/" <= file.mimeType && file.size <= MaxImageBytes
  {
    if !("image/" <= file.mimeType) then NotAnImage
    else if file.size > MaxImageBytes then TooLarge
    else Accepted
  }

  /** A file of exactly 5 MB is accepted, one byte more is refused, and a
      file that is not an image is refused whatever its size. */
  lemma SizeLimitBoundary(name: string, mimeType: string)
    ensures Check(File(name, "image/" + mimeType, MaxImageBytes)) == Accepted
    ensures Check(File(name, "image/" + mimeType, MaxImageBytes + 1)) == TooLarge
    ensures Check(File(name, "text/plain", MaxImageBytes + 1)) == NotAnImage
  {
    assert "image/" <= "image/" + mimeType;
    assert !("image/" <= "text/plain") by {
      assert "text/plain"[0] != "image/"[0];
    }
  }

  /** The bucket the component was given. */
  datatype Bucket = ProductsBucket | BannersBucket

  /** The bucket an upload from the component lands in: the banner upload
      for the banners bucket, the plain upload (default bucket) otherwise. */
  function TargetBucket(b: Bucket): (name: string)
    ensures name == if b == BannersBucket then BannerBucket else DefaultBucket
  {
    match b
    case BannersBucket => BannerBucket
    case ProductsBucket => DefaultBucket
  }

  /** What the awaited upload action did: returned a result, or threw. */
  datatype Attempt = Returned(result: UploadResult) | Raised

  /** The toast shown once the upload settled, and the URL taken when it
      succeeded with a non-empty URL. */
  function Settled(attempt: Attempt): (s: (Toast, Option<string>))
    ensures s.1.Some? <==> attempt.Returned? && attempt.result.success && Truthy(attempt.result.url)
    ensures s.1.Some? ==> s.1 == attempt.result.url && s.0 == SuccessToast("Imagen subida correctamente")
    ensures s.1.None? && attempt.Returned? ==> s.0 == ErrorToast(OrElse(attempt.result.error, "Error al subir imagen"))
    ensures attempt.Raised? ==> s.0 == ErrorToast("Error al subir imagen")
  {
    match attempt
    case Raised => (ErrorToast("Error al subir imagen"), None)
    case Returned(r) =>
      if r.success && Truthy(r.url) then (SuccessToast("Imagen subida correctamente"), r.url)
      else (ErrorToast(OrElse(r.error, "Error al subir imagen")), None)
  }

  class ImageUpload {
    var value: string
    var preview: Option<string>
    var isUploading: bool
    /** The file the picker holds. */
    var pickerFile: Option<File>
    const bucket: Bucket

    /** The preview shows the current value, and nothing for an empty one. */
    ghost predicate Valid()
      reads this
    {
      preview == NullIfEmpty(value)
    }

    /** `useState(value || null)`. */
    constructor (value: string, bucket: Bucket)
      ensures Valid() && this.value == value && this.bucket == bucket
      ensures preview == NullIfEmpty(value) && !isUploading && pickerFile == None
    {
      this.value := value;
      this.bucket := bucket;
      preview := NullIfEmpty(value);
      isUploading := false;
      pickerFile := None;
    }

    /** handleFileChange for the file the admin picked (none when the
      picker was dismissed). A file that fails a check is refused with a
      toast and stays in the picker; an accepted file is uploaded to
      `uploadedTo`, and after the upload settles the spinner stops and the
      picker is cleared. Only an upload with a URL changes the value. */
    method HandleFileChange(picked: Option<File>, attempt: Attempt) returns (toast: Option<Toast>, uploadedTo: Option<string>)
      requires Valid()
      modifies this
      ensures Valid()
      ensures picked.None? ==>
        toast == None && uploadedTo == None && value == old(value) &&
        preview == old(preview) && pickerFile == old(pickerFile) && isUploading == old(isUploading)
      ensures picked.Some? && Check(picked.value) != Accepted ==>
        uploadedTo == None && value == old(value) && preview == old(preview) &&
        pickerFile == picked && isUploading == old(isUploading) &&
        toast == Some(ErrorToast(if Check(picked.value) == NotAnImage
                                 then "Solo se permiten archivos de imagen"
                                 else "La imagen no puede superar 5MB"))
      ensures picked.Some? && Check(picked.value) == Accepted ==>
        uploadedTo == Some(TargetBucket(bucket)) && toast == Some(Settled(attempt).0) &&
        !isUploading && pickerFile == None &&
        (Settled(attempt).1.Some? ==> value == Settled(attempt).1.value) &&
        (Settled(attempt).1.None? ==> value == old(value) && preview == old(preview))
    {
      if picked.None? {
        return None, None;
      }
      pickerFile := picked;
      var file := picked.value;
      match Check(file) {
        case NotAnImage =>
          return Some(ErrorToast("Solo se permiten archivos de imagen")), None;
        case TooLarge =>
          return Some(ErrorToast("La imagen no puede superar 5MB")), None;
        case Accepted =>
      }
      isUploading := true;
      uploadedTo := Some(TargetBucket(bucket));
      var (shown, url) := Settled(attempt);
      if url.Some? {
        preview := url;
        value := url.value;
      }
      toast := Some(shown);
      isUploading := false;
      pickerFile := None;
    }

    /** handleUrlChange: typing a URL. */
    method HandleUrlChange(url: string)
      modifies this
      ensures Valid() && value == url
      ensures isUploading == old(isUploading) && pickerFile == old(pickerFile)
    {
      value := url;
      preview := NullIfEmpty(url);
    }

    /** clearImage. */
    method ClearImage()
      modifies this
      ensures Valid() && value == "" && preview == None
      ensures isUploading == old(isUploading) && pickerFile == old(pickerFile)
    {
      value := "";
      preview := None;
    }
  }
}
