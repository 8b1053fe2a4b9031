/** The checks of src/lib/cloudinary.ts: `validateImageFile` and the size
    check at the top of `uploadToCloudinary`. A file is its MIME type and its
    size in bytes. */
module Cloudinary {
  import opened Wrappers

  /** `MAX_FILE_SIZE`: 1 MiB. */
  const MaxFileSize: nat := 1024 * 1024

  const ValidTypes: seq<string> := ["image/jpeg", "image/png", "image/webp", "image/jpg"]

  datatype ImageError = WrongType | TooLarge {
    function Message(): string {
      match this
      case WrongType => "Apenas imagens JPG, PNG ou WEBP s\U{E3}o permitidas"
      case TooLarge => "A imagem deve ter no m\U{E1}ximo 1MB"
    }
  }

  /** `validateImageFile`: the type is checked before the size. */
  function ValidateImageFile(mimeType: string, size: nat): (r: Option<ImageError>)
    ensures r == Some(WrongType) <==> mimeType !in ValidTypes
    ensures r == Some(TooLarge) <==> mimeType in ValidTypes && size > MaxFileSize
    ensures r.None? <==> mimeType in ValidTypes && size <= MaxFileSize
  {
    if mimeType !in ValidTypes then Some(WrongType)
    else if size > MaxFileSize then Some(TooLarge)
    else None
  }

  /** The check `uploadToCloudinary` makes before building any request: the
      size alone, whatever the type. */
  function UploadPrecheck(size: nat): (r: Option<ImageError>)
    ensures r.None? <==> size <= MaxFileSize
    ensures r.Some? ==> r.value == TooLarge
  {
    if size > MaxFileSize then Some(TooLarge) else None
  }

  /** A file the validator accepts passes the upload check; a file the upload
      check refuses is refused by the validator too, with the same message
      when its type is valid. */
  lemma ValidatorImpliesPrecheck(mimeType: string, size: nat)
    ensures ValidateImageFile(mimeType, size).None? ==> UploadPrecheck(size).None?
    ensures UploadPrecheck(size).Some? ==> ValidateImageFile(mimeType, size).Some?
    ensures UploadPrecheck(size).Some? && mimeType in ValidTypes ==>
              ValidateImageFile(mimeType, size).value.Message() == UploadPrecheck(size).value.Message()
  {
  }

  /** Exactly 1 MiB is accepted and one byte more is not. */
  lemma SizeBoundary()
    ensures MaxFileSize == 1048576
    ensures ValidateImageFile("image/png", 1048576).None?
    ensures ValidateImageFile("image/png", 1048577) == Some(TooLarge)
  {
  }
}
