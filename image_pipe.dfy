/**
  `ImageValidation.transform`, the pipe in front of image uploads: a file
  must be present, have one of five image mimetypes and be at most 10 MiB;
  the checks run in that order, and an accepted file is passed on as it is.
 */
module ImagePipe {
  import opened Wrappers
  import opened Exceptions
  import opened JsString

  /** The parts of a multer upload the pipe looks at or passes on. */
  datatype UploadedFile = UploadedFile(
    fieldname: string,
    originalname: string,
    mimetype: string,
    size: nat,
    buffer: seq<bv8>)

  const MiB: nat := 1024 * 1024
  const MaxSize: nat := 10 * MiB

  const AllowedMimes: seq<string> := ["image/jpeg", "image/png", "image/webp", "image/gif", "image/avif"]

  const NoFileMessage := "No file uploaded"

  function MimeMessage(mimetype: string): string {
    "Format file tidak didukung: " + mimetype + ". " +
    "Format yang dibolehkan: " + JoinWith(AllowedMimes, ", ")
  }

  /** The decimal digit of `d`. */
  function Digit(d: nat): (c: char)
    requires d < 10
    ensures '0' <= c <= '9'
  {
    "0123456789"[d]
  }

  /** `(size / MiB).toFixed(2)`: the quotient is an exact binary fraction, so
      `toFixed` rounds it to hundredths, half-way cases upwards. */
  function MegabytesText(size: nat): (r: string)
    ensures var n := (size * 100 + MiB / 2) / MiB;
            && r == NatToString(n / 100) + [ '.', Digit(n % 100 / 10), Digit(n % 10) ]
            && n * MiB <= size * 100 + MiB / 2 < (n + 1) * MiB
  {
    var n := (size * 100 + MiB / 2) / MiB;
    NatToString(n / 100) + [ '.', Digit(n % 100 / 10), Digit(n % 10) ]
  }

  /** The limit `maxSize / (1024 * 1024)` as the message prints it. */
  const MaxMegabytesText := "10"

  function SizeMessage(size: nat): string {
    "Ukuran file terlalu besar: " + MegabytesText(size) + " MB. " +
    "Maksimal ukuran file adalah " + MaxMegabytesText + " MB."
  }

  /** `transform(file)`: `None` is a request without a file. */
  function Transform(file: Option<UploadedFile>): (r: Result<UploadedFile, Thrown>)
    ensures r.Ok? <==> file.Some? && file.value.mimetype in AllowedMimes && file.value.size <= MaxSize
    ensures r.Ok? ==> r.value == file.value
    ensures file.None? ==> r == Err(BadRequest(NoFileMessage))
    ensures file.Some? && file.value.mimetype !in AllowedMimes ==>
              r == Err(BadRequest(MimeMessage(file.value.mimetype)))
    ensures file.Some? && file.value.mimetype in AllowedMimes && file.value.size > MaxSize ==>
              r == Err(BadRequest(SizeMessage(file.value.size)))
  {
    if file.None? then Err(BadRequest(NoFileMessage))
    else if file.value.mimetype !in AllowedMimes then Err(BadRequest(MimeMessage(file.value.mimetype)))
    else if file.value.size > MaxSize then Err(BadRequest(SizeMessage(file.value.size)))
    else Ok(file.value)
  }

  /** The bound is inclusive: a file of exactly 10 MiB passes and one byte
      more is refused, and only the size tells the two apart. */
  lemma SizeBoundary(file: UploadedFile)
    requires file.mimetype in AllowedMimes
    ensures file.size == 10485760 ==> Transform(Some(file)) == Ok(file)
    ensures file.size == 10485761 ==> Transform(Some(file)).Err?
    ensures Transform(Some(file)).Ok? <==> Transform(Some(file.(size := 0))).Ok? && file.size <= 10485760
  {
  }

  /** A wrong mimetype is reported whatever the size, so an oversized file of
      the wrong type is refused for its type. */
  lemma MimeCheckedFirst(file: UploadedFile, size: nat)
    requires file.mimetype !in AllowedMimes
    ensures Transform(Some(file.(size := size))) == Transform(Some(file))
  {
  }

  /** The pipe is idempotent: an accepted file passes again unchanged. */
  lemma TransformIdempotent(file: Option<UploadedFile>)
    requires Transform(file).Ok?
    ensures Transform(Some(Transform(file).value)) == Transform(file)
  {
  }
}
