// The request validators of the backend's schemas: e-mail addresses,
// password length, the merge output name, the compression quality range, the pages per split
// file, and the defaults those requests take when a field is omitted. A
// validator either returns the (possibly adjusted) value or rejects it with
// its message.

module Schemas {
  import opened Wrappers
  import opened Text

  const MIN_PASSWORD: nat := 8
  const PASSWORD_TOO_SHORT := "Senha deve ter pelo menos 8 caracteres"
  const NEW_PASSWORD_TOO_SHORT := "Nova senha deve ter pelo menos 8 caracteres"

  /** What the address validator behind `EmailStr` makes of a text: the
      reason it refuses it, or the local part and the normalised domain of
      the address it accepts. */
  datatype EmailVerdict = Invalid(reason: string) | Valid(local: string, domain: string)

  /** The text an accepted address is stored as: never empty, because it
      holds the '@' between its parts. */
  function AddressText(v: EmailVerdict): (e: string)
    requires v.Valid?
    ensures |e| > |v.local| && e[|v.local|] == '@'
    ensures StartsWith(e, v.local) && EndsWith(e, v.domain)
  {
    v.local + "@" + v.domain
  }

  /** `UserCreate.password`: at least eight characters, kept as given. */
  function ValidatePassword(v: string): (r: Result<string, string>)
    ensures r.Success? <==> |v| >= MIN_PASSWORD
    ensures r.Success? ==> r.value == v
    ensures r.Failure? ==> r.error == PASSWORD_TOO_SHORT
  {
    if |v| < 8 then Failure(PASSWORD_TOO_SHORT) else Success(v)
  }

  /** `PasswordChange.new_password`: the same rule with its own message. */
  function ValidateNewPassword(v: string): (r: Result<string, string>)
    ensures r.Success? <==> |v| >= MIN_PASSWORD
    ensures r.Success? ==> r.value == v
    ensures r.Failure? ==> r.error == NEW_PASSWORD_TOO_SHORT
  {
    if |v| < 8 then Failure(NEW_PASSWORD_TOO_SHORT) else Success(v)
  }

  const PDF_SUFFIX := ".pdf"

  /** `MergePDFRequest.output_filename`: ".pdf" is appended unless already there. */
  function ValidateFilename(v: string): (r: string)
    ensures EndsWith(r, PDF_SUFFIX)
    ensures StartsWith(r, v)
    ensures EndsWith(v, PDF_SUFFIX) ==> r == v
    ensures !EndsWith(v, PDF_SUFFIX) ==> |r| == |v| + |PDF_SUFFIX|
  {
    if EndsWith(v, PDF_SUFFIX) then v
    else
      var r := v + PDF_SUFFIX;
      assert r[|r| - |PDF_SUFFIX|..] == PDF_SUFFIX;
      r
  }

  /** Validating an already validated name changes nothing. */
  lemma ValidateFilenameIdempotent(v: string)
    ensures ValidateFilename(ValidateFilename(v)) == ValidateFilename(v)
  {
  }

  const QUALITY_OUT_OF_RANGE := "Qualidade deve estar entre 1 e 100"

  function ValidateQuality(q: int): (r: Result<int, string>)
    ensures r.Success? <==> 1 <= q <= 100
    ensures r.Success? ==> r.value == q
    ensures r.Failure? ==> r.error == QUALITY_OUT_OF_RANGE
  {
    if !(1 <= q <= 100) then Failure(QUALITY_OUT_OF_RANGE) else Success(q)
  }

  const PAGES_TOO_FEW := "Páginas por arquivo deve ser pelo menos 1"

  function ValidatePagesPerFile(v: int): (r: Result<int, string>)
    ensures r.Success? <==> v >= 1
    ensures r.Success? ==> r.value == v
    ensures r.Failure? ==> r.error == PAGES_TOO_FEW
  {
    if v < 1 then Failure(PAGES_TOO_FEW) else Success(v)
  }

  const DEFAULT_ORDER_INDEX: int := 0
  const DEFAULT_QUALITY: int := 85
  const DEFAULT_PAGES_PER_FILE: int := 1
  const DEFAULT_OUTPUT_PREFIX := "split"

  datatype CompressRequest = CompressRequest(inputFileId: int, quality: int, outputFilename: string)

  datatype SplitRequest = SplitRequest(inputFileId: int, pagesPerFile: int, outputPrefix: string)

  /**
   * Building a compression request: an omitted quality takes the default
   * without running the validator, a given one must pass it.
   */
  function NewCompressRequest(inputFileId: int, quality: Option<int>, outputFilename: string): (r: Result<CompressRequest, string>)
    ensures r.Success? <==> quality.None? || 1 <= quality.value <= 100
    ensures r.Success? ==> r.value.inputFileId == inputFileId && r.value.outputFilename == outputFilename
    ensures r.Success? ==> r.value.quality == quality.GetOr(DEFAULT_QUALITY)
  {
    match quality
    case None => Success(CompressRequest(inputFileId, DEFAULT_QUALITY, outputFilename))
    case Some(q) =>
      match ValidateQuality(q)
      case Success(v) => Success(CompressRequest(inputFileId, v, outputFilename))
      case Failure(e) => Failure(e)
  }

  /** Building a split request: omitted fields take 1 page and the prefix "split". */
  function NewSplitRequest(inputFileId: int, pagesPerFile: Option<int>, outputPrefix: Option<string>): (r: Result<SplitRequest, string>)
    ensures r.Success? <==> pagesPerFile.None? || pagesPerFile.value >= 1
    ensures r.Success? ==> r.value.inputFileId == inputFileId
    ensures r.Success? ==> r.value.pagesPerFile == pagesPerFile.GetOr(DEFAULT_PAGES_PER_FILE)
    ensures r.Success? ==> r.value.outputPrefix == outputPrefix.GetOr(DEFAULT_OUTPUT_PREFIX)
  {
    var prefix := outputPrefix.GetOr(DEFAULT_OUTPUT_PREFIX);
    match pagesPerFile
    case None => Success(SplitRequest(inputFileId, DEFAULT_PAGES_PER_FILE, prefix))
    case Some(p) =>
      match ValidatePagesPerFile(p)
      case Success(v) => Success(SplitRequest(inputFileId, v, prefix))
      case Failure(e) => Failure(e)
  }

  /** Every request that can be built has a quality in 1..100 and at least one page per file. */
  lemma RequestsWithinRange(inputFileId: int, quality: Option<int>, pages: Option<int>, name: string, prefix: Option<string>)
    ensures NewCompressRequest(inputFileId, quality, name).Success? ==>
      ValidateQuality(NewCompressRequest(inputFileId, quality, name).value.quality).Success?
    ensures NewSplitRequest(inputFileId, pages, prefix).Success? ==>
      ValidatePagesPerFile(NewSplitRequest(inputFileId, pages, prefix).value.pagesPerFile).Success?
  {
  }

  datatype PdfFileBase = PdfFileBase(originalFilename: string, orderIndex: int)

  /** A file record takes order index 0 unless one is given. */
  function NewPdfFileBase(originalFilename: string, orderIndex: Option<int>): (r: PdfFileBase)
    ensures r.originalFilename == originalFilename
    ensures orderIndex.None? ==> r.orderIndex == DEFAULT_ORDER_INDEX
    ensures orderIndex.Some? ==> r.orderIndex == orderIndex.value
  {
    PdfFileBase(originalFilename, orderIndex.GetOr(DEFAULT_ORDER_INDEX))
  }
}
