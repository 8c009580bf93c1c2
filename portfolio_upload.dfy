/** app/api/portfolio/upload/route.ts: the admin uploads a PDF portfolio, whose extracted
    text is stored in `portfolios`. */
module PortfolioUploadRoute {
  import opened Wrappers
  import opened Records
  import opened Store
  import opened AuthCheck

  newtype byte = x: int | 0 <= x < 256

  /** The `file` form field: its name, its MIME type, its size in bytes and its bytes. */
  datatype UploadFile = UploadFile(name: string, mimeType: string, size: nat, bytes: seq<byte>)

  const NoFile: string := "파일이 없습니다"
  const PdfOnly: string := "PDF 파일만 업로드 가능합니다"
  const TooLarge: string := "파일 크기는 10MB 이하여야 합니다"
  const UploadFailed: string := "업로드 중 오류가 발생했습니다"
  const PdfType: string := "application/pdf"
  /** 10 MB: the largest file accepted. */
  const MaxUploadSize: nat := 10 * 1024 * 1024

  /** Why a file is refused before its text is extracted, if it is. */
  function Rejection(file: Option<UploadFile>): (e: Option<string>)
    ensures e.None? <==> file.Some? && file.value.mimeType == PdfType && file.value.size <= MaxUploadSize
    ensures file.None? ==> e == Some(NoFile)
    ensures file.Some? && file.value.mimeType != PdfType ==> e == Some(PdfOnly)
    ensures file.Some? && file.value.mimeType == PdfType && file.value.size > MaxUploadSize ==> e == Some(TooLarge)
  {
    if file.None? then Some(NoFile)
    else if file.value.mimeType != PdfType then Some(PdfOnly)
    else if file.value.size > MaxUploadSize then Some(TooLarge)
    else None
  }

  /** POST. `extractText` is the PDF parser: None when it cannot read the file, which like any
      other failure answers 500. */
  method Post(db: Db, session: Option<Identity>, file: Option<UploadFile>,
              extractText: seq<byte> -> Option<string>, now: int)
    returns (r: Response)
    requires db.Valid()
    modifies db`portfolios, db`nextId
    ensures db.Valid()
    ensures !CheckAdminAuth(session).isAdmin ==> r == Refusal(CheckAdminAuth(session)) && unchanged(db)
    ensures CheckAdminAuth(session).isAdmin && Rejection(file).Some?
      ==> r == Response(400, Error(Rejection(file).value)) && unchanged(db)
    ensures CheckAdminAuth(session).isAdmin && Rejection(file).None? && extractText(file.value.bytes).None?
      ==> r == Response(500, Error(UploadFailed)) && unchanged(db)
    ensures CheckAdminAuth(session).isAdmin && Rejection(file).None? && extractText(file.value.bytes).Some?
      ==> r == Response(200, PortfolioUploaded(old(db.nextId)))
          && db.portfolios == old(db.portfolios)
               + [Doc(old(db.nextId), Portfolio(session.value.id, file.value.name,
                                                 extractText(file.value.bytes).value, now, None))]
          && db.nextId == old(db.nextId) + 1
  {
    var auth := CheckAdminAuth(session);
    if !auth.isAdmin {
      return Refusal(auth);
    }
    var refused := Rejection(file);
    if refused.Some? {
      return Response(400, Error(refused.value));
    }
    var content := extractText(file.value.bytes);
    if content.None? {
      return Response(500, Error(UploadFailed));
    }
    var id := db.InsertPortfolio(Portfolio(auth.userId.value, file.value.name, content.value, now, None));
    r := Response(200, PortfolioUploaded(id));
  }
}
