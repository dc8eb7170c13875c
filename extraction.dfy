/**
 * The text extractors behind the upload handlers (pdfplumber for PDFs, tesseract for
 * images), which are not part of this model: an extractor is the text it returns for the
 * uploaded bytes read as each kind of file, or the message of the exception it raises.
 */
module Extraction {
  import opened Results
  import opened PyStr

  /** Which extractor a handler calls. */
  datatype FileKind = Pdf | Image

  type Extractor = FileKind -> Result<string, string>

  /**
   * The extension dispatch of the local-stack and local-mode handlers: a case-insensitive
   * `.pdf`, then `.png`, `.jpg` or `.jpeg`.
   */
  function KindByExtension(filename: string): (kind: Option<FileKind>)
    ensures kind == Some(Pdf) <==> EndsWith(Lower(filename), ".pdf")
    ensures kind == Some(Image) <==>
      !EndsWith(Lower(filename), ".pdf")
      && (EndsWith(Lower(filename), ".png") || EndsWith(Lower(filename), ".jpg") || EndsWith(Lower(filename), ".jpeg"))
  {
    var name := Lower(filename);
    if EndsWith(name, ".pdf") then Some(Pdf)
    else if EndsWith(name, ".png") || EndsWith(name, ".jpg") || EndsWith(name, ".jpeg") then Some(Image)
    else None
  }
}
