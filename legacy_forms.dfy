/** The older create-book schema. Its text fields need two characters, and
    each file field must be a file list holding exactly one file; there is no
    type or size check. */
module LegacyForms {
  import opened Wrappers
  import opened BookForms

  /** The validation library's own message when a value is not a file list. */
  const NotAFileListMessage := "Input not instance of FileList"
  const LegacyTitleMessage := "title must be at least 2 characters."

  /** The checks of one file field: an absent value fails the file-list check,
      which stops the field there; a list fails when it does not hold exactly
      one file. */
  function FileFieldIssues(path: Field, list: Option<FileList>, requiredMessage: string): (issues: seq<Issue>)
    ensures issues == [] <==> ExactlyOne(list)
    ensures |issues| <= 1
  {
    if list.None? then [Issue(path, NotAFileListMessage)]
    else Check(path, |list.value| == 1, requiredMessage)
  }

  function LegacyIssues(f: BookForm): seq<Issue> {
    Check(Title, JsLength(f.title) >= 2, LegacyTitleMessage)
    + Check(Genre, JsLength(f.genre) >= 2, GenreMessage)
    + Check(Description, JsLength(f.description) >= 2, DescriptionMessage)
    + FileFieldIssues(CoverImage, f.coverImage, CoverRequiredMessage)
    + FileFieldIssues(File, f.file, BookRequiredMessage)
  }

  function ValidateLegacy(f: BookForm): Result<BookForm, seq<Issue>> {
    Validate(f, LegacyIssues(f))
  }

  /** The legacy schema accepts a form exactly when every text field is at
      least two UTF-16 code units long and each file field holds exactly one
      file. */
  lemma LegacyAcceptance(f: BookForm)
    ensures ValidateLegacy(f).Success? <==>
      && JsLength(f.title) >= 2 && JsLength(f.genre) >= 2 && JsLength(f.description) >= 2
      && f.coverImage.Some? && |f.coverImage.value| == 1
      && f.file.Some? && |f.file.value| == 1
  {
  }

  /** A file field's verdict does not depend on the file's type or size. */
  lemma LegacyIgnoresFileContents(f: BookForm, cover: FileInfo, book: FileInfo)
    requires ExactlyOne(f.coverImage) && ExactlyOne(f.file)
    ensures LegacyIssues(f) == LegacyIssues(f.(coverImage := Some([cover]), file := Some([book])))
  {
  }

  /** A missing file list is refused by the file-list check alone; an empty or
      longer list is refused with the "required" message. */
  lemma LegacyFileFieldMessages(f: BookForm)
    ensures f.coverImage.None? ==>
      Issue(CoverImage, "Input not instance of FileList") in LegacyIssues(f)
      && Issue(CoverImage, "Cover image is required") !in LegacyIssues(f)
    ensures f.coverImage.Some? && |f.coverImage.value| != 1 ==>
      Issue(CoverImage, "Cover image is required") in LegacyIssues(f)
    ensures f.file.None? ==>
      Issue(File, "Input not instance of FileList") in LegacyIssues(f)
      && Issue(File, "Book file is required") !in LegacyIssues(f)
    ensures f.file.Some? && |f.file.value| != 1 ==>
      Issue(File, "Book file is required") in LegacyIssues(f)
  {
  }

  /** The legacy schema and the current create schema agree on forms whose
      text fields have two code units or more and whose single files are of an
      allowed type and size; a one-character title separates them. */
  lemma LegacyVersusCreate(f: BookForm)
    ensures ValidateLegacy(f).Success? && ImageTypeOk(f.coverImage) && ImageSizeOk(f.coverImage)
            && BookTypeOk(f.file) && BookSizeOk(f.file)
            ==> ValidateCreate(f).Success?
    ensures ValidateCreate(f).Success? && JsLength(f.title) >= 2 && JsLength(f.genre) >= 2 && JsLength(f.description) >= 2
            ==> ValidateLegacy(f).Success?
    ensures JsLength(f.title) == 1 ==> ValidateLegacy(f).Failure?
  {
    LegacyAcceptance(f);
    CreateAcceptance(f);
    EditAcceptance(f);
  }

  /** Two characters always pass the legacy length check, and so does one
      character outside the Basic Multilingual Plane, which JavaScript counts
      as two code units; one character inside it does not. */
  lemma LegacyTitleLength(f: BookForm)
    ensures |f.title| >= 2 ==> Issue(Title, LegacyTitleMessage) !in LegacyIssues(f)
    ensures |f.title| == 1 ==>
      (Issue(Title, LegacyTitleMessage) in LegacyIssues(f) <==> f.title[0] <= '\U{FFFF}')
  {
    if |f.title| == 1 {
      assert JsLength(f.title) == (if f.title[0] <= '\U{FFFF}' then 1 else 2) + JsLength(f.title[1..]);
      assert f.title[1..] == [];
    }
  }

  /** A title made of one emoji passes the legacy schema's title check. */
  lemma EmojiTitleAccepted(f: BookForm)
    requires f.title == "\U{1F600}"
    ensures Issue(Title, LegacyTitleMessage) !in LegacyIssues(f)
  {
    LegacyTitleLength(f);
  }
}
