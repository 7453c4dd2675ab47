/** The book form schemas: the base schema used when editing a book and the
    create schema that extends it. A validation either hands back the form or
    lists the issues found, field by field, in the order the schema declares the
    fields; within a field, the checks run in the order they are chained and
    each failed check adds its own issue. */
module BookForms {
  import opened Wrappers

  /** One entry of a browser file list: its MIME type and its size in bytes. */
  datatype FileInfo = FileInfo(mimeType: string, size: nat)

  type FileList = seq<FileInfo>

  /** The submitted form. An optional file input that was never filled in is `None`. */
  datatype BookForm = BookForm(
    title: string,
    genre: string,
    description: string,
    coverImage: Option<FileList>,
    file: Option<FileList>)

  /** The form's fields, named after the schema keys. */
  datatype Field = Title | Genre | Description | CoverImage | File

  /** A validation issue: the field it is about and its message. */
  datatype Issue = Issue(path: Field, message: string)

  const MaxImageBytes: nat := 10 * 1024 * 1024
  const MaxBookBytes: nat := 50 * 1024 * 1024
  const ImageTypes: seq<string> := ["image/jpeg", "image/jpg", "image/png"]
  const BookTypes: seq<string> := ["application/pdf", "application/epub+zip"]

  const TitleMessage := "Title must be at least 2 characters."
  const GenreMessage := "Genre must be at least 2 characters."
  const DescriptionMessage := "Description must be at least 2 characters."
  const ImageTypeMessage := "Only images are allowed"
  const ImageSizeMessage := "Image must be less than 10MB"
  const BookTypeMessage := "Only PDF and EPUB files are allowed"
  const BookSizeMessage := "File must be less than 50MB"
  const CoverRequiredMessage := "Cover image is required"
  const BookRequiredMessage := "Book file is required"

  /** One check of a schema: no issue when it holds, one issue when it fails. */
  function Check(path: Field, ok: bool, message: string): (issues: seq<Issue>)
    ensures ok <==> issues == []
    ensures !ok ==> issues == [Issue(path, message)]
  {
    if ok then [] else [Issue(path, message)]
  }

  /** The list was submitted and holds at least one file. */
  predicate HasFiles(list: Option<FileList>) {
    list.Some? && |list.value| > 0
  }

  // Each file check passes for an absent or empty list and otherwise looks at
  // the first file only.

  predicate ImageTypeOk(list: Option<FileList>) {
    !HasFiles(list) || list.value[0].mimeType in ImageTypes
  }

  predicate ImageSizeOk(list: Option<FileList>) {
    !HasFiles(list) || list.value[0].size <= MaxImageBytes
  }

  predicate BookTypeOk(list: Option<FileList>) {
    !HasFiles(list) || list.value[0].mimeType in BookTypes
  }

  predicate BookSizeOk(list: Option<FileList>) {
    !HasFiles(list) || list.value[0].size <= MaxBookBytes
  }

  /** The create schema's extra check: the list is present and holds exactly one file. */
  predicate ExactlyOne(list: Option<FileList>) {
    list.Some? && |list.value| == 1
  }

  /** The length JavaScript reports for a string, which a minimum-length check
      compares: its number of UTF-16 code units, so a character outside the
      Basic Multilingual Plane counts twice. */
  function JsLength(s: string): (n: nat)
    ensures |s| <= n <= 2 * |s|
    ensures n == |s| <==> forall i :: 0 <= i < |s| ==> s[i] <= '\U{FFFF}'
  {
    if s == [] then 0 else (if s[0] <= '\U{FFFF}' then 1 else 2) + JsLength(s[1..])
  }

  function TextIssues(f: BookForm): seq<Issue> {
    Check(Title, JsLength(f.title) >= 1, TitleMessage)
    + Check(Genre, JsLength(f.genre) >= 1, GenreMessage)
    + Check(Description, JsLength(f.description) >= 1, DescriptionMessage)
  }

  function CoverImageIssues(list: Option<FileList>): seq<Issue> {
    Check(CoverImage, ImageTypeOk(list), ImageTypeMessage)
    + Check(CoverImage, ImageSizeOk(list), ImageSizeMessage)
  }

  function BookFileIssues(list: Option<FileList>): seq<Issue> {
    Check(File, BookTypeOk(list), BookTypeMessage)
    + Check(File, BookSizeOk(list), BookSizeMessage)
  }

  /** Every issue the base (edit) schema reports. */
  function EditIssues(f: BookForm): seq<Issue> {
    TextIssues(f) + CoverImageIssues(f.coverImage) + BookFileIssues(f.file)
  }

  /** Every issue the create schema reports: the base checks of each file field,
      followed by the "exactly one file" check of that field. */
  function CreateIssues(f: BookForm): seq<Issue> {
    TextIssues(f) + RequiredCoverImageIssues(f.coverImage) + RequiredBookFileIssues(f.file)
  }

  function RequiredCoverImageIssues(list: Option<FileList>): seq<Issue> {
    CoverImageIssues(list) + Check(CoverImage, ExactlyOne(list), CoverRequiredMessage)
  }

  function RequiredBookFileIssues(list: Option<FileList>): seq<Issue> {
    BookFileIssues(list) + Check(File, ExactlyOne(list), BookRequiredMessage)
  }

  function Validate(f: BookForm, issues: seq<Issue>): (r: Result<BookForm, seq<Issue>>)
    ensures r.Success? <==> issues == []
    ensures r.Success? ==> r.value == f
    ensures r.Failure? ==> r.error == issues
  {
    if issues == [] then Success(f) else Failure(issues)
  }

  /** The edit schema (the base schema itself). */
  function ValidateEdit(f: BookForm): Result<BookForm, seq<Issue>> {
    Validate(f, EditIssues(f))
  }

  function ValidateCreate(f: BookForm): Result<BookForm, seq<Issue>> {
    Validate(f, CreateIssues(f))
  }

  /** The text of a text field. */
  function TextOf(f: BookForm, field: Field): string
    requires field.Title? || field.Genre? || field.Description?
  {
    match field
    case Title => f.title
    case Genre => f.genre
    case Description => f.description
  }

  /** The message a text field's length check carries. */
  function TextMessageOf(field: Field): string
    requires field.Title? || field.Genre? || field.Description?
  {
    match field
    case Title => TitleMessage
    case Genre => GenreMessage
    case Description => DescriptionMessage
  }

  /** Each text field draws an issue exactly when it is empty, although its
      message asks for two characters; it never draws any other message. */
  lemma TextFieldRule(f: BookForm, field: Field)
    requires field.Title? || field.Genre? || field.Description?
    ensures Issue(field, TextMessageOf(field)) in EditIssues(f) <==> TextOf(f, field) == []
    ensures forall m :: Issue(field, m) in EditIssues(f) ==> m == TextMessageOf(field)
  {
    var files := CoverImageIssues(f.coverImage) + BookFileIssues(f.file);
    assert forall i :: i in files ==> i.path == CoverImage || i.path == File;
    assert EditIssues(f) == TextIssues(f) + files;
  }

  /** The edit schema accepts a form exactly when each text field is non-empty
      and each submitted, non-empty file list starts with a file of an allowed
      type and size. */
  lemma EditAcceptance(f: BookForm)
    ensures ValidateEdit(f).Success? <==>
      && |f.title| >= 1 && |f.genre| >= 1 && |f.description| >= 1
      && (f.coverImage.Some? && f.coverImage.value != [] ==>
            f.coverImage.value[0].mimeType in ["image/jpeg", "image/jpg", "image/png"]
            && f.coverImage.value[0].size <= 10485760)
      && (f.file.Some? && f.file.value != [] ==>
            f.file.value[0].mimeType in ["application/pdf", "application/epub+zip"]
            && f.file.value[0].size <= 52428800)
    ensures ValidateEdit(f).Success? ==> ValidateEdit(f).value == f
  {
  }

  /** Absent or empty file lists pass every type and size check. */
  lemma MissingFilesPass(list: Option<FileList>)
    requires list.None? || list == Some([])
    ensures CoverImageIssues(list) == [] && BookFileIssues(list) == []
  {
  }

  /** The type and size checks only inspect the first file of a list. */
  lemma OnlyFirstFileInspected(a: FileList, b: FileList)
    requires a != [] && b != [] && a[0] == b[0]
    ensures CoverImageIssues(Some(a)) == CoverImageIssues(Some(b))
    ensures BookFileIssues(Some(a)) == BookFileIssues(Some(b))
  {
  }

  /** A cover image is judged by type, then by size; the size bound is inclusive. */
  lemma CoverImageRules(first: FileInfo, rest: FileList)
    ensures CoverImageIssues(Some([first] + rest)) ==
      (if first.mimeType in ["image/jpeg", "image/jpg", "image/png"] then [] else [Issue(CoverImage, "Only images are allowed")])
      + (if first.size <= 10485760 then [] else [Issue(CoverImage, "Image must be less than 10MB")])
  {
  }

  /** A book file is judged by type, then by size; the size bound is inclusive. */
  lemma BookFileRules(first: FileInfo, rest: FileList)
    ensures BookFileIssues(Some([first] + rest)) ==
      (if first.mimeType in ["application/pdf", "application/epub+zip"] then [] else [Issue(File, "Only PDF and EPUB files are allowed")])
      + (if first.size <= 52428800 then [] else [Issue(File, "File must be less than 50MB")])
  {
  }

  /** The create schema accepts exactly the forms the edit schema accepts whose
      two file lists are present and hold one file each; in particular every
      form it accepts the edit schema accepts too. */
  lemma CreateAcceptance(f: BookForm)
    ensures ValidateCreate(f).Success? <==>
      ValidateEdit(f).Success? && ExactlyOne(f.coverImage) && ExactlyOne(f.file)
    ensures ValidateCreate(f).Success? ==> ValidateEdit(f).Success?
  {
  }

  /** The create schema reports every issue the edit schema reports, and
      besides those only the two "required" issues, each exactly when its list
      is absent or does not hold exactly one file. */
  lemma CreateExtendsEdit(f: BookForm)
    ensures forall i :: i in EditIssues(f) ==> i in CreateIssues(f)
    ensures forall i :: i in CreateIssues(f) && i !in EditIssues(f) ==>
              i == Issue(CoverImage, "Cover image is required") || i == Issue(File, "Book file is required")
    ensures Issue(CoverImage, "Cover image is required") in CreateIssues(f)
        <==> !(f.coverImage.Some? && |f.coverImage.value| == 1)
    ensures Issue(File, "Book file is required") in CreateIssues(f)
        <==> !(f.file.Some? && |f.file.value| == 1)
  {
  }

  /** Scenario: a short title and one small PNG and one small PDF pass the create schema. */
  lemma ValidCreateScenario()
    ensures ValidateCreate(BookForm("A", "Fiction", "A short tale",
              Some([FileInfo("image/png", 1024 * 1024)]),
              Some([FileInfo("application/pdf", 5 * 1024 * 1024)]))).Success?
  {
  }

  /** Scenario: with non-empty text fields and one valid PNG cover, a 60MB PDF
      is refused with the size message, and only with it. */
  lemma SixtyMegabyteBookRejected(f: BookForm, cover: FileInfo)
    requires f.title != [] && f.genre != [] && f.description != []
    requires cover.mimeType == "image/png" && cover.size <= 10485760
    requires f.coverImage == Some([cover])
    requires f.file == Some([FileInfo("application/pdf", 60 * 1024 * 1024)])
    ensures ValidateCreate(f) == Failure([Issue(File, "File must be less than 50MB")])
  {
    assert TextIssues(f) == [];
    assert CoverImageIssues(f.coverImage) == [];
    assert ExactlyOne(f.coverImage) && ExactlyOne(f.file);
    assert "application/pdf" in BookTypes;
    assert BookFileIssues(f.file) == [Issue(File, BookSizeMessage)];
    assert RequiredBookFileIssues(f.file) == [Issue(File, BookSizeMessage)];
    assert CreateIssues(f) == [Issue(File, BookSizeMessage)];
  }
}
