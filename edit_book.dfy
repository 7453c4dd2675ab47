/** The edit-book mutation: the multipart request built from a validated edit
    form, and the effects that run when the update succeeds or fails. */
module EditBook {
  import opened Wrappers
  import opened Records
  import opened BookForms
  import opened Mutation

  const NoBookSelectedMessage := "No book selected for editing"
  const UpdatedText := "Book updates successfully!"
  const UpdateFailedText := "Failed to update book"
  const UnknownDescription := "An unknown error occurred"
  const UnknownErrorMessage := "Unknown error"

  /** A multipart entry value: text, or one file. */
  datatype Value = Text(text: string) | Attachment(file: FileInfo)

  /** A multipart entry; the body's keys are the form's field names. */
  datatype Entry = Entry(name: Field, value: Value)

  /** A multipart body under construction; `Append` adds one entry at the end. */
  class FormData {
    var entries: seq<Entry>

    constructor ()
      ensures entries == []
    {
      entries := [];
    }

    method Append(name: Field, value: Value)
      modifies this
      ensures entries == old(entries) + [Entry(name, value)]
    {
      entries := entries + [Entry(name, value)];
    }
  }

  /** The update request: the book it targets and the multipart body. */
  datatype UpdateRequest = UpdateRequest(bookId: string, body: seq<Entry>)

  /** The multipart body an edit form yields: the three text fields in order,
      then the first cover image and the first book file when submitted. */
  function Payload(data: BookForm): seq<Entry> {
    [Entry(Title, Text(data.title)), Entry(Genre, Text(data.genre)), Entry(Description, Text(data.description))]
    + (if HasFiles(data.coverImage) then [Entry(CoverImage, Attachment(data.coverImage.value[0]))] else [])
    + (if HasFiles(data.file) then [Entry(File, Attachment(data.file.value[0]))] else [])
  }

  /** The mutation function: with no book selected it throws before building
      anything; otherwise it builds the body entry by entry and targets the
      selected book. */
  method MutationFn(editingBook: Option<Book>, data: BookForm) returns (r: Result<UpdateRequest, Thrown>)
    ensures editingBook.None? ==> r == Failure(ErrorValue("No book selected for editing"))
    ensures editingBook.Some? ==> r == Success(UpdateRequest(editingBook.value.id, Payload(data)))
  {
    if editingBook.None? {
      return Failure(ErrorValue(NoBookSelectedMessage));
    }
    var formData := new FormData();
    formData.Append(Title, Text(data.title));
    formData.Append(Genre, Text(data.genre));
    formData.Append(Description, Text(data.description));
    assert formData.entries == Payload(data)[..3];
    if data.coverImage.Some? && |data.coverImage.value| > 0 {
      formData.Append(CoverImage, Attachment(data.coverImage.value[0]));
    }
    if data.file.Some? && |data.file.value| > 0 {
      formData.Append(File, Attachment(data.file.value[0]));
    }
    assert formData.entries == Payload(data);
    r := Success(UpdateRequest(editingBook.value.id, formData.entries));
  }

  /** Every value stored under `name`, in order (FormData's `getAll`). */
  function GetAll(body: seq<Entry>, name: Field): seq<Value> {
    if body == [] then []
    else (if body[0].name == name then [body[0].value] else []) + GetAll(body[1..], name)
  }

  lemma {:induction false} GetAllAppend(a: seq<Entry>, b: seq<Entry>, name: Field)
    ensures GetAll(a + b, name) == GetAll(a, name) + GetAll(b, name)
  {
    if a == [] {
      assert a + b == b;
    } else {
      var head := if a[0].name == name then [a[0].value] else [];
      assert (a + b)[0] == a[0];
      assert (a + b)[1..] == a[1..] + b;
      GetAllAppend(a[1..], b, name);
      assert GetAll(a + b, name) == head + GetAll(a[1..] + b, name);
      assert GetAll(a, name) == head + GetAll(a[1..], name);
    }
  }

  lemma GetAllSingle(e: Entry, name: Field)
    ensures GetAll([e], name) == if e.name == name then [e.value] else []
  {
    assert [e][1..] == [];
  }

  /** The body starts with the three text fields, carrying exactly the
      submitted values, and holds three to five entries. */
  lemma PayloadShape(data: BookForm)
    ensures 3 <= |Payload(data)| <= 5
    ensures Payload(data)[..3]
         == [Entry(Title, Text(data.title)), Entry(Genre, Text(data.genre)), Entry(Description, Text(data.description))]
    ensures |Payload(data)| == 3 + (if HasFiles(data.coverImage) then 1 else 0) + (if HasFiles(data.file) then 1 else 0)
  {
  }

  /** What `GetAll` finds in a body made of three single entries and two
      lists of at most one entry. */
  lemma GetAllParts(t: Entry, g: Entry, d: Entry, c: seq<Entry>, b: seq<Entry>, name: Field)
    requires |c| <= 1 && |b| <= 1
    ensures GetAll([t, g, d] + c + b, name)
         == (if t.name == name then [t.value] else [])
          + (if g.name == name then [g.value] else [])
          + (if d.name == name then [d.value] else [])
          + (if c != [] && c[0].name == name then [c[0].value] else [])
          + (if b != [] && b[0].name == name then [b[0].value] else [])
  {
    assert [t, g, d] + c + b == [t] + [g] + [d] + c + b;
    GetAllAppend([t] + [g] + [d] + c, b, name);
    GetAllAppend([t] + [g] + [d], c, name);
    GetAllAppend([t] + [g], [d], name);
    GetAllAppend([t], [g], name);
    GetAllSingle(t, name);
    GetAllSingle(g, name);
    GetAllSingle(d, name);
    if c != [] { assert c == [c[0]]; GetAllSingle(c[0], name); }
    if b != [] { assert b == [b[0]]; GetAllSingle(b[0], name); }
  }

  /** Each key is present at most once: every text key exactly once, and a file
      key exactly when a non-empty list was submitted, holding its first file. */
  lemma PayloadKeys(data: BookForm)
    ensures GetAll(Payload(data), Title) == [Text(data.title)]
    ensures GetAll(Payload(data), Genre) == [Text(data.genre)]
    ensures GetAll(Payload(data), Description) == [Text(data.description)]
    ensures GetAll(Payload(data), CoverImage)
         == if HasFiles(data.coverImage) then [Attachment(data.coverImage.value[0])] else []
    ensures GetAll(Payload(data), File)
         == if HasFiles(data.file) then [Attachment(data.file.value[0])] else []
  {
    var t := Entry(Title, Text(data.title));
    var g := Entry(Genre, Text(data.genre));
    var d := Entry(Description, Text(data.description));
    var c := if HasFiles(data.coverImage) then [Entry(CoverImage, Attachment(data.coverImage.value[0]))] else [];
    var b := if HasFiles(data.file) then [Entry(File, Attachment(data.file.value[0]))] else [];
    assert Payload(data) == [t, g, d] + c + b;
    GetAllParts(t, g, d, c, b, Title);
    GetAllParts(t, g, d, c, b, Genre);
    GetAllParts(t, g, d, c, b, Description);
    GetAllParts(t, g, d, c, b, CoverImage);
    GetAllParts(t, g, d, c, b, File);
  }

  /** What the hook's caller configures. */
  datatype Options = Options(
    hasOnSuccess: bool,
    hasOnError: bool,
    showSuccessToast: Option<bool>,
    showErrorToast: Option<bool>)

  type EditEffect<S> = Effect<S, BookForm>

  /** The success handler: invalidate the book list, then notify when asked to,
      then hand the response to the caller. */
  function OnSuccess<S>(opts: Options, response: S): (effects: seq<EditEffect<S>>)
    ensures |effects| >= 1 && effects[0] == Invalidate(["books"])
    ensures SuccessToast("Book updates successfully!") in effects <==> Truthy(opts.showSuccessToast)
    ensures CallerOnSuccess(response) in effects <==> opts.hasOnSuccess
    ensures forall e :: e in effects ==> e == Invalidate(["books"]) || e == SuccessToast("Book updates successfully!") || e == CallerOnSuccess(response)
    ensures InStageOrder(effects)
  {
    var invalidate: seq<EditEffect<S>> := [Invalidate(["books"])];
    var toast: seq<EditEffect<S>> := if Truthy(opts.showSuccessToast) then [SuccessToast(UpdatedText)] else [];
    var callback: seq<EditEffect<S>> := if opts.hasOnSuccess then [CallerOnSuccess(response)] else [];
    StagedEffectsInOrder(invalidate, toast, callback);
    invalidate + toast + callback
  }

  /** The error every caller handler receives: an `Error` as thrown, anything
      else replaced by a new "Unknown error" `Error`. */
  function AsError(error: Thrown): (e: Thrown)
    ensures e.ErrorValue?
    ensures error.ErrorValue? ==> e == error
  {
    if error.ErrorValue? then error else ErrorValue(UnknownErrorMessage)
  }

  /** The error handler: notify when asked to, describing the error by its
      message, then hand the error and the submitted form to the caller. */
  function OnError<S>(opts: Options, error: Thrown, data: BookForm): (effects: seq<EditEffect<S>>)
    ensures ErrorToast("Failed to update book", if error.ErrorValue? then error.message else "An unknown error occurred") in effects
        <==> Truthy(opts.showErrorToast)
    ensures CallerOnError(AsError(error), data) in effects <==> opts.hasOnError
    ensures forall e :: e in effects ==>
              || e == ErrorToast("Failed to update book", if error.ErrorValue? then error.message else "An unknown error occurred")
              || e == CallerOnError(AsError(error), data)
    ensures InStageOrder(effects)
  {
    var toast: seq<EditEffect<S>> := if Truthy(opts.showErrorToast)
      then [ErrorToast(UpdateFailedText, if error.ErrorValue? then error.message else UnknownDescription)]
      else [];
    var callback: seq<EditEffect<S>> := if opts.hasOnError then [CallerOnError(AsError(error), data)] else [];
    var none: seq<EditEffect<S>> := [];
    StagedEffectsInOrder(none, toast, callback);
    assert none + toast + callback == toast + callback;
    toast + callback
  }

  /** One mutation from submission to handler: `sent` is the server's answer
      to the request, when a request is sent. */
  function Mutate<S>(opts: Options, editingBook: Option<Book>, data: BookForm, sent: Result<S, Thrown>): seq<EditEffect<S>> {
    if editingBook.None? then OnError(opts, ErrorValue(NoBookSelectedMessage), data)
    else
      match sent
      case Success(response) => OnSuccess(opts, response)
      case Failure(error) => OnError(opts, error, data)
  }

  /** With no book selected nothing is invalidated and nothing succeeds; the
      caller's handler, if any, learns "No book selected for editing". */
  lemma NoBookSelected<S>(opts: Options, data: BookForm, sent: Result<S, Thrown>)
    ensures var effects := Mutate(opts, None, data, sent);
            && (forall e :: e in effects ==> !e.Invalidate? && !e.CallerOnSuccess?)
            && (opts.hasOnError <==> CallerOnError(ErrorValue("No book selected for editing"), data) in effects)
  {
  }

  /** The book list is invalidated exactly when the update succeeded. */
  lemma InvalidatesOnlyOnSuccess<S>(opts: Options, editingBook: Option<Book>, data: BookForm, sent: Result<S, Thrown>)
    ensures Invalidate(["books"]) in Mutate(opts, editingBook, data, sent) <==> editingBook.Some? && sent.Success?
  {
  }

  /** Without the flags, a success shows no toast and a failure shows none either. */
  lemma ToastsOffByDefault<S>(hasOnSuccess: bool, hasOnError: bool, editingBook: Option<Book>, data: BookForm, sent: Result<S, Thrown>)
    ensures forall e :: e in Mutate(Options(hasOnSuccess, hasOnError, None, None), editingBook, data, sent) ==>
              !e.SuccessToast? && !e.ErrorToast?
  {
  }

  /** The caller's error handler always receives an `Error`: the thrown one
      itself, or a new "Unknown error" when something else was thrown. */
  lemma CallerReceivesAnError<S>(opts: Options, editingBook: Option<Book>, data: BookForm, error: Thrown)
    requires opts.hasOnError && editingBook.Some?
    ensures var effects: seq<EditEffect<S>> := Mutate(opts, editingBook, data, Failure(error));
            && (error.ErrorValue? ==> CallerOnError(error, data) in effects)
            && (!error.ErrorValue? ==> CallerOnError(ErrorValue("Unknown error"), data) in effects)
            && forall e :: e in effects && e.CallerOnError? ==> e.error.ErrorValue? && e.extra == data
  {
  }
}
