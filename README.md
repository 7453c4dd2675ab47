# e-lib client: forms, edit mutations and the book download

This is a Dafny model of the logic in the e-lib web client, a React front end for a book-publishing
service. The pages and widgets are not modelled. The model covers:

- **Book form schemas** (`BookForms`, `LegacyForms`). The base schema is used when a book is
  edited. The create schema extends it: each file field must also hold exactly one file. An older
  create schema checks a length of two UTF-16 code units per text field and exactly one file per file field. A
  validation either hands the form back or lists its issues. Issues come field by field, in
  declaration order; within a field they come in the order the checks are chained. Every failed
  refinement adds an issue, because the validation library's refinements are not fatal. A value that
  is not a file list is fatal and stops its field.
- **Edit-book mutation** (`EditBook`). The multipart body is built from a validated edit form:
  - the three text fields, in order;
  - then the first cover image, when one was chosen;
  - then the first book file, when one was chosen.

  The request targets the selected book. With no book selected, the mutation throws "No book
  selected for editing". On success, the book list is invalidated, a toast is shown only when
  `showSuccessToast` is `true`, and the caller's handler is called. On failure, a toast is shown only
  when `showErrorToast` is `true`. Then the caller's handler gets an `Error` together with the
  submitted form.
- **Profile mutation** (`EditUserProfile`). On success the `user` query is invalidated. Both toasts
  default to on. A failure whose message is "NO_CHANGES" is ignored completely.
- **Book detail dialog** (`BookDetailDialog`):
  - The download file name. The title goes through two replacements: each character that is neither
    a word character nor white space becomes `_`, then each run of white space becomes one `_`.
    Then ".pdf" is added.
  - The `isDownloading` flag that disables the download button. It is modelled as a `DownloadButton`
    class with three events: the click, the settling of the fetch, and the clean-up timer.

`Mutation` holds the vocabulary the two hooks share: thrown values, effects in the order they run,
and how optional flags are read. `Records` holds the record shapes, and `Wrappers` holds `Option`
and `Result`.

Regular expressions follow ECMAScript, ECMA-262 section 22.2, without the `u` flag:
- `\w` is `[A-Za-z0-9_]`;
- `\s` is the white space and line terminator characters.

## Model

| member | source | states |
|---|---|---|
| BookForms.JsLength | src/types/forms.ts:4-6 | a string's JavaScript length lies between its number of characters and twice that, and equals it iff no character lies outside the Basic Multilingual Plane |
| BookForms.TextFieldRule | src/types/forms.ts:4-6 | a text field draws its "at least 2 characters" issue iff it is empty (minimum length 1), and draws no other message |
| BookForms.EditAcceptance | src/types/forms.ts:3-41 | the edit schema accepts iff every text field is non-empty and each submitted, non-empty file list starts with a JPEG/JPG/PNG image of at most 10485760 bytes and a PDF/EPUB file of at most 52428800 bytes |
| BookForms.MissingFilesPass | src/types/forms.ts:10-40 | an absent or empty file list passes every type and size refinement |
| BookForms.OnlyFirstFileInspected | src/types/forms.ts:14-38 | the type and size refinements depend only on the first file of a list |
| BookForms.CoverImageRules | src/types/forms.ts:7-23 | a cover image gets the type issue, then the size issue, each exactly when its check fails; the 10MB bound is inclusive |
| BookForms.BookFileRules | src/types/forms.ts:24-40 | a book file gets the type issue, then the size issue, each exactly when its check fails; the 50MB bound is inclusive |
| BookForms.CreateAcceptance | src/types/forms.ts:45-54 | the create schema accepts iff the edit schema accepts and both file lists are present and hold exactly one file |
| BookForms.CreateExtendsEdit | src/types/forms.ts:45-54 | the create schema reports every edit issue; its only extra issues are "Cover image is required" and "Book file is required", each present iff its list does not hold exactly one file |
| BookForms.ValidCreateScenario | src/types/forms.ts:45-54 | a one-character title with one 1MB PNG and one 5MB PDF is accepted by the create schema |
| BookForms.SixtyMegabyteBookRejected | src/types/forms.ts:34-40 | any form with non-empty text fields, one valid PNG cover and one 60MB PDF is refused by the create schema with the single issue "File must be less than 50MB" |
| LegacyForms.FileFieldIssues | src/types.ts:29-36 | a legacy file field has no issue iff a list holding exactly one file was given, and never more than one issue |
| LegacyForms.LegacyAcceptance | src/types.ts:25-37 | the legacy schema accepts iff every text field is at least two UTF-16 code units long and each file field holds exactly one file |
| LegacyForms.LegacyIgnoresFileContents | src/types.ts:29-36 | the legacy verdict does not depend on the type or size of the files |
| LegacyForms.LegacyFileFieldMessages | src/types.ts:29-36 | a missing list draws only the "not a FileList" issue; a list that is empty or too long draws the "required" message |
| LegacyForms.LegacyVersusCreate | src/types.ts:25-37 | the two create schemas agree on forms whose text fields are at least two code units long and whose files are of an allowed type and size; a title one code unit long separates them |
| LegacyForms.LegacyTitleLength | src/types.ts:26 | a title of two characters or more passes the legacy length check; a one-character title draws the issue iff its character lies inside the Basic Multilingual Plane |
| LegacyForms.EmojiTitleAccepted | src/types.ts:26 | a title made of one emoji (two code units) draws no legacy title issue |
| EditBook.FormData.constructor | src/hooks/useEditBook.ts:31 | a new multipart body holds no entries |
| EditBook.FormData.Append | src/hooks/useEditBook.ts:32-41 | appending adds exactly one entry at the end and keeps the others |
| EditBook.MutationFn | src/hooks/useEditBook.ts:26-45 | with no book selected it fails with "No book selected for editing"; otherwise it requests an update of the selected book's id with the body `Payload(data)` |
| EditBook.PayloadShape | src/hooks/useEditBook.ts:31-42 | the body starts with title, genre and description carrying the submitted text, and holds 3 plus one entry per submitted non-empty file list |
| EditBook.PayloadKeys | src/hooks/useEditBook.ts:31-42 | each text key holds exactly its text; each file key holds the first file of its list when the list is non-empty, and nothing otherwise |
| EditBook.OnSuccess | src/hooks/useEditBook.ts:46-55 | it first invalidates `["books"]`; there is a "Book updates successfully!" toast iff the flag is `true`, and a caller call with the response iff a handler was given; there are no other effects; effects run in stage order |
| EditBook.OnError | src/hooks/useEditBook.ts:56-66 | there is an error toast, described by the error's message, iff the flag is `true`; there is a caller call with the error as an `Error` and the submitted form iff a handler was given; nothing else; effects in order |
| EditBook.CallerReceivesAnError | src/hooks/useEditBook.ts:62-65 | a given error handler receives a thrown `Error` unchanged and anything else as a new `Error("Unknown error")`, always with the submitted form |
| EditBook.NoBookSelected | src/hooks/useEditBook.ts:27-29 | with no book selected nothing is invalidated and no success is reported; a given error handler learns "No book selected for editing" |
| EditBook.InvalidatesOnlyOnSuccess | src/hooks/useEditBook.ts:46-48 | the book list is invalidated iff a book was selected and the request succeeded |
| EditBook.ToastsOffByDefault | src/hooks/useEditBook.ts:50-61 | with both flags left out, no toast is ever shown |
| EditUserProfile.OnSuccess | src/hooks/useEditUserProfile.tsx:33-39 | it first invalidates `["user"]`; there is a success toast iff the flag (default `true`) is on, and a caller call with the user iff a handler was given; nothing else; effects in order |
| EditUserProfile.OnError | src/hooks/useEditUserProfile.tsx:40-48 | "NO_CHANGES" yields no effect at all; otherwise there is an error toast iff the flag (default `true`) is on, and a caller call with the raw error iff a handler was given; nothing else; effects in order |
| EditUserProfile.SuccessYieldsResponseUser | src/hooks/useEditUserProfile.tsx:30-38 | after invalidation, the caller's success handler receives exactly the response's `data` |
| EditUserProfile.ToastsOnByDefault | src/hooks/useEditUserProfile.tsx:16-17 | with both flags left out, every success and every error except "NO_CHANGES" shows a toast |
| EditUserProfile.CallerHearsEveryRealError | src/hooks/useEditUserProfile.tsx:40-48 | the caller's error handler runs iff the error is not "NO_CHANGES", whatever the toast flag |
| BookDetailDialog.ReplaceSpecials | src/components/book-detail-dialog.tsx:38 | the first replacement keeps the length; each character is kept if it is a word or white space character and becomes `_` otherwise |
| BookDetailDialog.DropSpaces | src/components/book-detail-dialog.tsx:38 | a greedy `\s+` drops exactly the leading white space: it leaves a suffix that does not start with white space |
| BookDetailDialog.CollapseSpaces | src/components/book-detail-dialog.tsx:38 | the second replacement leaves no white space, never lengthens the text, and turns word/white-space text into word characters only |
| BookDetailDialog.DownloadStem | src/components/book-detail-dialog.tsx:38 | the name's stem is never longer than the title |
| BookDetailDialog.StemWordChars | src/components/book-detail-dialog.tsx:38 | the stem consists of word characters only |
| BookDetailDialog.DownloadFileName | src/components/book-detail-dialog.tsx:38 | the name ends in ".pdf", has only word characters before it, and is at most four characters longer than the title |
| BookDetailDialog.CollapseMatchesPairs | src/components/book-detail-dialog.tsx:38 | collapsing maximal white-space runs left to right equals the per-character reference: a white space character followed by another one is dropped, and every other one becomes `_` |
| BookDetailDialog.StemLength | src/components/book-detail-dialog.tsx:38 | the stem is the title's length minus the number of adjacent white-space pairs; it has the title's length iff no two white space characters meet |
| BookDetailDialog.WordTitleUnchanged | src/components/book-detail-dialog.tsx:38 | the stem equals the title iff the title consists of word characters only |
| BookDetailDialog.StemAppend | src/components/book-detail-dialog.tsx:38 | the stem of a concatenation is the concatenation of the stems, unless white space meets white space at the join |
| BookDetailDialog.SpaceRunBecomesUnderscore | src/components/book-detail-dialog.tsx:38 | a maximal run of white space becomes exactly one `_` |
| BookDetailDialog.SingleCharStem | src/components/book-detail-dialog.tsx:38 | a word character is kept, and any other character becomes `_` |
| BookDetailDialog.PunctuationBetweenSpaces | src/components/book-detail-dialog.tsx:38 | a punctuation mark between two single spaces becomes three underscores, because punctuation is replaced before spaces are collapsed |
| BookDetailDialog.DashBetweenSpaces | src/components/book-detail-dialog.tsx:38 | the title "a - b" is saved as "a___b.pdf" |
| BookDetailDialog.NatToString | src/components/book-detail-dialog.tsx:31 | a status is written as a non-empty string of decimal digits with no leading zero |
| BookDetailDialog.NatToStringRoundTrip | src/components/book-detail-dialog.tsx:31 | reading the written digits back gives the status |
| BookDetailDialog.DownloadButton.constructor | src/components/book-detail-dialog.tsx:25 | the flag starts false, so the button is enabled; nothing is pending, fetched or saved |
| BookDetailDialog.DownloadButton.Click | src/components/book-detail-dialog.tsx:27-29 | a click on a disabled button changes nothing; otherwise it sets the flag, so the button is disabled, and fetches the book's file; the invariant is kept |
| BookDetailDialog.DownloadButton.Respond | src/components/book-detail-dialog.tsx:29-41 | it succeeds iff the status is 2xx; on success the file is saved under `DownloadFileName(title)` and the clean-up is scheduled; on failure it reports the rejected fetch or "Download failed with status: N", and in both cases the flag stays set |
| BookDetailDialog.DownloadButton.Cleanup | src/components/book-detail-dialog.tsx:42-46 | the clean-up is the only step that clears the flag, and it changes nothing else |

## Left out

- Rendering is not modelled: the dialogs, pages, layouts, routing and the loading spinner.
- The HTTP client is not part of this model (src/http/api.ts). The server's answer becomes a parameter: `sent`, `FetchOutcome`.
- React Query is modelled only as the effects it runs. Its caching, retries and scheduling, and the stores and the other hooks, are not modelled.
- The duplicate book schema in the books page is not part of this model.
- Browser effects are modelled only as their outcome. This covers the `fetch` itself, blob URLs, link elements and the 100 ms timer. A failure of `response.blob()` is not modelled.
- The profile mutation's console logging of the body entries is left out. It has no effect on the result.
- Thrown `null` or `undefined` is not modelled. With such a value, reading `error.message` itself throws.
- Concurrency is not modelled. React applies `setIsDownloading(true)` at the next render, and two clicks in the same tick can both start a download. The model treats a click on a disabled button as ignored.
- `DownloadButton.Respond`: a rejected fetch and a non-2xx status both leave `isDownloading` set, so the button stays disabled until the dialog is remounted. The model states this as the code does: nothing in `handleDownload` clears the flag on these paths.
- The text-field messages ask for "at least 2 characters", but the schemas in src/types/forms.ts check a minimum of 1. The model follows the code.
- ReplaceSpecials: model strings are sequences of Unicode code points, where JavaScript strings are UTF-16 code units. The regular expressions here have no `u` flag, so JavaScript turns a character outside the Basic Multilingual Plane into two `_`; the model turns it into one. Lengths compared by the schemas' minimum checks are modelled in code units (`BookForms.JsLength`), so the schemas agree with JavaScript on such characters.
- A value that is not a file list fails with "Input not instance of FileList" and stops its field. This follows the fatal `instanceof` check of version 3.22 and later of the validation library.
- The profile hook's flag is spelled `showErrorTost` in the source. It appears here as `showErrorToast`.
