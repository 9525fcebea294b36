# miniGoogleDrive in Dafny

A model of a small file drive. An Express server keeps one JSON document,
`db.json`, with the users and the file records, plus an uploads directory
holding the file contents ("blobs"). Two routers serve it:

- `/api/auth`: register, login and logout.
- `/api/files`: list, upload, delete, download, preview, image and edit.

Each handler reads the whole document, looks records up by `id` and `userId`,
and then either answers or changes the record list and the blobs and writes the
document back. A browser page lists the user's files, filters them by type,
sorts them by creation time and opens preview and edit dialogs. A login page
checks its form fields before it sends them.

Layout:

- `replies.dfy` (`Replies`): the answer of a handler (`Done` or `Failed` with an
  HTTP status code), and JavaScript truthiness of a request field.
- `store.dfy` (`Store`): users, file records and the document. `State` holds the
  document (`None` when `db.json` cannot be read) and the blob map. The class
  `Store` gives the file-system calls the handlers make.
- `file_types.dfy` (`FileTypes`): `path.extname(name).toLowerCase()` on POSIX
  paths.
- `files_router.dfy` (`FilesRouter`): the files router. List, download, preview
  and image only read, so they are functions of the state. Upload, delete and
  edit are methods on a `Store`. Each of those methods is specified by a `...Step`
  function that gives the state it leaves and its answer.
- `files_properties.dfy` (`FilesProperties`): what holds across requests.
- `auth_router.dfy` (`AuthRouter`): the auth router. The password hash is a
  function parameter.
- `drive.dfy` (`Drive`): the file list page, including the page state as a class.
- `login_form.dfy` (`LoginForm`): the login and registration form guards.

Clock readings are parameters:

- `stamp` is the `Date.now()` in multer's stored file name.
- `clock` is the `Date.now()` that becomes a record's or user's id.
- `now` is the creation or modification time.

Whether writing `db.json` succeeds is the parameter `writeOk`. That lets the
model cover the failure branches.

Record ids are not guaranteed unique, because two uploads in the same
millisecond get the same id. So the lookups keep the first-match behaviour of
`find` and `findIndex`, and the round-trip lemmas assume the new id is fresh.

Four behaviours of the code are worth stating, because a reader of the routes
might expect otherwise; the model follows the code in each:

- Delete unlinks the blob before it removes the record. A failed unlink is
  ignored.
- A download whose blob is missing answers 404, not a separate integrity fault.
- An upload of zero bytes is accepted. There is no "empty upload" error.
- A failed document write after an edit is not retried. The new blob contents
  stay and the record is unchanged.

## Model

| member | source | states |
|---|---|---|
| Store.Document | server/uploads/1760984047743-files.js:30-37 | the handlers see the stored document, or an empty user and file list when it cannot be read |
| Store.DecimalString | server/uploads/1760984047743-files.js:102 | an id made from a clock reading is a non-empty string of decimal digits with no leading zero (only the reading 0 gives "0") |
| Store.DecimalStringRoundTrip | server/uploads/1760984047743-files.js:102 | reading the digits of an id back as a decimal number gives the clock reading |
| Store.DecimalStringInjective | server/uploads/1760984047743-files.js:102 | different clock readings give different ids |
| Store.Store.WriteDB | server/uploads/1760984047743-files.js:39-41 | a successful write replaces the whole document; a failed one leaves it, and the blobs are never touched |
| Store.Store.Unlink | server/uploads/1760984047743-files.js:167 | the blob is gone afterwards, and the call reports whether it existed |
| Store.Store.WriteFile | server/uploads/1760984047743-files.js:334 | the blob at that path holds exactly the new contents; no other blob and not the document changes |
| FileTypes.StripTrailingSlashes | server/uploads/1760984047743-files.js:108 | removes exactly the trailing run of '/' and nothing else |
| FileTypes.BaseName | server/uploads/1760984047743-files.js:108 | the last path component contains no separator |
| FileTypes.BaseNameIsLastComponent | server/uploads/1760984047743-files.js:108 | the last component is the suffix after the last separator, so it is preceded by '/' unless it is the whole path |
| FileTypes.LastDot | server/uploads/1760984047743-files.js:108 | the position of the last '.', or -1; no '.' follows it |
| FileTypes.ExtName | server/uploads/1760984047743-files.js:108 | an extension is empty or one leading '.' followed by no '.' and no '/' |
| FileTypes.Extension | server/uploads/1760984047743-files.js:108 | the extension of one path component has the same shape |
| FileTypes.LowerAscii | server/uploads/1760984047743-files.js:108 | `toLowerCase` on ASCII: same length, each capital becomes its small letter (32 code points on), and every other character is kept |
| FileTypes.FileType | server/uploads/1760984047743-files.js:108 | the stored type is empty or one leading '.' followed by no '.' and no '/', and holds no capital letter |
| FileTypes.ExtNameCommutesWithLower | server/uploads/1760984047743-files.js:108 | taking the extension and lower-casing can be done in either order |
| FileTypes.FileTypeIgnoresCase | server/uploads/1760984047743-files.js:108 | two names that differ only in ASCII letter case, such as `FOO.C` and `foo.c`, get the same stored type |
| FileTypes.FileTypeOfDottedName | server/uploads/1760984047743-files.js:108 | `stem.ext` with a real stem and no '.' in `ext` gets the type `.ext` lower-cased |
| FileTypes.FileTypeWithoutDot | server/uploads/1760984047743-files.js:108 | a name without '.' gets the empty type, so it can be neither previewed nor edited |
| FileTypes.DotfileHasNoType | server/uploads/1760984047743-files.js:108 | a name whose only '.' is its first character, such as `.c` or `.bashrc`, gets the empty type |
| FileTypes.DotDotHasNoType | server/uploads/1760984047743-files.js:108 | the name `..` gets the empty type |
| FileTypes.UpperCaseCIsText | server/uploads/1760984047743-files.js:108 | a file named `<stem>.C` is stored with the text type `.c` |
| FileTypes.UpperCaseJpgIsImage | server/uploads/1760984047743-files.js:108 | a file named `<stem>.JPG` is stored with the image type `.jpg` |
| FilesRouter.FindIndex | server/uploads/1760984047743-files.js:154 | the first position holding the caller's record with that id, or -1 when there is none |
| FilesRouter.Find | server/uploads/1760984047743-files.js:205 | a found record is in the list and is the caller's record with that id; nothing is found exactly when there is no such record |
| FilesRouter.FilesOf | server/uploads/1760984047743-files.js:56 | the result holds exactly the records of that user |
| FilesRouter.List | server/uploads/1760984047743-files.js:44-69 | 401 exactly when `userId` is missing; otherwise exactly the caller's records |
| FilesRouter.DownloadFile | server/uploads/1760984047743-files.js:190-230 | 401 without a `userId`; 404 when the caller has no record with that id or its blob is missing; otherwise the blob of the caller's first such record, under its original name |
| FilesRouter.PreviewFile | server/uploads/1760984047743-files.js:233-285 | 401 without a `userId`; 404 when the caller has no record with that id; for the caller's record: a `.c` file gives its blob text (500 when the blob is missing), a `.jpg` file its image URL, and any other type 400 |
| FilesRouter.ImageFile | server/uploads/1760984047743-files.js:288-315 | 401 without a `userId`; 404 when the caller has no record with that id; the path of the caller's record when it is a `.jpg`, otherwise 400 |
| FilesRouter.ImageUrl | server/uploads/1760984047743-files.js:269 | the preview URL is the image route, then exactly the file's id, then `?userId=` and the caller's id |
| FilesRouter.StoredName | server/uploads/1760984047743-files.js:17 | multer's name is decimal digits, then '-', then exactly the original name |
| FilesRouter.UploadPath | server/uploads/1760984047743-files.js:13-19 | a blob is stored under the uploads directory by its stored name |
| FilesRouter.NewRecord | server/uploads/1760984047743-files.js:101-113 | the new record's path is the uploads directory plus its stored name, its type is derived from its name, its size is the content length, and both timestamps and both user fields are the upload's |
| FilesRouter.Edited | server/uploads/1760984047743-files.js:337-338 | an edit sets `modifiedAt` and `editedBy` and changes no other field |
| FilesRouter.UploadStep | server/uploads/1760984047743-files.js:72-136 | the 401 check comes first and removes the blob multer wrote, and with no file it changes nothing; a missing file is 400 with no change; a failed write answers 500; success appends exactly one record with the derived type, the size, `uploadedBy = editedBy`, both timestamps `now`, the id made from the clock, the stored name and the upload path, naming the stored blob; every failure leaves the document as it was and no blob at the upload's path |
| FilesRouter.DeleteStep | server/uploads/1760984047743-files.js:139-187 | 401, then 404 with no change; a found record is handled by `DeleteAt` at its first matching position; success exactly when the record is found and the write succeeds, removing exactly that record, keeping the others in order (and as a multiset), and removing its blob; a failed write answers 500 and leaves the document as it was |
| FilesRouter.DeleteAt | server/uploads/1760984047743-files.js:163-174 | the found record's blob is unlinked in every case; a successful write splices out exactly that record; a failed write answers 500 with the document as it was and only that blob gone |
| FilesRouter.EditStep | server/uploads/1760984047743-files.js:318-347 | 401, then 404, then 400 for a non-`.c` file, then 500 for a missing content, each with no change; success exactly when the caller owns a `.c` record with that id, the content is present and the write succeeds; success leaves every other record as it was, stamps `modifiedAt` and `editedBy` on the found record and puts exactly the new contents in its blob; a failed write keeps the record but the blob already holds the new contents |
| FilesRouter.Upload | server/uploads/1760984047743-files.js:72-136 | the handler's effect on the store and its answer are those of `UploadStep` |
| FilesRouter.Delete | server/uploads/1760984047743-files.js:139-187 | the handler's effect on the store and its answer are those of `DeleteStep` |
| FilesRouter.Edit | server/uploads/1760984047743-files.js:318-347 | the handler's effect on the store and its answer are those of `EditStep` |
| FilesProperties.FilesOfConcat | server/uploads/1760984047743-files.js:56 | filtering by owner distributes over concatenation, so the listing keeps the stored order |
| FilesProperties.ListAfterUpload | server/uploads/1760984047743-files.js:115 | after an upload the uploader's listing is the old listing with the new record at the end |
| FilesProperties.OthersListAfterUpload | server/uploads/1760984047743-files.js:115 | an upload does not change any other user's listing |
| FilesProperties.FindIndexAppend | server/uploads/1760984047743-files.js:154 | appending a record keeps an earlier first match, and the appended record is found when there was none |
| FilesProperties.FindAfterUpload | server/uploads/1760984047743-files.js:205 | when its id is fresh, the uploaded record is what the uploader's lookup of that id finds |
| FilesProperties.DownloadAfterUpload | server/uploads/1760984047743-files.js:215-222 | downloading a fresh upload returns the uploaded bytes under the uploaded name |
| FilesProperties.PreviewAfterUpload | server/uploads/1760984047743-files.js:258-264 | previewing a freshly uploaded `.c` file returns its text |
| FilesProperties.FindIndexAfterUpdate | server/uploads/1760984047743-files.js:337-338 | updating the found record in place keeps it the first match |
| FilesProperties.FirstMatchIsFindIndex | server/uploads/1760984047743-files.js:154 | a matching position with no match before it is the one `findIndex` returns |
| FilesProperties.PreviewAfterEdit | server/uploads/1760984047743-files.js:331-339 | after an edit a preview returns exactly the new text, and a download the new contents |
| FilesProperties.FindSeesOnlyOwner | server/uploads/1760984047743-files.js:205 | looking a file up among all records or among the caller's own records gives the same answer |
| FilesProperties.OwnView | server/uploads/1760984047743-files.js:56 | the state as one user sees it holds exactly that user's records |
| FilesProperties.DownloadSeesOnlyOwnRecords | server/uploads/1760984047743-files.js:205-212 | a download answers a caller as if no other user had records |
| FilesProperties.PreviewSeesOnlyOwnRecords | server/uploads/1760984047743-files.js:248-255 | a preview answers a caller as if no other user had records |
| FilesProperties.ImageSeesOnlyOwnRecords | server/uploads/1760984047743-files.js:300-304 | an image request answers a caller as if no other user had records |
| FilesProperties.WritersSeeOnlyOwnRecords | server/uploads/1760984047743-files.js:328-330 | edit and delete answer a caller, and change the blobs, as if no other user had records |
| FilesProperties.EditSeesOnlyOwnRecords | server/uploads/1760984047743-files.js:328-330 | an edit answers a caller, and writes the blobs, as if no other user had records |
| FilesProperties.DeleteSeesOnlyOwnRecords | server/uploads/1760984047743-files.js:154-167 | a delete answers a caller, and unlinks a blob, as if no other user had records |
| FilesProperties.ForeignFileIsNotFound | server/uploads/1760984047743-files.js:154-161 | when the caller owns no record with that id, every per-file handler answers 404 and changes nothing, whoever else owns it |
| FilesProperties.SpliceDropsId | server/uploads/1760984047743-files.js:173 | with unique ids, splicing out a record leaves no record with its id |
| FilesProperties.DeleteWithFailedWriteLosesBlob | server/uploads/1760984047743-files.js:163-174 | when the document write fails after the unlink, the answer is 500, the record stays in the document, its blob is gone and every other blob remains |
| FilesProperties.DeleteMakesFileUnreachable | server/uploads/1760984047743-files.js:173 | with unique ids, a deleted file is found by no user afterwards, and download and preview answer 404 |
| FilesProperties.UploadKeepsWellFormed | server/uploads/1760984047743-files.js:101-116 | upload keeps every record's type derived from its name and its path naming its stored blob |
| FilesProperties.EditKeepsWellFormed | server/uploads/1760984047743-files.js:337-338 | edit keeps that invariant |
| FilesProperties.DeleteKeepsWellFormed | server/uploads/1760984047743-files.js:173 | delete keeps that invariant |
| FilesProperties.StoredNameInjective | server/uploads/1760984047743-files.js:17 | different clock readings or different original names give different stored names |
| FilesProperties.UpperCaseNamesArePreviewed | server/uploads/1760984047743-files.js:258-271 | in a well-formed document the server previews the caller's `<stem>.C` as its text and `<stem>.JPG` as an image |
| AuthRouter.FindUser | server/routes/auth.js:56 | a found user has that name; nothing is found exactly when no user has it |
| AuthRouter.FindCredentials | server/routes/auth.js:104-106 | a found user has that name and hash; nothing is found exactly when no user has both |
| AuthRouter.RegisterStep | server/routes/auth.js:35-87 | 400 without change for a missing field, a password shorter than 4 UTF-16 code units or a taken name; a failed write answers 500; success exactly when all guards pass and the write succeeds, appending one user with the hashed password whose id is the answer |
| AuthRouter.Register | server/routes/auth.js:35-87 | the handler's effect and answer are those of `RegisterStep` |
| AuthRouter.Login | server/routes/auth.js:90-132 | 400 for a missing field; otherwise success exactly when some user has that name and the hash of that password, answering that user's id and name; else 401 |
| AuthRouter.Logout | server/routes/auth.js:135-140 | always succeeds and changes nothing |
| AuthRouter.RegisterKeepsUsernamesUnique | server/routes/auth.js:56-62 | registration keeps usernames unique |
| AuthRouter.FindCredentialsAppend | server/routes/auth.js:104-106 | a user appended under a new name is found by their credentials |
| AuthRouter.LoginAfterRegister | server/routes/auth.js:65-79 | logging in with the registered name and password succeeds and answers the new user's id |
| Drive.OfType | client/drive.js:42 | the result holds exactly the files of that type |
| Drive.FilterFiles | client/drive.js:38-43 | "all" gives the whole list; any other value gives exactly the files of that type |
| Drive.OfTypeConcat | client/drive.js:42 | filtering distributes over concatenation, so it keeps the order |
| Drive.FilterIdempotent | client/drive.js:38-43 | filtering twice by the same value is filtering once |
| Drive.InOrder | client/drive.js:47-51 | `a` may stay before `b` exactly when the comparator does not ask for a swap; of any two records one may precede the other |
| Drive.SortedSnoc | client/drive.js:47-51 | appending an element that every element may precede keeps a list sorted |
| Drive.Insert | client/drive.js:47-51 | inserting into a sorted list gives a sorted list with one more occurrence of that element |
| Drive.SortFiles | client/drive.js:46-52 | the result is sorted by the comparator and is a permutation of the input |
| Drive.SortedOrder | client/drive.js:48-50 | "desc" gives non-increasing creation times, any other value non-decreasing ones, and the length is kept |
| Drive.FormatSize | client/drive.js:67-71 | bytes below 1024 as they are, kilobytes below 1024 * 1024, megabytes above; the shown amount times the unit is the size |
| Drive.FormatSizeMonotone | client/drive.js:67-71 | a larger file never gets a smaller unit |
| Drive.RowOf | client/drive.js:87-106 | the text icon and the edit button appear exactly for `.c` files, and the row shows the file's id, name and size |
| Drive.Rows | client/drive.js:87-106 | one row per file, in the given order |
| Drive.EditButtonMatchesServer | client/drive.js:101 | the edit button is offered exactly for the files whose edit the server does not refuse with 400 |
| Drive.FindById | client/drive.js:196 | a found file is in the list with that id; nothing is found exactly when no file has it |
| Drive.EndsWith | client/drive.js:209-212 | `endsWith`: the last characters of the string are exactly the suffix |
| Drive.PreviewAsWritten | client/drive.js:191-226 | no dialog exactly when the id is not in the loaded list; a server failure is shown as an error; a successful answer is shown as text exactly when the name ends in `.c`, as an image exactly when it ends in `.jpg` or `.jpeg` but not `.c`, and as unsupported exactly when it ends in none of them; the text or image shown carries the answer's own `content` or `url`, undefined when the answer is of the other kind |
| Drive.PreviewByReply | client/drive.js:191-226 | no dialog exactly when the id is not in the loaded list; a server failure is shown as an error; a successful answer is shown by its own kind, a text answer as its `content` and an image answer as its `url` |
| Drive.PreviewByReplyShowsServerPreview | client/drive.js:207-218 | with the corrected dispatch, every successful server preview of a listed file is shown as text or image, never as unsupported |
| Drive.UppercaseRecord | server/uploads/1760984047743-files.js:108 | the record of an upload of `MAIN.C` has the text type |
| Drive.UppercaseNameHasNoLowercaseSuffix | client/drive.js:209-212 | `MAIN.C` ends in neither `.c`, `.jpg` nor `.jpeg` |
| Drive.UppercaseNameShownUnsupported | client/drive.js:209-218 | the server previews `MAIN.C` as text, but the page as written shows it as unsupported |
| Drive.CapitalisedNameShownUnsupported | client/drive.js:209-218 | every listed file whose name ends in a capital letter, such as `<stem>.C` or `<stem>.JPG`, is shown as unsupported by the page as written, whatever the server answers |
| Drive.EditorAfterPreview | client/drive.js:228-284 | no editor exactly when the id is not in the list; the editor opens exactly on a text answer, holding that text |
| Drive.DriveView.constructor | client/drive.js:13-15 | the page starts with no files, the filter "all" and the sort "desc" |
| Drive.DriveView.LoadFiles | client/drive.js:18-35 | a successful answer replaces the list and is rendered: the rows are the filtered answer sorted, and with the filter "all" the list is left sorted; a failure changes nothing and renders nothing |
| Drive.DriveView.SetFilter | client/drive.js:349-354 | sets the filter and renders; choosing "all" leaves the loaded list sorted, and it stays a permutation of what it was |
| Drive.DriveView.SetSort | client/drive.js:357-360 | sets the order and renders; with the filter "all" the loaded list is re-sorted by the new order |
| Drive.DriveView.RenderFiles | client/drive.js:74-106 | the rows are those of the filtered list sorted; with "all" the loaded list itself is left sorted, and it stays a permutation of what it was |
| LoginForm.TrimEnd | client/script.js:33 | removes exactly the trailing white space |
| LoginForm.TrimStart | client/script.js:33 | removes exactly the leading white space |
| LoginForm.Trim | client/script.js:33 | `trim()` keeps exactly the slice between the leading and the trailing white space: everything removed is white space and what is kept starts and ends with a non-white-space character |
| LoginForm.TrimEmpty | client/script.js:33 | the trimmed name is empty exactly when the input is all white space |
| LoginForm.TrimIdempotent | client/script.js:33 | trimming twice is trimming once |
| LoginForm.LoginSubmission | client/script.js:33-39 | refused with "fill all fields" exactly when the trimmed name or the password is empty; otherwise it sends the trimmed name and the password as typed |
| LoginForm.RegisterSubmission | client/script.js:77-94 | the checks run in order (empty fields, then length under 4 UTF-16 code units, then confirmation mismatch) and each error is given exactly when its check is the first to fail; otherwise it sends the trimmed name and the password as typed |
| LoginForm.RegisterFormAtLeastAsStrictAsServer | client/script.js:81-94 | the server refuses what the form sends only for a taken name or a failed write |
| LoginForm.LoginFormAtLeastAsStrictAsServer | client/script.js:36-39 | the server never answers 400 to what the login form sends |
| LoginForm.BlankUsernameRefusedOnlyByForm | client/script.js:77-84 | a blank username is refused by the form although the server would register it |
| Replies.JsLength | server/routes/auth.js:46 | a string's JavaScript length is between its character count and twice it, and equals the count exactly when no character lies above U+FFFF |
| Replies.JsLengthConcat | server/routes/auth.js:46 | the length of a concatenation is the sum of the lengths, and one character counts 2 above U+FFFF and 1 otherwise, which fixes the length of every string |
| LoginForm.SurrogatePairPasswordAccepted | client/script.js:86 | a three-character password ending in a character above U+FFFF has length 4, so the form sends it and the server registers it |

## Left out

- Express routing, multer, JSON parsing and serialisation, and the response bodies. Handlers answer a status code and a value. `server/routes/index.js`, `server/server.js` and the startup file `server/uploads/1760984046546-server.js` are not part of this model.
- Exceptions from `fs.stat`, `fs.readFile` and `res.download` / `res.sendFile` are not modelled. The only I/O failures modelled are a failed document write (`writeOk`), a missing blob on download, preview or unlink, and a missing edit `content`.
- A document write either succeeds fully or changes nothing. Partial writes of `db.json` are not modelled.
- Concurrency: each handler runs atomically. The read-modify-write races between concurrent handlers are not modelled.
- `crypto`: the password hash is an uninterpreted function parameter. The login token is random and is left out.
- `Date.now()` and `toISOString()` become integer parameters. The two `new Date()` calls of an upload are read as one time `now`.
- Blobs are sequences of characters, and a record's size is the number of characters. Byte encodings are not modelled.
- `path.join` with the uploads directory is modelled as the prefix `uploads/`. A name containing `/` or `..` is not normalised. multer overwriting an existing blob of the same stored name is modelled as a map update.
- `toLowerCase` is modelled on ASCII letters only. Other Unicode case mappings are not modelled.
- `formatDate`, and the `toFixed(2)` digits and unit suffixes of `formatSize`. Only the unit and the exact amount are modelled.
- DOM rendering, `escapeHtml`, modals, drag and drop, folder sync, column visibility, `setTimeout`, `fetch`, `localStorage`, messages and redirects.
- The save handler of the edit dialog and `uploadFile` / `deleteFile` on the page only call the server handlers modelled above. Their status text is not modelled.
- `createdAt` is compared as an integer time. Parsing ISO strings with `new Date` is not modelled.
- Drive.SortFiles: stability of `Array.prototype.sort` is not proved. The insertion sort used as its model is stable, but only sortedness and permutation are stated.
- Drive.RowOf: the row does not carry the date, user and size-digit columns.

## Findings

| source | as written | input that shows it | evidently intended | confidence | as-written member | corrected member |
|---|---|---|---|---|---|---|
| client/drive.js:209-218 | `previewFile` picks how to show the server's answer from the case-sensitive suffix of `originalName` (`.c`, `.jpg`, `.jpeg`). The server decides the preview by the lower-cased type (server/uploads/1760984047743-files.js:108, 258) | a file uploaded as `MAIN.C`: the server answers a text preview, but the page shows "preview not supported"; likewise `PHOTO.JPG` with an image preview | show the answer by its own kind (`type: 'text'` or `'image'`), as `editFile` does at client/drive.js:248 | medium, not executed | Drive.UppercaseNameShownUnsupported | Drive.PreviewByReplyShowsServerPreview |
