# JobFinder upload, GridFS and contact logic in Dafny

This project models the decision logic of the JobFinder job portal's back end
and of its contact page, and proves what that logic promises:

- the multer **file filter** that both upload middlewares install (GridFS and
  Cloudinary): field name, then MIME type, then lower-cased extension, each
  with its own message, and the proof that the two copies agree;
- the **storage naming**: the GridFS stored filename, metadata and URL, and the
  Cloudinary `params` record (folder, resource type, public id, formats,
  flags, transformation), plus the multer limits;
- `uploadToGridFS` as a method that writes one record under a fresh id into
  the `uploads` files of the MongoDB database, and the **lazy GridFS bucket
  cache** (`initGridFS`, `getGridFSBucket`) as a class holding a bucket, which
  is a handle on that database and not a store of its own;
- `validateUploadedFiles`, which collects the Cloudinary paths, profile photo
  first, and always calls `next` once;
- the **contact controller** `sendContactEmail`: required fields, the e-mail
  pattern, the message handed to Resend, and the answer (200 whatever became
  of the message);
- the **contact page** state: `handleChange`, `validateForm` with its
  per-field trim-and-length rules, and `handleSubmit` with the POST's outcome
  as a parameter.

JavaScript primitives the logic depends on are defined explicitly:
`String.prototype.trim` over the ECMAScript whitespace set, ASCII
`toLowerCase`, `length` in UTF-16 code units, `indexOf`/`lastIndexOf` for one character, the decimal
rendering of a timestamp or id, and Node's POSIX `path.extname` (trailing
slashes, last segment, leading dot and `..` included). The regular expression
`/^[^\s@]+@[^\s@]+\.[^\s@]+$/` is stated twice, as its language
(`MatchesEmailPattern`) and as a positional test (`IsValidEmail`), and the two
are proved equal.

Files: `common.dfy` (Option, Result), `js_strings.dfy`, `node_path.dfy`,
`email_format.dfy`, `upload_rules.dfy` (shared configuration and verdict
types), `gridfs_config.dfy`, `upload_gridfs.dfy`, `upload_cloudinary.dfy`,
`contact_controller.dfy`, `contact_page.dfy`.

## Model

| member | source | states |
|---|---|---|
| JsStrings.Trim | frontend/src/pages/ContactPage.js:44-66 | the trimmed text is a slice of the input with only whitespace before and after it; it is empty exactly when every character is whitespace, and otherwise starts and ends with a non-whitespace character |
| JsStrings.Utf16Length | frontend/src/pages/ContactPage.js:46 | the length counts UTF-16 code units: at least one and at most two per character |
| JsStrings.Utf16LengthOfBmp | frontend/src/pages/ContactPage.js:46 | text made only of Basic Multilingual Plane characters has one code unit per character |
| JsStrings.Utf16LengthOfChar | frontend/src/pages/ContactPage.js:46 | one character is two code units outside the Basic Multilingual Plane and one inside it |
| JsStrings.Utf16LengthConcat | frontend/src/pages/ContactPage.js:46 | the length of a concatenation is the sum of the lengths, so with the one-character value it fixes the length of any text |
| JsStrings.Utf16LengthOfMixedText | frontend/src/pages/ContactPage.js:46 | "a" followed by an emoji is three code units long |
| JsStrings.ToLowerAscii | backend/middleware/uploadMiddlewareGridFS.js:43 | lower-casing keeps the length and maps each character on its own |
| JsStrings.NatToDecimal | backend/middleware/uploadMiddlewareGridFS.js:76 | the rendered timestamp is non-empty, all digits, with no leading zero |
| JsStrings.DecimalRoundTrip | backend/middleware/uploadMiddlewareGridFS.js:76 | reading the rendered digits back gives the number rendered |
| NodePath.ExtName | backend/middleware/uploadMiddlewareGridFS.js:43 | the extension is the tail of the path's last segment from its last '.', which is never the segment's first character; it is empty exactly when the segment has no '.' after its first character or is ".."; it is a '.' followed by characters that are neither '.' nor '/' |
| NodePath.LastSegmentIsTail | backend/middleware/uploadMiddlewareGridFS.js:43 | the last segment is a tail of the path without its trailing slashes, and is all of it or follows a '/' |
| NodePath.ExtNameKeepsCase | backend/middleware/uploadMiddlewareGridFS.js:43 | the extension of "cv.PDF" is ".PDF" |
| NodePath.ExtNameOfDotFile | backend/middleware/uploadMiddlewareGridFS.js:43 | ".bashrc" has no extension |
| NodePath.ExtNameOfDirectoryPath | backend/middleware/uploadMiddlewareGridFS.js:43 | the extension of "docs.v2/photo.jpg/" is ".jpg": trailing slashes are ignored and only the last segment counts |
| NodePath.ExtNameLowerCommutes | backend/middleware/uploadMiddlewareGridFS.js:43 | taking the extension of the lower-cased name equals lower-casing the extension, so the extension test is case-insensitive |
| NodePath.ExtNameOfSuffixed | backend/middleware/uploadMiddlewareGridFS.js:76 | a plain prefix followed by a name's extension has that same extension |
| EmailFormat.IsValidEmail | backend/controllers/contactController.js:21-22 | an accepted address has at least five characters and neither starts nor ends with '@' |
| EmailFormat.EmailPatternCharacterization | backend/controllers/contactController.js:21-22 | the positional test (no whitespace, one '@' not first, a '.' at least two after it and before the last character) accepts exactly the pattern's language |
| EmailFormat.ValidEmailMatchesPattern | backend/controllers/contactController.js:21-22 | every address the test accepts splits as run '@' run '.' run |
| EmailFormat.PatternMatchIsValidEmail | backend/controllers/contactController.js:21-22 | every run '@' run '.' run string passes the test |
| UploadGridFS.FileFilter | backend/middleware/uploadMiddlewareGridFS.js:18-54 | a file is accepted exactly when its field is resume or profilePhoto, its MIME type is on that field's list and its lower-cased extension on that field's extension list; a rejection carries one of the filter's messages |
| UploadGridFS.FieldCheckedFirst | backend/middleware/uploadMiddlewareGridFS.js:19-26 | any other field name is rejected with "Invalid file field name" whatever the MIME type and name |
| UploadGridFS.MimeCheckedBeforeExtension | backend/middleware/uploadMiddlewareGridFS.js:32-51 | a MIME type off the list gives the field's "Only ... files are allowed for ..." message even when the extension is also wrong |
| UploadGridFS.ExtensionRejection | backend/middleware/uploadMiddlewareGridFS.js:43-51 | with field and MIME type accepted, an extension off the list is rejected with "Invalid file extension: " and the lower-cased extension |
| UploadGridFS.FilterIgnoresNameCase | backend/middleware/uploadMiddlewareGridFS.js:43-51 | two original names equal up to ASCII case get the same verdict and message |
| UploadGridFS.FilterIgnoresSizeLimits | backend/middleware/uploadMiddlewareGridFS.js:29-53 | the size constants never change the verdict: the computed maxSize is unused |
| UploadGridFS.UploadLimits | backend/middleware/uploadMiddlewareGridFS.js:59-66 | a request passes the limits exactly when it has at most 2 files, each at most MAX_FILE_SIZE bytes |
| UploadGridFS.StoredFilename | backend/middleware/uploadMiddlewareGridFS.js:76 | the stored name begins with the field name and '-' followed by more, and ends with the original name's extension |
| UploadGridFS.StoredFilenameNamesTime | backend/middleware/uploadMiddlewareGridFS.js:76 | between the field's '-' and the extension the stored name holds decimal digits that read back as the upload time |
| UploadGridFS.StoredFilenameKeepsExtension | backend/middleware/uploadMiddlewareGridFS.js:76 | the extension of the stored name is the original name's extension, with its case |
| UploadGridFS.FileUrl | backend/middleware/uploadMiddlewareGridFS.js:94 | the URL is /api/files/ followed by decimal digits only |
| UploadGridFS.FileUrlNamesFile | backend/middleware/uploadMiddlewareGridFS.js:94 | the URL is /api/files/ followed by digits that read back as the file id |
| UploadGridFS.UploadToGridFS | backend/middleware/uploadMiddlewareGridFS.js:72-110 | rejects when no bucket can be had or the stream errors; otherwise adds exactly one record (stored name, content type, metadata, bytes) under a fresh id to the files already in the database the bucket is on, and resolves with that id, the stored name and its URL; a stream error or a missing bucket stores nothing |
| GridFSConfig.Bucket.constructor | backend/config/gridfs.js:20-22 | a new bucket is a handle with the given name on the given database; the files stay in the database |
| GridFSConfig.Bucket.Upload | backend/middleware/uploadMiddlewareGridFS.js:79-105 | the upload stream gets an id not yet used in the database; on finish the record is stored under it and no other file changes; on error nothing is stored |
| GridFSConfig.GridFSCache.constructor | backend/config/gridfs.js:6 | the cache starts empty |
| GridFSConfig.GridFSCache.InitGridFS | backend/config/gridfs.js:9-29 | no database or a throwing constructor gives null and leaves the cache as it was; otherwise a new bucket named uploads on the connection's database is cached and returned, and the stored files are untouched |
| GridFSConfig.GridFSCache.GetGridFSBucket | backend/config/gridfs.js:31-37 | a cached bucket is returned unchanged; an empty cache is filled by initGridFS and its result returned; whatever is returned is what is cached |
| UploadCloudinary.FileFilter | backend/middleware/uploadMiddleware.js:64-100 | accepts exactly the files the GridFS filter's acceptance condition admits |
| UploadCloudinary.FiltersAgree | backend/middleware/uploadMiddleware.js:64-100 | the two filters give the same verdict and message on every input |
| UploadCloudinary.UploadLimits | backend/middleware/uploadMiddleware.js:105-112 | the limits are those of the GridFS middleware |
| UploadCloudinary.Params | backend/middleware/uploadMiddleware.js:23-58 | resume: job-portal/resumes, raw, public id resume-time.ext, flag attachment:false; profilePhoto: job-portal/profiles, image, jpg, 800x800 limit and auto:good quality; other fields: job-portal/, auto, field-time; access public; allowed formats per field |
| UploadCloudinary.AcceptedFormatAllowed | backend/middleware/uploadMiddleware.js:37-49 | for a file the filter accepts, its extension without the dot is one of the formats the parameters allow |
| UploadCloudinary.Paths | backend/middleware/uploadMiddleware.js:125-128 | the paths list has one entry per file, in order |
| UploadCloudinary.ValidateUploadedFiles | backend/middleware/uploadMiddleware.js:118-137 | calls next exactly once; logs exactly when some file was uploaded, and logs the profile photo paths followed by the resume paths |
| ContactController.OutgoingFor | backend/controllers/contactController.js:44-46 | the subject is "Contact Form: " followed by the form's subject; from and the single recipient fall back to the fixed defaults when their variables are unset or empty |
| ContactController.SendContactEmail | backend/controllers/contactController.js:8-94 | 200 with the thank-you message exactly when all four fields are non-empty and the address matches; otherwise 400 for a missing field (checked first) or a bad address, 500 when there is no body; a message is sent only on the 200 path and only with an API key |
| ContactController.ResponseIgnoresDelivery | backend/controllers/contactController.js:37-86 | the answer does not depend on the key or on what became of the message |
| ContactController.WhitespaceFieldsAccepted | backend/controllers/contactController.js:13 | any non-empty name, subject and message made only of whitespace pass the server's check, and with a valid address get 200 |
| ContactPage.EmptyFormHasFields | frontend/src/pages/ContactPage.js:22-27 | the initial form holds all four inputs |
| ContactPage.LengthError | frontend/src/pages/ContactPage.js:44-48 | no error exactly when the trimmed value is long enough in UTF-16 code units; the "required" message when it is blank, else the "too short" one |
| ContactPage.EmailError | frontend/src/pages/ContactPage.js:50-54 | no error exactly when the address matches; "Email is required" when blank once trimmed, else the invalid-address message |
| ContactPage.FieldError | frontend/src/pages/ContactPage.js:44-66 | a field has no error exactly when it meets its rule |
| ContactPage.FormErrors | frontend/src/pages/ContactPage.js:41-67 | the error map holds exactly the fields that break their rule |
| ContactPage.NameRule | frontend/src/pages/ContactPage.js:44-48 | name: error exactly when shorter than 2 UTF-16 code units once trimmed, "Name is required" when blank, else "Name must be at least 2 characters" |
| ContactPage.EmailRule | frontend/src/pages/ContactPage.js:50-54 | email: error exactly when the untrimmed text fails the pattern, with the blank and invalid messages |
| ContactPage.SubjectRule | frontend/src/pages/ContactPage.js:56-60 | subject: error exactly when shorter than 3 UTF-16 code units once trimmed, with its two messages |
| ContactPage.MessageRule | frontend/src/pages/ContactPage.js:62-66 | message: error exactly when shorter than 10 UTF-16 code units once trimmed, with its two messages |
| ContactPage.AstralCharacterIsLongEnoughName | frontend/src/pages/ContactPage.js:46 | a name of one character outside the Basic Multilingual Plane has length 2 and is accepted |
| ContactPage.ValidEmailIsTrimmed | frontend/src/pages/ContactPage.js:50-52 | an address that matches is non-blank and unchanged by trimming |
| ContactPage.FormValidIff | frontend/src/pages/ContactPage.js:41-69 | the error map is empty exactly when all four rules hold |
| ContactPage.PaddedEmailRejected | frontend/src/pages/ContactPage.js:50-54 | a non-blank address with leading or trailing whitespace is reported invalid |
| ContactPage.ClientValidPassesServer | backend/controllers/contactController.js:13-27 | every form the page lets through gets 200 from the server, whatever its environment and the send's outcome |
| ContactPage.AlertAfter | frontend/src/pages/ContactPage.js:85-103 | the alert is shown, typed success or error by the outcome, with the server's message when there is one and the default text otherwise |
| ContactPage.ContactPageState.constructor | frontend/src/pages/ContactPage.js:22-30 | empty form, no errors, not loading, hidden alert |
| ContactPage.ContactPageState.HandleChange | frontend/src/pages/ContactPage.js:32-39 | only the named field changes; its error becomes "" only if it was set; other errors, loading and the alert stay |
| ContactPage.ContactPageState.ValidateForm | frontend/src/pages/ContactPage.js:41-70 | the errors become those of the current form, and the result is true exactly when there are none, that is when every rule holds |
| ContactPage.ContactPageState.HandleSubmit | frontend/src/pages/ContactPage.js:72-107 | an invalid form only updates the errors and posts nothing; a valid form is posted as it stands, the alert reports the outcome, the form is emptied on success only, and loading ends false |
| ContactPage.ContactPageState.PostForm | frontend/src/pages/ContactPage.js:79-106 | the form data is sent as it stands; then the alert reports the outcome, the form is reset on success only, and loading ends false |

## Left out

- JsStrings.ToLowerAscii: lower-cases ASCII letters only; `toLowerCase` on other letters is not modelled. Every allowed extension is ASCII, so verdicts on accepted files are unaffected; a rejection message for a non-ASCII extension may differ.
- UploadGridFS.FileUrl: the driver's ObjectId is a number allocated by the bucket model and rendered in decimal, not a 24-digit hexadecimal ObjectId.
- UploadGridFS.UploadToGridFS: the chunks a failing stream may already have written are not modelled; an errored upload stores nothing.
- UploadCloudinary.Params: the resume branch reads `Date.now()` twice; the model takes one reading, the one that ends up in the public id.
- ContactPage.ContactPageState.HandleSubmit: the state while the POST is in flight (loading true, alert hidden) is set but not observable, since PostForm runs on to the settled state; React's batching of state updates is not modelled.
- ContactPage.ContactPageState.HandleChange: only the four form inputs are modelled as field names.
- ContactController.SendContactEmail: body fields are absent or strings; other JSON values (numbers, objects) are not modelled. The HTML body of the message and all logging are left out.
- Calls into Cloudinary, Resend, MongoDB and the GridFS driver are parameters: the send outcome, the connection state and whether the stream fails.
- multer's own enforcement of the filter and limits is not modelled; the filter and the limits are stated as predicates on one file and one request.
- The configuration constants (MIME lists and sizes) are a parameter, since their module is not part of this model.
- Concurrent first calls to `getGridFSBucket` are not modelled; calls are sequential.
- The files, résumé and news routes, the news controller, the news page, the PDF viewer and the contact page's JSX are not part of this model: they are I/O plumbing or rendering.
