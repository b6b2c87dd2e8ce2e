/**
 * backend/middleware/uploadMiddlewareGridFS.js: the multer file filter, the
 * multer limits, and uploadToGridFS, which names an accepted file and writes
 * it into the cached GridFS bucket.
 */
module UploadGridFS {
  import opened Common
  import opened JsStrings
  import opened NodePath
  import opened UploadRules
  import opened GridFSConfig

  /** The two upload fields the filter admits. */
  predicate IsUploadField(fieldname: string) {
    fieldname == "resume" || fieldname == "profilePhoto"
  }

  /** The extensions the filter allows for a field, lower-case and with the dot. */
  function ValidExtensions(fieldname: string): seq<string> {
    if fieldname == "resume" then [".pdf", ".doc", ".docx"] else [".jpg", ".jpeg", ".png"]
  }

  /** The MIME allow-list from the configuration that applies to a field. */
  function AllowedTypes(c: Constants, fieldname: string): seq<string> {
    if fieldname == "resume" then c.allowedResumeTypes else c.allowedImageTypes
  }

  /** The filter's acceptance condition stated declaratively: a known field,
      a MIME type on that field's list and a lower-cased extension on that
      field's list. Nothing about the size. */
  predicate Admissible(c: Constants, fieldname: string, mimetype: string, originalname: string) {
    && IsUploadField(fieldname)
    && mimetype in AllowedTypes(c, fieldname)
    && ToLowerAscii(ExtName(originalname)) in ValidExtensions(fieldname)
  }

  const InvalidFieldMessage := "Invalid file field name"
  /** "Only PDF, DOC, DOCX files are allowed for resume" */
  const ResumeTypeMessage := "Only " + "PDF, DOC, DOCX" + " files are allowed for " + "resume"
  /** "Only JPG, PNG files are allowed for profilePhoto" */
  const PhotoTypeMessage := "Only " + "JPG, PNG" + " files are allowed for " + "profilePhoto"

  /** fileFilter: the field name is checked, then the MIME type, then the
      extension, and the first failure decides the message. The per-field
      maximum size the source computes is never consulted. */
  function FileFilter(c: Constants, fieldname: string, mimetype: string, originalname: string): (d: Decision)
    ensures d.Accept? <==> Admissible(c, fieldname, mimetype, originalname)
    ensures d.Reject? ==>
      || d.message in {InvalidFieldMessage, ResumeTypeMessage, PhotoTypeMessage}
      || d.message == "Invalid file extension: " + ToLowerAscii(ExtName(originalname))
  {
    var isResume := fieldname == "resume";
    var isProfilePhoto := fieldname == "profilePhoto";
    if !isResume && !isProfilePhoto then
      Reject("Invalid file field name")
    else
      var allowedTypes := if isResume then c.allowedResumeTypes else c.allowedImageTypes;
      if mimetype !in allowedTypes then
        var expectedTypes := if isResume then "PDF, DOC, DOCX" else "JPG, PNG";
        Reject("Only " + expectedTypes + " files are allowed for " + fieldname)
      else
        var ext := ToLowerAscii(ExtName(originalname));
        var validExtensions := if isResume then [".pdf", ".doc", ".docx"] else [".jpg", ".jpeg", ".png"];
        if ext !in validExtensions then
          Reject("Invalid file extension: " + ext)
        else
          Accept
  }

  /** Any field other than exactly "resume" or "profilePhoto" is refused for
      that reason alone, whatever its MIME type and name. */
  lemma FieldCheckedFirst(c: Constants, fieldname: string, mimetype: string, originalname: string)
    requires !IsUploadField(fieldname)
    ensures FileFilter(c, fieldname, mimetype, originalname) == Reject(InvalidFieldMessage)
  {
  }

  /** A MIME type off the field's list is reported as such, even when the
      extension is wrong too: the MIME check comes first. */
  lemma MimeCheckedBeforeExtension(c: Constants, fieldname: string, mimetype: string, originalname: string)
    requires IsUploadField(fieldname) && mimetype !in AllowedTypes(c, fieldname)
    ensures FileFilter(c, fieldname, mimetype, originalname)
      == Reject(if fieldname == "resume" then ResumeTypeMessage else PhotoTypeMessage)
  {
  }

  /** With field and MIME type in order, a bad extension is reported with the
      lower-cased extension, whatever the MIME type was. */
  lemma ExtensionRejection(c: Constants, fieldname: string, mimetype: string, originalname: string)
    requires IsUploadField(fieldname) && mimetype in AllowedTypes(c, fieldname)
    requires ToLowerAscii(ExtName(originalname)) !in ValidExtensions(fieldname)
    ensures FileFilter(c, fieldname, mimetype, originalname)
      == Reject("Invalid file extension: " + ToLowerAscii(ExtName(originalname)))
  {
  }

  /** The extension test is case-insensitive: two names that agree once
      lower-cased get the same verdict, message included. */
  lemma FilterIgnoresNameCase(c: Constants, fieldname: string, mimetype: string, name1: string, name2: string)
    requires ToLowerAscii(name1) == ToLowerAscii(name2)
    ensures FileFilter(c, fieldname, mimetype, name1) == FileFilter(c, fieldname, mimetype, name2)
  {
    ExtNameLowerCommutes(name1);
    ExtNameLowerCommutes(name2);
  }

  /** The size constants play no part in the verdict: configurations that
      share the MIME lists decide every file alike. */
  lemma FilterIgnoresSizeLimits(c1: Constants, c2: Constants, fieldname: string, mimetype: string, originalname: string)
    requires c1.allowedResumeTypes == c2.allowedResumeTypes && c1.allowedImageTypes == c2.allowedImageTypes
    ensures FileFilter(c1, fieldname, mimetype, originalname) == FileFilter(c2, fieldname, mimetype, originalname)
  {
  }

  /** The multer limits: at most two files per request, each at most MAX_FILE_SIZE bytes. */
  function UploadLimits(c: Constants): (l: Limits)
    ensures forall sizes: seq<nat> {:trigger WithinLimits(l, sizes)} ::
      WithinLimits(l, sizes) <==> |sizes| <= 2 && forall i :: 0 <= i < |sizes| ==> sizes[i] <= c.maxFileSize
  {
    Limits(fileSize := c.maxFileSize, files := 2)
  }

  /** The name a file is stored under: field, '-', timestamp, and the original
      extension with its case kept. */
  function StoredFilename(fieldname: string, now: nat, originalname: string): (name: string)
    ensures |name| > |fieldname| + 1 && name[..|fieldname| + 1] == fieldname + "-"
    ensures var ext := ExtName(originalname);
      |name| >= |ext| && name[|name| - |ext|..] == ext
  {
    var prefix := fieldname + "-" + NatToDecimal(now);
    assert (prefix + ExtName(originalname))[..|fieldname| + 1] == prefix[..|fieldname| + 1];
    prefix + ExtName(originalname)
  }

  /** Between the field's "-" and the extension the stored name holds the
      timestamp: decimal digits that read back as `now`. */
  lemma StoredFilenameNamesTime(fieldname: string, now: nat, originalname: string)
    ensures var name := StoredFilename(fieldname, now, originalname);
      var ext := ExtName(originalname);
      && |fieldname| + 1 < |name| - |ext|
      && var stamp := name[|fieldname| + 1..|name| - |ext|];
        && (forall i :: 0 <= i < |stamp| ==> IsDigit(stamp[i]))
        && DecimalValue(stamp) == now
  {
    var name := StoredFilename(fieldname, now, originalname);
    var ext := ExtName(originalname);
    var digits := NatToDecimal(now);
    assert name == fieldname + "-" + digits + ext;
    assert name[|fieldname| + 1..|name| - |ext|] == digits;
    DecimalRoundTrip(now);
  }

  /** The part of the stored name before the extension holds no '.' and no '/'. */
  lemma StoredPrefixPlain(fieldname: string, now: nat)
    requires forall k :: 0 <= k < |fieldname| ==> fieldname[k] != '.' && fieldname[k] != '/'
    ensures var prefix := fieldname + "-" + NatToDecimal(now);
      forall k :: 0 <= k < |prefix| ==> prefix[k] != '.' && prefix[k] != '/'
  {
    var digits := NatToDecimal(now);
    var prefix := fieldname + "-" + digits;
    forall k | 0 <= k < |prefix| ensures prefix[k] != '.' && prefix[k] != '/' {
      if k > |fieldname| {
        assert prefix[k] == digits[k - |fieldname| - 1];
      }
    }
  }

  /** The stored name carries the original file's extension unchanged (for a
      field name without '.' or '/', which both upload fields are). */
  lemma StoredFilenameKeepsExtension(fieldname: string, now: nat, originalname: string)
    requires forall k :: 0 <= k < |fieldname| ==> fieldname[k] != '.' && fieldname[k] != '/'
    ensures ExtName(StoredFilename(fieldname, now, originalname)) == ExtName(originalname)
  {
    StoredPrefixPlain(fieldname, now);
    ExtNameOfSuffixed(fieldname + "-" + NatToDecimal(now), originalname);
  }

  /** The route files are served from. */
  const FilesRoute := "/api/files/"

  /** The URL under which a stored file is served. The driver's ObjectId is
      modelled as a number and rendered in decimal. */
  function FileUrl(fileId: nat): (url: string)
    ensures |url| > |FilesRoute| && url[..|FilesRoute|] == FilesRoute
    ensures forall i :: |FilesRoute| <= i < |url| ==> IsDigit(url[i])
  {
    var digits := NatToDecimal(fileId);
    assert forall i :: |FilesRoute| <= i < |FilesRoute + digits| ==> (FilesRoute + digits)[i] == digits[i - |FilesRoute|];
    FilesRoute + digits
  }

  /** The URL is the files route followed by the id's digits, and those digits
      read back as the id: distinct files get distinct URLs. */
  lemma FileUrlNamesFile(fileId: nat)
    ensures |FileUrl(fileId)| > |FilesRoute| && FileUrl(fileId)[..|FilesRoute|] == FilesRoute
    ensures var digits := FileUrl(fileId)[|FilesRoute|..];
      && (forall i :: 0 <= i < |digits| ==> IsDigit(digits[i]))
      && DecimalValue(digits) == fileId
  {
    assert FileUrl(fileId)[|FilesRoute|..] == NatToDecimal(fileId);
    DecimalRoundTrip(fileId);
  }

  /** The object the upload promise resolves with. */
  datatype UploadResult = UploadResult(fileId: nat, filename: string, url: string)

  /** Why the upload promise rejects: no bucket could be had (getGridFSBucket
      returned null, so opening the stream throws), or the stream emitted 'error'. */
  datatype UploadError = BucketUnavailable | StreamError

  /** uploadToGridFS(file, fieldname). `now` stands for Date.now(), `uploadedAt`
      for new Date(), `conn` for mongoose's connection should the bucket still
      have to be initialised, and `streamFails` for whether the upload stream
      ends in 'error'. The file goes into the database of the bucket
      getGridFSBucket returns: the cached one's, or else the connection's. */
  method UploadToGridFS(cache: GridFSCache, originalname: string, mimetype: string, buffer: seq<bv8>,
                        fieldname: string, now: nat, uploadedAt: nat, conn: Connection, streamFails: bool)
    returns (r: Result<UploadResult, UploadError>)
    requires cache.Valid()
    requires conn.db != null ==> conn.db.Valid()
    modifies cache, conn.db, if cache.bucket != null then cache.bucket.db else null
    ensures cache.Valid()
    ensures old(cache.bucket) != null ==> cache.bucket == old(cache.bucket)
    ensures r == Failure(BucketUnavailable) <==>
      old(cache.bucket) == null && (conn.db == null || conn.bucketConstructorThrows)
    ensures r == Failure(BucketUnavailable) ==> cache.bucket == null && (conn.db != null ==> unchanged(conn.db))
    ensures var store := if old(cache.bucket) != null then old(cache.bucket).db else conn.db;
      && (r.Failure? && r.error == StreamError ==>
            store != null && cache.bucket != null && cache.bucket.db == store && store.files == old(store.files))
      && (r.Success? <==> cache.bucket != null && !streamFails)
      && (r.Success? ==>
            var stored := StoredFile(StoredFilename(fieldname, now, originalname), mimetype,
                                     FileMetadata(originalname, fieldname, uploadedAt), buffer);
            && store != null
            && cache.bucket != null && cache.bucket.db == store
            && r.value.fileId !in old(store.files)
            && store.files == old(store.files)[r.value.fileId := stored]
            && r.value.filename == StoredFilename(fieldname, now, originalname)
            && r.value.url == FileUrl(r.value.fileId))
      && (conn.db != null && conn.db != store ==> unchanged(conn.db))
  {
    var bucket := cache.GetGridFSBucket(conn);
    if bucket == null {
      return Failure(BucketUnavailable);
    }
    var filename := StoredFilename(fieldname, now, originalname);
    var id := bucket.Upload(filename, mimetype, FileMetadata(originalname, fieldname, uploadedAt), buffer, streamFails);
    if id.None? {
      return Failure(StreamError);
    }
    r := Success(UploadResult(id.value, filename, FileUrl(id.value)));
  }
}
