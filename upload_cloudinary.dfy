/**
 * backend/middleware/uploadMiddleware.js: the Cloudinary variant of the upload
 * middleware. Its file filter is a second copy of the GridFS one; beside it
 * are the per-file Cloudinary upload parameters, the multer limits, and
 * validateUploadedFiles, which lists the stored paths and passes control on.
 */
module UploadCloudinary {
  import opened Common
  import opened JsStrings
  import opened NodePath
  import opened UploadRules
  import UploadGridFS

  /** fileFilter of the Cloudinary middleware, written out as that file has it. */
  function FileFilter(c: Constants, fieldname: string, mimetype: string, originalname: string): (d: Decision)
    ensures d.Accept? <==> UploadGridFS.Admissible(c, fieldname, mimetype, originalname)
  {
    var isResume := fieldname == "resume";
    var isProfilePhoto := fieldname == "profilePhoto";
    if !isResume && !isProfilePhoto then
      Reject("Invalid file field name")
    else
      var allowedTypes := if isResume then c.allowedResumeTypes else c.allowedImageTypes;
      if mimetype !in allowedTypes then
        var expectedTypes := if isResume then "PDF, DOC, DOCX" else "JPG, PNG";
        Reject("Only " + expectedTypes + " files are allowed for " + fieldname)
      else
        var ext := ToLowerAscii(ExtName(originalname));
        var validExtensions := if isResume then [".pdf", ".doc", ".docx"] else [".jpg", ".jpeg", ".png"];
        if ext !in validExtensions then
          Reject("Invalid file extension: " + ext)
        else
          Accept
  }

  /** The two middlewares decide every file alike, down to the message. */
  lemma FiltersAgree(c: Constants, fieldname: string, mimetype: string, originalname: string)
    ensures FileFilter(c, fieldname, mimetype, originalname) == UploadGridFS.FileFilter(c, fieldname, mimetype, originalname)
  {
  }

  /** The multer limits: at most two files per request, each at most MAX_FILE_SIZE bytes. */
  function UploadLimits(c: Constants): (l: Limits)
    ensures l == UploadGridFS.UploadLimits(c)
  {
    Limits(fileSize := c.maxFileSize, files := 2)
  }

  /** One entry of the `transformation` list. */
  datatype Transformation =
    | SizeLimit(width: nat, height: nat, crop: string)
    | Quality(quality: string)

  /** The object the `params` callback returns; None stands for undefined. */
  datatype StorageParams = StorageParams(
    folder: string,
    resourceType: string,
    format: Option<string>,
    allowedFormats: seq<string>,
    publicId: string,
    accessMode: string,
    flags: Option<string>,
    transformation: Option<seq<Transformation>>)

  /** `.substring(1)`: everything after the first character, "" for "". */
  function DropFirst(s: string): string {
    if s == [] then [] else s[1..]
  }

  /** params(req, file): the folder, resource type and public id follow the
      field; `now` stands for the Date.now() reading that ends up in the public
      id (for a resume the source reads the clock twice and keeps the second). */
  function Params(fieldname: string, originalname: string, now: nat): (p: StorageParams)
    ensures p.accessMode == "public"
    ensures p.allowedFormats == if fieldname == "resume" then ["pdf", "doc", "docx"] else ["jpg", "jpeg", "png"]
    ensures fieldname == "resume" ==>
      && p.folder == "job-portal/" + "resumes" && p.resourceType == "raw"
      && p.format == None && p.flags == Some("attachment:false") && p.transformation == None
      && p.publicId == "resume" + "-" + NatToDecimal(now) + "." + DropFirst(ToLowerAscii(ExtName(originalname)))
    ensures fieldname == "profilePhoto" ==>
      && p.folder == "job-portal/" + "profiles" && p.resourceType == "image"
      && p.format == Some("jpg") && p.flags == None
      && p.transformation == Some([SizeLimit(800, 800, "limit"), Quality("auto:good")])
      && p.publicId == "profilePhoto" + "-" + NatToDecimal(now)
    ensures fieldname != "resume" && fieldname != "profilePhoto" ==>
      && p.folder == "job-portal/" && p.resourceType == "auto"
      && p.format == None && p.flags == None && p.transformation == None
      && p.publicId == fieldname + "-" + NatToDecimal(now)
  {
    var isResume := fieldname == "resume";
    var isProfilePhoto := fieldname == "profilePhoto";
    var folder :=
      if isResume then "job-portal/" + "resumes"
      else if isProfilePhoto then "job-portal/" + "profiles"
      else "job-portal/";
    var resourceType := if isResume then "raw" else if isProfilePhoto then "image" else "auto";
    var format: Option<string> := if isProfilePhoto && !isResume then Some("jpg") else None;
    var publicId :=
      if isResume then fieldname + "-" + NatToDecimal(now) + "." + DropFirst(ToLowerAscii(ExtName(originalname)))
      else fieldname + "-" + NatToDecimal(now);
    StorageParams(
      folder := folder,
      resourceType := resourceType,
      format := format,
      allowedFormats := if isResume then ["pdf", "doc", "docx"] else ["jpg", "jpeg", "png"],
      publicId := publicId,
      accessMode := "public",
      flags := if isResume then Some("attachment:false") else None,
      transformation :=
        if isProfilePhoto then Some([SizeLimit(800, 800, "limit"), Quality("auto:good")]) else None)
  }

  /** multer runs the filter before the storage engine, so parameters are only
      computed for accepted files; for each of them the extension (lower-cased,
      without its dot) is one of the formats the parameters allow. */
  lemma AcceptedFormatAllowed(c: Constants, fieldname: string, mimetype: string, originalname: string, now: nat)
    requires FileFilter(c, fieldname, mimetype, originalname).Accept?
    ensures DropFirst(ToLowerAscii(ExtName(originalname))) in Params(fieldname, originalname, now).allowedFormats
  {
    var ext := ToLowerAscii(ExtName(originalname));
    assert ext in UploadGridFS.ValidExtensions(fieldname);
    ValidExtensionWithoutDot(fieldname, ext);
  }

  /** Each extension the filter allows, without its dot, is a format of the field. */
  lemma ValidExtensionWithoutDot(fieldname: string, ext: string)
    requires ext in UploadGridFS.ValidExtensions(fieldname)
    ensures DropFirst(ext) in if fieldname == "resume" then ["pdf", "doc", "docx"] else ["jpg", "jpeg", "png"]
  {
    if fieldname == "resume" {
      assert ext == ".pdf" || ext == ".doc" || ext == ".docx";
    } else {
      assert ext == ".jpg" || ext == ".jpeg" || ext == ".png";
    }
  }

  /** A file as multer-storage-cloudinary reports it; `path` is its Cloudinary URL. */
  datatype UploadedFile = UploadedFile(originalname: string, path: string)

  /** The paths of a list of files, in order (`files.map(f => f.path)`). */
  function Paths(files: seq<UploadedFile>): (ps: seq<string>)
    ensures |ps| == |files| && forall i :: 0 <= i < |files| ==> ps[i] == files[i].path
  {
    seq(|files|, i requires 0 <= i < |files| => files[i].path)
  }

  /** The files of one field of req.files; an absent field contributes nothing. */
  function FieldFiles(files: map<string, seq<UploadedFile>>, fieldname: string): seq<UploadedFile> {
    if fieldname in files then files[fieldname] else []
  }

  /** What validateUploadedFiles collects: the profile photo paths, then the résumé paths. */
  function CollectedPaths(files: Option<map<string, seq<UploadedFile>>>): seq<string> {
    match files
    case None => []
    case Some(m) => Paths(FieldFiles(m, "profilePhoto")) + Paths(FieldFiles(m, "resume"))
  }

  /** validateUploadedFiles(req, res, next). `files` is req.files (None when
      multer set none). Returns the list it logs (None when it logs nothing)
      and how many times it calls next. */
  method ValidateUploadedFiles(files: Option<map<string, seq<UploadedFile>>>)
    returns (logged: Option<seq<string>>, nextCalls: nat)
    ensures nextCalls == 1
    ensures logged.Some? <==> CollectedPaths(files) != []
    ensures logged.Some? ==> logged.value == CollectedPaths(files)
  {
    logged := None;
    if files.Some? {
      var uploadedFiles: seq<string> := [];
      var photos := FieldFiles(files.value, "profilePhoto");
      if "profilePhoto" in files.value {
        var i := 0;
        while i < |photos|
          invariant 0 <= i <= |photos|
          invariant |uploadedFiles| == i
          invariant forall k :: 0 <= k < i ==> uploadedFiles[k] == photos[k].path
        {
          uploadedFiles := uploadedFiles + [photos[i].path];
          i := i + 1;
        }
      }
      assert uploadedFiles == Paths(photos);
      var resumes := FieldFiles(files.value, "resume");
      if "resume" in files.value {
        var i := 0;
        while i < |resumes|
          invariant 0 <= i <= |resumes|
          invariant |uploadedFiles| == |photos| + i
          invariant forall k :: 0 <= k < |photos| ==> uploadedFiles[k] == photos[k].path
          invariant forall k :: 0 <= k < i ==> uploadedFiles[|photos| + k] == resumes[k].path
        {
          uploadedFiles := uploadedFiles + [resumes[i].path];
          i := i + 1;
        }
      }
      assert uploadedFiles == Paths(photos) + Paths(resumes);
      if |uploadedFiles| > 0 {
        logged := Some(uploadedFiles);
      }
    }
    nextCalls := 1;
  }
}
