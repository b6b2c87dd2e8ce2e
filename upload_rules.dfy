/**
 * Values shared by the two upload middlewares: the settings they read from
 * config/constants (which is not part of this model, so they are a parameter),
 * the verdict a multer file filter hands to its callback, and the multer limits.
 */
module UploadRules {

  /** The configuration constants the middlewares read. */
  datatype Constants = Constants(
    allowedResumeTypes: seq<string>,
    allowedImageTypes: seq<string>,
    maxResumeSize: nat,
    maxProfilePhotoSize: nat,
    maxFileSize: nat)

  /** cb(null, true) or cb(new Error(message), false). */
  datatype Decision = Accept | Reject(message: string)

  /** The `limits` option given to multer: bytes per file and files per request. */
  datatype Limits = Limits(fileSize: nat, files: nat)

  /** What multer's limits admit: no more files than `files`, none larger than `fileSize`. */
  predicate WithinLimits(l: Limits, sizes: seq<nat>) {
    |sizes| <= l.files && forall i :: 0 <= i < |sizes| ==> sizes[i] <= l.fileSize
  }
}
