/**
 * The GridFS bucket and the module-level cache of it (backend/config/gridfs.js).
 *
 * The database is an object of its own: it holds the `uploads` files and
 * hands out fresh object ids, and it outlives any bucket. A Bucket is only a
 * handle on a database, as the driver's GridFSBucket is; two handles on one
 * database see the same files. The connection (whether mongoose has a
 * database yet, and whether the GridFSBucket constructor throws) arrives as a
 * Connection value.
 */
module GridFSConfig {
  import opened Common

  /** The GridFS metadata document the upload middleware attaches to each file. */
  datatype FileMetadata = FileMetadata(originalName: string, fieldname: string, uploadedAt: nat)

  /** One stored file: its name, content type, metadata and bytes. */
  datatype StoredFile = StoredFile(filename: string, contentType: string, metadata: FileMetadata, content: seq<bv8>)

  /** The MongoDB database: the files of its `uploads` collections by object
      id, and the next id the driver will hand out. */
  class Database {
    var files: map<nat, StoredFile>
    var nextId: nat

    /** Every stored id was handed out before; nextId is fresh. */
    ghost predicate Valid()
      reads this
    {
      forall id :: id in files ==> id < nextId
    }
  }

  /** mongoose.connection as initGridFS sees it: `db` is null until the
      connection is ready. */
  datatype Connection = Connection(db: Database?, bucketConstructorThrows: bool)

  const BucketName := "uploads"

  /** new GridFSBucket(db, {bucketName}): a named handle on a database. */
  class Bucket {
    const bucketName: string
    const db: Database

    constructor (name: string, db: Database)
      ensures bucketName == name && this.db == db
    {
      bucketName := name;
      this.db := db;
    }

    /** openUploadStream(filename, {contentType, metadata}) followed by end(buffer).
        The stream gets a fresh id; when it finishes, the record is stored in
        the database under that id; when it errors, nothing is stored. */
    method Upload(filename: string, contentType: string, metadata: FileMetadata,
                  content: seq<bv8>, streamFails: bool) returns (id: Option<nat>)
      requires db.Valid()
      modifies db
      ensures db.Valid()
      ensures id.None? <==> streamFails
      ensures streamFails ==> db.files == old(db.files)
      ensures id.Some? ==>
        && id.value !in old(db.files)
        && db.files == old(db.files)[id.value := StoredFile(filename, contentType, metadata, content)]
    {
      var newId := db.nextId;
      db.nextId := db.nextId + 1;
      if streamFails {
        id := None;
      } else {
        db.files := db.files[newId := StoredFile(filename, contentType, metadata, content)];
        id := Some(newId);
      }
    }
  }

  /** The module-level `bucket` variable and the two functions that fill it. */
  class GridFSCache {
    var bucket: Bucket?

    /** A cached bucket is a handle named "uploads" on a well-formed database. */
    ghost predicate Valid()
      reads this, if bucket != null then {bucket.db} else {}
    {
      bucket != null ==> bucket.bucketName == BucketName && bucket.db.Valid()
    }

    /** `let bucket;` at module load. */
    constructor ()
      ensures Valid() && bucket == null
    {
      bucket := null;
    }

    /** initGridFS: with no database, or when the bucket constructor throws,
        returns null and leaves the cache as it was (so a later call retries);
        otherwise caches a new handle named "uploads" on the connection's
        database and returns it, replacing whatever was cached. The database,
        and the files already in it, are left as they are. */
    method InitGridFS(conn: Connection) returns (r: Bucket?)
      requires Valid()
      requires conn.db != null ==> conn.db.Valid()
      modifies this
      ensures Valid()
      ensures conn.db == null || conn.bucketConstructorThrows ==> r == null && bucket == old(bucket)
      ensures conn.db != null && !conn.bucketConstructorThrows ==>
        r != null && fresh(r) && bucket == r && r.bucketName == BucketName && r.db == conn.db
      ensures conn.db != null ==> unchanged(conn.db)
    {
      if conn.db == null {
        return null;
      }
      if conn.bucketConstructorThrows {
        return null;
      }
      bucket := new Bucket(BucketName, conn.db);
      r := bucket;
    }

    /** getGridFSBucket: the cached bucket if there is one, untouched;
        otherwise whatever initGridFS returns. */
    method GetGridFSBucket(conn: Connection) returns (r: Bucket?)
      requires Valid()
      requires conn.db != null ==> conn.db.Valid()
      modifies this
      ensures Valid()
      ensures old(bucket) != null ==> r == old(bucket) && bucket == old(bucket)
      ensures old(bucket) == null && (conn.db == null || conn.bucketConstructorThrows) ==> r == null && bucket == null
      ensures old(bucket) == null && conn.db != null && !conn.bucketConstructorThrows ==>
        r != null && fresh(r) && bucket == r && r.bucketName == BucketName && r.db == conn.db
      ensures r != null ==> r == bucket
      ensures conn.db != null ==> unchanged(conn.db)
    {
      if bucket == null {
        r := InitGridFS(conn);
        return;
      }
      r := bucket;
    }
  }
}
