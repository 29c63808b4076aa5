/** The object-storage service as the menu tool sees it.

    The tool talks to the service through five SDK calls (listBuckets,
    listObjectsV2, listObjectVersions, deleteObjects, deleteBucket). None of
    them is modelled: an `Adapter` value says, for one step of the tool, what
    each call would answer, and the operations of the other modules return
    the sequence of `Call`s they issued. */
module Storage {

  datatype Option<+T> = None | Some(value: T)

  /** Why a call to the service, or the tool's own code around it, threw. */
  datatype Error =
    | ServiceError(message: string)   // the SDK call itself rejected
    | DirNotDefined                   // the ReferenceError raised by the stray `dir` argument

  datatype Result<+T> = Ok(value: T) | Err(error: Error)

  /** One version (or one delete marker) of an object in a versioned bucket. */
  datatype ObjectVersion = ObjectVersion(key: string, versionId: string)

  /** The first page answered by listObjectsV2: its keys and IsTruncated. */
  datatype ObjectsPage = ObjectsPage(keys: seq<string>, truncated: bool)

  /** The first page answered by listObjectVersions. */
  datatype VersionsPage =
    VersionsPage(versions: seq<ObjectVersion>, deleteMarkers: seq<ObjectVersion>, truncated: bool)

  /** One entry of a deleteObjects request: `{ Key }` or `{ Key, VersionId }`. */
  datatype ObjectId = ObjectId(key: string, versionId: Option<string>)

  /** The page size the versioned listing asks for (MaxKeys). */
  const VersionsPageSize: nat := 1000

  /** A call the tool makes to the service, in the order it makes them. */
  datatype Call =
    | ListBuckets
    | ListObjects(bucket: string)
    | ListObjectVersions(bucket: string, maxKeys: nat)
    | DeleteObjects(bucket: string, objects: seq<ObjectId>)
    | DeleteBucket(bucket: string)

  /** What the service answers to each call during one step of the tool.
      A deletion answers `None` when it succeeded and the error otherwise. */
  datatype Adapter = Adapter(
    listBuckets: Result<seq<string>>,
    listObjects: string -> Result<ObjectsPage>,
    listObjectVersions: string -> Result<VersionsPage>,
    deleteObjects: (string, seq<ObjectId>) -> Option<Error>,
    deleteBucket: string -> Option<Error>)
}
