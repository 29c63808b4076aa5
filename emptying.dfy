/** Emptying a bucket: `emptyS3Directory` deletes the keys of the first
    listing page, `emptyS3DirectoryVersions` the versions and delete markers
    of the first version listing. Each one, when its page was truncated,
    recurses with an argument `dir` that is declared nowhere, so it throws a
    ReferenceError after the first page has been deleted. */
module Emptying {
  import opened Storage

  /** What one emptying function did: the calls it made, in order, and the
      error it threw, if any. */
  datatype Effect = Effect(calls: seq<Call>, error: Option<Error>)

  /** The deleteObjects entries for a page of keys: `{ Key }` each. */
  function Unversioned(keys: seq<string>): (objects: seq<ObjectId>)
    ensures |objects| == |keys|
    ensures forall i | 0 <= i < |keys| :: objects[i] == ObjectId(keys[i], None)
  {
    if keys == [] then []
    else Unversioned(keys[..|keys| - 1]) + [ObjectId(keys[|keys| - 1], None)]
  }

  /** The deleteObjects entries for versions: `{ Key, VersionId }` each. */
  function Identified(versions: seq<ObjectVersion>): (objects: seq<ObjectId>)
    ensures |objects| == |versions|
  {
    if versions == [] then []
    else
      var last := versions[|versions| - 1];
      Identified(versions[..|versions| - 1]) + [ObjectId(last.key, Some(last.versionId))]
  }

  /** One `{ Key, VersionId }` entry per version, in order. */
  lemma {:induction false} IdentifiedEntries(versions: seq<ObjectVersion>)
    ensures forall i | 0 <= i < |versions| ::
      Identified(versions)[i] == ObjectId(versions[i].key, Some(versions[i].versionId))
  {
    if versions != [] {
      var init := versions[..|versions| - 1];
      IdentifiedEntries(init);
      forall i | 0 <= i < |init| ensures Identified(versions)[i] == Identified(init)[i] { }
    }
  }

  /** The versioned request: every version, then every delete marker. */
  function Versioned(page: VersionsPage): (objects: seq<ObjectId>)
    ensures |objects| == |page.versions| + |page.deleteMarkers|
    ensures forall i | 0 <= i < |page.versions| ::
      objects[i] == ObjectId(page.versions[i].key, Some(page.versions[i].versionId))
    ensures forall j | 0 <= j < |page.deleteMarkers| ::
      objects[|page.versions| + j] ==
        ObjectId(page.deleteMarkers[j].key, Some(page.deleteMarkers[j].versionId))
  {
    IdentifiedEntries(page.versions);
    IdentifiedEntries(page.deleteMarkers);
    Identified(page.versions) + Identified(page.deleteMarkers)
  }

  /** Every call of an emptying run addresses `bucket`, and none deletes a
      bucket. */
  ghost predicate Confined(calls: seq<Call>, bucket: string)
  {
    forall k | 0 <= k < |calls| :: !calls[k].ListBuckets? && !calls[k].DeleteBucket? && calls[k].bucket == bucket
  }

  /** What `emptyS3Directory` does, given the service's answers. */
  function EmptyDirectory(bucket: string, adapter: Adapter): (e: Effect)
    ensures 1 <= |e.calls| <= 2 && e.calls[0] == ListObjects(bucket)
    ensures Confined(e.calls, bucket)
    ensures |e.calls| == 2 <==>
      adapter.listObjects(bucket).Ok? && |adapter.listObjects(bucket).value.keys| > 0
    ensures |e.calls| == 2 ==>
      var keys := adapter.listObjects(bucket).value.keys;
      e.calls[1].DeleteObjects? && |e.calls[1].objects| == |keys| &&
      forall i | 0 <= i < |keys| :: e.calls[1].objects[i] == ObjectId(keys[i], None)
    ensures e.error.None? <==>
      adapter.listObjects(bucket).Ok? &&
      (|e.calls| == 1 ||
       (adapter.deleteObjects(bucket, e.calls[1].objects).None? &&
        !adapter.listObjects(bucket).value.truncated))
  {
    match adapter.listObjects(bucket)
    case Err(err) => Effect([ListObjects(bucket)], Some(err))
    case Ok(page) =>
      if |page.keys| == 0 then Effect([ListObjects(bucket)], None)
      else
        var objects := Unversioned(page.keys);
        var calls := [ListObjects(bucket), DeleteObjects(bucket, objects)];
        match adapter.deleteObjects(bucket, objects)
        case Some(err) => Effect(calls, Some(err))
        case None => Effect(calls, if page.truncated then Some(DirNotDefined) else None)
  }

  /** What `emptyS3DirectoryVersions` does, given the service's answers. */
  function EmptyVersions(bucket: string, adapter: Adapter): (e: Effect)
    ensures 1 <= |e.calls| <= 2 && e.calls[0] == ListObjectVersions(bucket, VersionsPageSize)
    ensures Confined(e.calls, bucket)
    ensures |e.calls| == 2 <==>
      adapter.listObjectVersions(bucket).Ok? &&
      |adapter.listObjectVersions(bucket).value.versions| +
      |adapter.listObjectVersions(bucket).value.deleteMarkers| > 0
    ensures |e.calls| == 2 ==>
      e.calls[1] == DeleteObjects(bucket, Versioned(adapter.listObjectVersions(bucket).value))
    ensures e.error.None? <==>
      adapter.listObjectVersions(bucket).Ok? &&
      (|e.calls| == 1 ||
       (adapter.deleteObjects(bucket, e.calls[1].objects).None? &&
        !adapter.listObjectVersions(bucket).value.truncated))
  {
    var listing := ListObjectVersions(bucket, VersionsPageSize);
    match adapter.listObjectVersions(bucket)
    case Err(err) => Effect([listing], Some(err))
    case Ok(page) =>
      if |page.versions| + |page.deleteMarkers| == 0 then Effect([listing], None)
      else
        var objects := Versioned(page);
        var calls := [listing, DeleteObjects(bucket, objects)];
        match adapter.deleteObjects(bucket, objects)
        case Some(err) => Effect(calls, Some(err))
        case None => Effect(calls, if page.truncated then Some(DirNotDefined) else None)
  }

  /** The two awaited calls of the "empty" command: the versions are only
      emptied when emptying the current keys threw nothing. */
  function EmptyBucket(bucket: string, adapter: Adapter): (e: Effect)
    ensures |e.calls| >= 1 && e.calls[0] == ListObjects(bucket)
    ensures Confined(e.calls, bucket)
    ensures e.error.None? <==>
      EmptyDirectory(bucket, adapter).error.None? && EmptyVersions(bucket, adapter).error.None?
  {
    var first := EmptyDirectory(bucket, adapter);
    if first.error.Some? then first
    else
      var second := EmptyVersions(bucket, adapter);
      Effect(first.calls + second.calls, second.error)
  }

  /** `emptyS3Directory`, whose `forEach` pushes one entry per key. */
  method EmptyS3Directory(bucket: string, adapter: Adapter) returns (effect: Effect)
    ensures effect == EmptyDirectory(bucket, adapter)
  {
    var listed := adapter.listObjects(bucket);
    if listed.Err? {
      return Effect([ListObjects(bucket)], Some(listed.error));
    }
    var keys := listed.value.keys;
    if |keys| == 0 {
      return Effect([ListObjects(bucket)], None);
    }
    var objects: seq<ObjectId> := [];
    for i := 0 to |keys|
      invariant objects == Unversioned(keys[..i])
    {
      assert keys[..i + 1][..i] == keys[..i];
      objects := objects + [ObjectId(keys[i], None)];
    }
    assert keys[..|keys|] == keys;
    var calls := [ListObjects(bucket), DeleteObjects(bucket, objects)];
    var deleted := adapter.deleteObjects(bucket, objects);
    if deleted.Some? {
      effect := Effect(calls, deleted);
    } else if listed.value.truncated {
      effect := Effect(calls, Some(DirNotDefined));
    } else {
      effect := Effect(calls, None);
    }
  }

  /** `emptyS3DirectoryVersions`, whose two `for` loops push the versions and
      then the delete markers. */
  method EmptyS3DirectoryVersions(bucket: string, adapter: Adapter) returns (effect: Effect)
    ensures effect == EmptyVersions(bucket, adapter)
  {
    var listing := ListObjectVersions(bucket, VersionsPageSize);
    var listed := adapter.listObjectVersions(bucket);
    if listed.Err? {
      return Effect([listing], Some(listed.error));
    }
    var versions := listed.value.versions;
    var markers := listed.value.deleteMarkers;
    if |versions| + |markers| == 0 {
      return Effect([listing], None);
    }
    var objects: seq<ObjectId> := [];
    for i := 0 to |versions|
      invariant objects == Identified(versions[..i])
    {
      assert versions[..i + 1][..i] == versions[..i];
      objects := objects + [ObjectId(versions[i].key, Some(versions[i].versionId))];
    }
    assert versions[..|versions|] == versions;
    for i := 0 to |markers|
      invariant objects == Identified(versions) + Identified(markers[..i])
    {
      assert markers[..i + 1][..i] == markers[..i];
      objects := objects + [ObjectId(markers[i].key, Some(markers[i].versionId))];
    }
    assert markers[..|markers|] == markers;
    var calls := [listing, DeleteObjects(bucket, objects)];
    var deleted := adapter.deleteObjects(bucket, objects);
    if deleted.Some? {
      effect := Effect(calls, deleted);
    } else if listed.value.truncated {
      effect := Effect(calls, Some(DirNotDefined));
    } else {
      effect := Effect(calls, None);
    }
  }
}
