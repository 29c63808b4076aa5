/** The in-memory bucket inventory: how it is loaded from the service
    (`readBuckets` and `countFiles`), how a bucket is looked up by id
    (`buckets.find`) and how a deleted one is dropped (`buckets.filter`). */
module Inventory {
  import opened Storage

  /** One menu entry. `numFiles` is the size of the bucket's first listing
      page, or -1 when that listing failed. */
  datatype Bucket = Bucket(id: int, name: string, numFiles: int)

  /** Buckets whose name contains this marker are never offered. */
  const ExclusionMarker: string := "do-not-delete"

  /** `s.includes(part)`. */
  predicate Includes(s: string, part: string)
    decreases |s|
  {
    |part| <= |s| && (s[..|part|] == part || Includes(s[1..], part))
  }

  predicate Excluded(name: string)
  {
    Includes(name, ExclusionMarker)
  }

  /** The enumerated names that are offered, in enumeration order. */
  function Kept(names: seq<string>): seq<string>
  {
    if names == [] then []
    else
      var name := names[|names| - 1];
      Kept(names[..|names| - 1]) + (if Excluded(name) then [] else [name])
  }

  /** `countFiles`: the number of keys on the first listing page, or -1 when
      the listing threw. */
  function CountFiles(listing: Result<ObjectsPage>): (n: int)
    ensures n >= -1
    ensures n == -1 <==> listing.Err?
  {
    match listing
    case Ok(page) => |page.keys|
    case Err(_) => -1
  }

  /** The inventory `readBuckets` builds from the enumerated names: the kept
      names, numbered from 1 in order, each with its count. */
  function Inventory(names: seq<string>, listObjects: string -> Result<ObjectsPage>): seq<Bucket>
  {
    if names == [] then []
    else
      var earlier := Inventory(names[..|names| - 1], listObjects);
      var name := names[|names| - 1];
      if Excluded(name) then earlier
      else earlier + [Bucket(|earlier| + 1, name, CountFiles(listObjects(name)))]
  }

  /** The listing calls `countFiles` makes, one per kept name. */
  function CountCalls(kept: seq<string>): (calls: seq<Call>)
  {
    seq(|kept|, i requires 0 <= i < |kept| => ListObjects(kept[i]))
  }

  /** Ids increase strictly along the inventory; in particular no two
      entries share an id. */
  ghost predicate IdsAscending(buckets: seq<Bucket>)
  {
    forall i, j | 0 <= i < j < |buckets| :: buckets[i].id < buckets[j].id
  }

  /** `readBuckets`: enumerate the buckets, then count the objects of every
      one whose name does not carry the exclusion marker. A failed
      enumeration propagates; a failed count is recorded as -1. */
  method ReadBuckets(adapter: Adapter) returns (result: Result<seq<Bucket>>, calls: seq<Call>)
    ensures match adapter.listBuckets
      case Err(e) => result == Err(e) && calls == [ListBuckets]
      case Ok(names) =>
        result == Ok(Inventory(names, adapter.listObjects)) &&
        calls == [ListBuckets] + CountCalls(Kept(names))
  {
    calls := [ListBuckets];
    match adapter.listBuckets {
      case Err(e) =>
        result := Err(e);
      case Ok(names) =>
        var buckets: seq<Bucket> := [];
        var bucketId := 0;
        for i := 0 to |names|
          invariant buckets == Inventory(names[..i], adapter.listObjects)
          invariant bucketId == |buckets|
          invariant calls == [ListBuckets] + CountCalls(Kept(names[..i]))
        {
          var name := names[i];
          assert names[..i + 1][..i] == names[..i];
          if !Excluded(name) {
            bucketId := bucketId + 1;
            var numFiles := CountFiles(adapter.listObjects(name));
            calls := calls + [ListObjects(name)];
            buckets := buckets + [Bucket(bucketId, name, numFiles)];
          }
        }
        assert names[..|names|] == names;
        result := Ok(buckets);
    }
  }

  /** A name is offered exactly when it was enumerated and does not carry
      the exclusion marker. */
  lemma {:induction false} KeptMembers(names: seq<string>, x: string)
    ensures x in Kept(names) <==> x in names && !Excluded(x)
  {
    if names != [] {
      var init := names[..|names| - 1];
      KeptMembers(init, x);
      assert names == init + [names[|names| - 1]];
    }
  }

  /** Filtering commutes with concatenation, so enumeration order is kept. */
  lemma {:induction false} KeptConcat(a: seq<string>, b: seq<string>)
    ensures Kept(a + b) == Kept(a) + Kept(b)
    decreases |b|
  {
    if b == [] {
      assert a + b == a;
    } else {
      var init := b[..|b| - 1];
      assert (a + b)[..|a + b| - 1] == a + init;
      KeptConcat(a, init);
    }
  }

  /** The inventory holds the kept names in order, numbered 1..n without
      gaps, each with the count its listing gave. */
  lemma {:induction false} InventoryNumbering(names: seq<string>, listObjects: string -> Result<ObjectsPage>)
    ensures |Inventory(names, listObjects)| == |Kept(names)|
    ensures forall i | 0 <= i < |Kept(names)| ::
      Inventory(names, listObjects)[i] ==
        Bucket(i + 1, Kept(names)[i], CountFiles(listObjects(Kept(names)[i])))
  {
    if names != [] {
      InventoryNumbering(names[..|names| - 1], listObjects);
    }
  }

  /** A freshly read inventory has ascending positive ids, counts of at
      least -1, and no name that carries the exclusion marker. */
  lemma InventoryAscending(names: seq<string>, listObjects: string -> Result<ObjectsPage>)
    ensures IdsAscending(Inventory(names, listObjects))
    ensures forall b | b in Inventory(names, listObjects) ::
      b.id >= 1 && b.numFiles >= -1 && !Excluded(b.name)
  {
    var inventory := Inventory(names, listObjects);
    InventoryNumbering(names, listObjects);
    forall b | b in inventory ensures b.id >= 1 && b.numFiles >= -1 && !Excluded(b.name) {
      var i :| 0 <= i < |inventory| && inventory[i] == b;
      KeptMembers(names, Kept(names)[i]);
    }
  }

  /** `buckets.find(b => b.id == target)`: the first entry with that id, or
      nothing when there is none or the target is NaN. */
  function FindIndex(buckets: seq<Bucket>, target: Option<int>): (r: Option<nat>)
    ensures r.Some? ==>
      target.Some? && r.value < |buckets| && buckets[r.value].id == target.value &&
      forall j | 0 <= j < r.value :: buckets[j].id != target.value
    ensures r.None? ==>
      target.None? || forall j | 0 <= j < |buckets| :: buckets[j].id != target.value
  {
    if target.None? || buckets == [] then None
    else if buckets[0].id == target.value then Some(0)
    else match FindIndex(buckets[1..], target)
      case None => None
      case Some(k) => Some(k + 1)
  }

  /** `buckets.filter(r => r.id != id)`. */
  function RemoveId(buckets: seq<Bucket>, id: int): (r: seq<Bucket>)
    ensures |r| <= |buckets|
  {
    if buckets == [] then []
    else (if buckets[0].id != id then [buckets[0]] else []) + RemoveId(buckets[1..], id)
  }

  /** The filter keeps exactly the entries whose id differs. */
  lemma {:induction false} RemoveIdMembers(buckets: seq<Bucket>, id: int, b: Bucket)
    ensures b in RemoveId(buckets, id) <==> b in buckets && b.id != id
  {
    if buckets != [] {
      RemoveIdMembers(buckets[1..], id, b);
      assert buckets == [buckets[0]] + buckets[1..];
    }
  }

  lemma {:induction false} RemoveAbsentId(buckets: seq<Bucket>, id: int)
    requires forall b | b in buckets :: b.id != id
    ensures RemoveId(buckets, id) == buckets
  {
    if buckets != [] {
      RemoveAbsentId(buckets[1..], id);
      assert buckets == [buckets[0]] + buckets[1..];
    }
  }

  /** Past the first entry, ids are still ascending and all larger than the
      first one. */
  lemma TailAscending(buckets: seq<Bucket>)
    requires IdsAscending(buckets) && buckets != []
    ensures IdsAscending(buckets[1..])
    ensures forall b | b in buckets[1..] :: buckets[0].id < b.id
  {
    var tail := buckets[1..];
    forall p, q | 0 <= p < q < |tail| ensures tail[p].id < tail[q].id {
      assert tail[p] == buckets[p + 1] && tail[q] == buckets[q + 1];
    }
    forall b | b in tail ensures buckets[0].id < b.id {
      var k :| 0 <= k < |tail| && tail[k] == b;
      assert tail[k] == buckets[k + 1];
    }
  }

  lemma SpliceCons(s: seq<Bucket>, i: nat)
    requires 0 < i < |s|
    ensures [s[0]] + (s[1..][..i - 1] + s[1..][i..]) == s[..i] + s[i + 1..]
  {
    assert s[..i] == [s[0]] + s[1..][..i - 1];
    assert s[i + 1..] == s[1..][i..];
  }

  /** With ascending ids, filtering out the id of entry `i` drops exactly that
      entry: the others keep their order and their ids. */
  lemma {:induction false} RemoveIdAt(buckets: seq<Bucket>, i: nat)
    requires IdsAscending(buckets) && i < |buckets|
    ensures RemoveId(buckets, buckets[i].id) == buckets[..i] + buckets[i + 1..]
  {
    var id := buckets[i].id;
    var tail := buckets[1..];
    TailAscending(buckets);
    if i == 0 {
      RemoveAbsentId(tail, id);
      assert buckets[..0] + buckets[1..] == tail;
    } else {
      assert RemoveId(buckets, id) == [buckets[0]] + RemoveId(tail, id) by {
        assert buckets[0].id < id;
      }
      assert tail[i - 1] == buckets[i];
      RemoveIdAt(tail, i - 1);
      SpliceCons(buckets, i);
    }
  }

  /** Dropping one entry keeps the ids ascending. */
  lemma RemoveAtAscending(buckets: seq<Bucket>, i: nat)
    requires IdsAscending(buckets) && i < |buckets|
    ensures IdsAscending(buckets[..i] + buckets[i + 1..])
  {
    var r := buckets[..i] + buckets[i + 1..];
    forall p, q | 0 <= p < q < |r| ensures r[p].id < r[q].id {
      var p' := if p < i then p else p + 1;
      var q' := if q < i then q else q + 1;
      assert r[p] == buckets[p'] && r[q] == buckets[q'];
    }
  }
}
