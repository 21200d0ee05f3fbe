/**
 * The backing object store, reduced to what the storage layer relies on: a
 * map from (bucket, key) to what is stored there, the head/get/put/delete
 * calls on one address and a listing call that returns one page of keys.
 * Transport failures are given as fault maps: a call addressed to a faulty
 * address (or a listing of a faulty bucket) fails with the recorded error.
 */
module ObjectStore {
  import opened Wrappers

  /** One octet of an object body. */
  type Byte = b: int | 0 <= b < 0x100

  /** User metadata: lower-case names to values. */
  type Metadata = map<string, string>

  datatype Address = Address(bucket: string, key: string)

  /** What is stored at one address; as in a store response, every part may be missing. */
  datatype StoredObject = StoredObject(contentType: Option<string>, metadata: Option<Metadata>, body: Option<seq<Byte>>)

  /** A failure as the client library reports it, identified by its name. */
  datatype StoreError = StoreError(name: string)

  /** What a head probe of a missing object fails with. */
  const NotFound: StoreError := StoreError("NotFound")
  /** What a get of a missing object fails with. */
  const NoSuchKey: StoreError := StoreError("NoSuchKey")

  datatype HeadOutput = HeadOutput(contentType: Option<string>, metadata: Option<Metadata>)
  datatype GetOutput = GetOutput(contentType: Option<string>, metadata: Option<Metadata>, body: Option<seq<Byte>>)

  /** A listing request: a bucket, optionally narrowed to the keys under a prefix. */
  datatype ListRequest = ListRequest(bucket: string, prefix: Option<string>)

  /** A call issued to the store, as recorded in its log. */
  datatype Call =
    | HeadCall(at: Address)
    | GetCall(at: Address)
    | PutCall(at: Address, obj: StoredObject)
    | DeleteCall(at: Address)
    | ListCall(request: ListRequest, result: Result<seq<string>, StoreError>)

  /** The most keys one listing page holds. */
  const MaxKeys: nat := 1000

  type Objects = map<Address, StoredObject>
  type Faults = map<Address, StoreError>

  function HeadResult(objects: Objects, faults: Faults, at: Address): Result<HeadOutput, StoreError> {
    if at in faults then Err(faults[at])
    else if at !in objects then Err(NotFound)
    else Ok(HeadOutput(objects[at].contentType, objects[at].metadata))
  }

  function GetResult(objects: Objects, faults: Faults, at: Address): Result<GetOutput, StoreError> {
    if at in faults then Err(faults[at])
    else if at !in objects then Err(NoSuchKey)
    else Ok(GetOutput(objects[at].contentType, objects[at].metadata, objects[at].body))
  }

  predicate InScope(at: Address, req: ListRequest) {
    at.bucket == req.bucket && (req.prefix.Some? ==> req.prefix.value <= at.key)
  }

  /** The stored addresses a listing request covers. */
  function ScopeOf(objects: Objects, req: ListRequest): set<Address> {
    set at | at in objects && InScope(at, req)
  }

  function Min(a: nat, b: nat): nat {
    if a <= b then a else b
  }

  /**
   * A valid listing page: distinct keys of stored objects in scope, as many
   * as the scope holds up to MaxKeys; so it is empty only for an empty scope.
   */
  predicate IsPage(page: seq<string>, objects: Objects, req: ListRequest) {
    && (forall i :: 0 <= i < |page| ==> Address(req.bucket, page[i]) in ScopeOf(objects, req))
    && (forall i, j :: 0 <= i < j < |page| ==> page[i] != page[j])
    && |page| == Min(|ScopeOf(objects, req)|, MaxKeys)
  }

  class Store {
    var objects: Objects
    /** Object calls addressed to these addresses fail with the error given. */
    var faults: Faults
    /** Listings of these buckets fail with the error given. */
    var listFaults: map<string, StoreError>
    /** Every call issued to the store, in order. */
    ghost var log: seq<Call>

    constructor (faults: Faults, listFaults: map<string, StoreError>)
      ensures objects == map[] && this.faults == faults && this.listFaults == listFaults
      ensures log == []
    {
      objects := map[];
      this.faults := faults;
      this.listFaults := listFaults;
      log := [];
    }

    /** A metadata-only probe: fails with NotFound for a missing object. */
    method Head(at: Address) returns (r: Result<HeadOutput, StoreError>)
      modifies this`log
      ensures r == HeadResult(objects, faults, at)
      ensures r.Ok? <==> at !in faults && at in objects
      ensures log == old(log) + [HeadCall(at)]
    {
      log := log + [HeadCall(at)];
      r := HeadResult(objects, faults, at);
    }

    /** A full read: fails with NoSuchKey for a missing object. */
    method Get(at: Address) returns (r: Result<GetOutput, StoreError>)
      modifies this`log
      ensures r == GetResult(objects, faults, at)
      ensures r.Ok? <==> at !in faults && at in objects
      ensures log == old(log) + [GetCall(at)]
    {
      log := log + [GetCall(at)];
      r := GetResult(objects, faults, at);
    }

    /** Overwrites whatever is stored at `at`. */
    method Put(at: Address, obj: StoredObject) returns (r: Outcome<StoreError>)
      modifies this`objects, this`log
      ensures r == if at in faults then Fail(faults[at]) else Pass
      ensures objects == if r.Pass? then old(objects)[at := obj] else old(objects)
      ensures log == old(log) + [PutCall(at, obj)]
    {
      log := log + [PutCall(at, obj)];
      if at in faults {
        r := Fail(faults[at]);
      } else {
        objects := objects[at := obj];
        r := Pass;
      }
    }

    /** Removes the object at `at`; removing a missing object succeeds and changes nothing. */
    method Delete(at: Address) returns (r: Outcome<StoreError>)
      modifies this`objects, this`log
      ensures r == if at in faults then Fail(faults[at]) else Pass
      ensures objects == if r.Pass? then old(objects) - {at} else old(objects)
      ensures at !in old(objects) ==> objects == old(objects)
      ensures log == old(log) + [DeleteCall(at)]
    {
      log := log + [DeleteCall(at)];
      if at in faults {
        r := Fail(faults[at]);
      } else {
        objects := objects - {at};
        r := Pass;
      }
    }

    /**
     * One page of the keys in scope. Which keys, and in what order, is the
     * store's choice; continuation tokens are not modelled, so repeating a
     * request repeats the listing from the start.
     */
    method List(req: ListRequest) returns (r: Result<seq<string>, StoreError>)
      modifies this`log
      ensures r.Err? <==> req.bucket in listFaults
      ensures r.Err? ==> r.error == listFaults[req.bucket]
      ensures r.Ok? ==> IsPage(r.value, objects, req)
      ensures log == old(log) + [ListCall(req, r)]
    {
      if req.bucket in listFaults {
        r := Err(listFaults[req.bucket]);
        log := log + [ListCall(req, r)];
        return;
      }
      var scope := ScopeOf(objects, req);
      var remaining := scope;
      var page: seq<string> := [];
      while |page| < MaxKeys && remaining != {}
        invariant remaining <= scope
        invariant forall i :: 0 <= i < |page| ==> Address(req.bucket, page[i]) in scope - remaining
        invariant forall i, j :: 0 <= i < j < |page| ==> page[i] != page[j]
        invariant |page| + |remaining| == |scope|
        invariant |page| <= MaxKeys
        decreases |remaining|
      {
        var at :| at in remaining;
        page := page + [at.key];
        remaining := remaining - {at};
      }
      r := Ok(page);
      log := log + [ListCall(req, r)];
    }
  }
}
