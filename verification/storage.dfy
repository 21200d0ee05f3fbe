/**
 * The typed storage layer: every operation encodes the domain key with the
 * key converter, addresses the backing store at (bucket, encoded key) and
 * interprets the store's answer.
 */
module Storage {
  import opened Wrappers
  import opened ObjectStore

  /** An object's content type and metadata: everything but its bytes. */
  datatype S3ObjectInfo = S3ObjectInfo(contentType: string, metadata: Option<Metadata>)

  /** A whole object, as written by putObject and returned by getObject. */
  datatype S3Object = S3Object(contentType: string, metadata: Option<Metadata>, data: seq<Byte>)

  /** Raised by a converter's decoding direction for a key outside its encoding. */
  datatype KeyError = InvalidKey(s3Key: string)

  /** The bidirectional mapping between domain keys and store keys. */
  datatype KeyConverter<!T> = KeyConverter(toS3: T -> string, fromS3: string -> Result<T, KeyError>)

  /** An ECMAScript-falsy content type: absent or the empty string. */
  predicate IsFalsy(contentType: Option<string>) {
    contentType.None? || contentType.value == ""
  }

  /** What is stored when an object is put. */
  function Stored(obj: S3Object): StoredObject {
    StoredObject(Some(obj.contentType), obj.metadata, Some(obj.data))
  }

  /** The map left after removing every object a listing request covers. */
  function Outside(objects: Objects, req: ListRequest): (r: Objects)
    ensures forall at :: at in r <==> at in objects && !InScope(at, req)
  {
    map at | at in objects && !InScope(at, req) :: objects[at]
  }

  /**
   * `after` is `before` with some objects in scope removed: nothing was
   * added or altered, and nothing outside the scope was removed.
   */
  ghost predicate ScopeShrunk(before: Objects, after: Objects, req: ListRequest) {
    && (forall at :: at in after ==> at in before && after[at] == before[at])
    && (forall at :: at in before && !InScope(at, req) ==> at in after)
  }

  /** The addresses of `keys` in `bucket`. */
  function AddressesOf(bucket: string, keys: seq<string>): set<Address> {
    set k | k in keys :: Address(bucket, k)
  }

  /** The single-key deletes of `keys` in `bucket`, in page order. */
  function Deletes(bucket: string, keys: seq<string>): (calls: seq<Call>)
    ensures |calls| == |keys|
    ensures forall i :: 0 <= i < |keys| ==> calls[i] == DeleteCall(Address(bucket, keys[i]))
  {
    if keys == [] then []
    else Deletes(bucket, keys[..|keys| - 1]) + [DeleteCall(Address(bucket, keys[|keys| - 1]))]
  }

  /** The calls of the delete passes over `pages`: each lists, then deletes the page it got. */
  function Passes(bucket: string, req: ListRequest, pages: seq<seq<string>>): seq<Call> {
    if pages == [] then []
    else Passes(bucket, req, pages[..|pages| - 1]) + [ListCall(req, Ok(pages[|pages| - 1]))] + Deletes(bucket, pages[|pages| - 1])
  }

  /** `exists`: a successful head means true, NotFound means false, any other failure is rethrown. */
  function ExistsFromHead(resp: Result<HeadOutput, StoreError>): (r: Result<bool, StoreError>)
    ensures r == Ok(true) <==> resp.Ok?
    ensures r == Ok(false) <==> resp.Err? && resp.error.name == NotFound.name
    ensures r.Err? <==> resp.Err? && resp.error.name != NotFound.name
    ensures r.Err? ==> r.error == resp.error
  {
    match resp
    case Ok(_) => Ok(true)
    case Err(e) => if e.name == NotFound.name then Ok(false) else Err(e)
  }

  /** `info`: absent for a falsy content type, else that content type and the metadata; failures propagate. */
  function InfoFromHead(resp: Result<HeadOutput, StoreError>): (r: Result<Option<S3ObjectInfo>, StoreError>)
    ensures resp.Err? <==> r.Err?
    ensures resp.Err? ==> r.error == resp.error
    ensures r == Ok(None) <==> resp.Ok? && IsFalsy(resp.value.contentType)
    ensures r.Ok? && r.value.Some? ==>
              && resp.value.contentType == Some(r.value.value.contentType)
              && r.value.value.contentType != ""
              && r.value.value.metadata == resp.value.metadata
  {
    match resp
    case Err(e) => Err(e)
    case Ok(h) =>
      if IsFalsy(h.contentType) then Ok(None)
      else Ok(Some(S3ObjectInfo(h.contentType.value, h.metadata)))
  }

  /**
   * `getObject`: absent for a falsy content type or a missing body, else the
   * content type, metadata and bytes; failures propagate.
   */
  function ObjectFromGet(resp: Result<GetOutput, StoreError>): (r: Result<Option<S3Object>, StoreError>)
    ensures resp.Err? <==> r.Err?
    ensures resp.Err? ==> r.error == resp.error
    ensures r == Ok(None) <==> resp.Ok? && (IsFalsy(resp.value.contentType) || resp.value.body.None?)
    ensures r.Ok? && r.value.Some? ==>
              && resp.value.contentType == Some(r.value.value.contentType)
              && r.value.value.contentType != ""
              && r.value.value.metadata == resp.value.metadata
              && resp.value.body == Some(r.value.value.data)
  {
    match resp
    case Err(e) => Err(e)
    case Ok(g) =>
      if IsFalsy(g.contentType) || g.body.None? then Ok(None)
      else Ok(Some(S3Object(g.contentType.value, g.metadata, g.body.value)))
  }

  class Storage<TKey> {
    const store: Store
    const bucket: string
    const keyConverter: KeyConverter<TKey>

    constructor (store: Store, bucket: string, keyConverter: KeyConverter<TKey>)
      ensures this.store == store && this.bucket == bucket && this.keyConverter == keyConverter
    {
      this.store := store;
      this.bucket := bucket;
      this.keyConverter := keyConverter;
    }

    /** Where a domain key lives: this storage's bucket, at the encoded key. */
    function AddressOf(key: TKey): Address {
      Address(bucket, keyConverter.toS3(key))
    }

    /** `delete`: removes the object at the encoded key and nothing else. */
    method Delete(key: TKey) returns (r: Outcome<StoreError>)
      modifies store`objects, store`log
      ensures store.log == old(store.log) + [DeleteCall(AddressOf(key))]
      ensures r == if AddressOf(key) in store.faults then Fail(store.faults[AddressOf(key)]) else Pass
      ensures store.objects == if r.Pass? then old(store.objects) - {AddressOf(key)} else old(store.objects)
      ensures AddressOf(key) !in old(store.objects) ==> store.objects == old(store.objects)
    {
      r := store.Delete(AddressOf(key));
    }

    /** `exists`: a head probe at the encoded key, NotFound read as false. */
    method Exists(key: TKey) returns (r: Result<bool, StoreError>)
      modifies store`log
      ensures store.log == old(store.log) + [HeadCall(AddressOf(key))]
      ensures r == ExistsFromHead(HeadResult(store.objects, store.faults, AddressOf(key)))
    {
      var response := store.Head(AddressOf(key));
      r := ExistsFromHead(response);
    }

    /** `info`: a head probe at the encoded key, interpreted by InfoFromHead. */
    method Info(key: TKey) returns (r: Result<Option<S3ObjectInfo>, StoreError>)
      modifies store`log
      ensures store.log == old(store.log) + [HeadCall(AddressOf(key))]
      ensures r == InfoFromHead(HeadResult(store.objects, store.faults, AddressOf(key)))
    {
      var response := store.Head(AddressOf(key));
      r := InfoFromHead(response);
    }

    /** `getObject`: a full read at the encoded key, interpreted by ObjectFromGet. */
    method GetObject(key: TKey) returns (r: Result<Option<S3Object>, StoreError>)
      modifies store`log
      ensures store.log == old(store.log) + [GetCall(AddressOf(key))]
      ensures r == ObjectFromGet(GetResult(store.objects, store.faults, AddressOf(key)))
    {
      var response := store.Get(AddressOf(key));
      r := ObjectFromGet(response);
    }

    /** `putObject`: writes the bytes, content type and metadata at the encoded key. */
    method PutObject(key: TKey, data: S3Object) returns (r: Outcome<StoreError>)
      modifies store`objects, store`log
      ensures store.log == old(store.log) + [PutCall(AddressOf(key), Stored(data))]
      ensures r == if AddressOf(key) in store.faults then Fail(store.faults[AddressOf(key)]) else Pass
      ensures store.objects == if r.Pass? then old(store.objects)[AddressOf(key) := Stored(data)] else old(store.objects)
    {
      r := store.Put(AddressOf(key), Stored(data));
    }

    /** `deleteAll`: empties this storage's bucket and touches no other bucket. */
    method DeleteAll() returns (r: Outcome<StoreError>, ghost pages: seq<seq<string>>)
      modifies store`objects, store`log
      ensures ScopeFaultFree(old(store.objects), store.faults, store.listFaults, ListRequest(bucket, None)) ==> r.Pass?
      ensures r.Fail? ==> IsScopeFault(r.error, old(store.objects), store.faults, store.listFaults, ListRequest(bucket, None))
      ensures r.Pass? ==> forall at :: at in store.objects ==> at.bucket != bucket
      ensures r.Pass? ==> store.objects == Outside(old(store.objects), ListRequest(bucket, None))
      ensures ScopeShrunk(old(store.objects), store.objects, ListRequest(bucket, None))
    {
      r, pages := DeleteList(ListRequest(bucket, None));
    }

    /**
     * The inner loop of `deleteList`: one single-key delete per listed key, in
     * page order, in `listBucket`. `done` counts the deletes that succeeded;
     * the first failure stops the loop.
     */
    method DeletePage(listBucket: string, objIds: seq<string>) returns (r: Outcome<StoreError>, ghost done: nat)
      modifies store`objects, store`log
      ensures done <= |objIds|
      ensures store.objects == old(store.objects) - AddressesOf(listBucket, objIds[..done])
      ensures r.Pass? <==> done == |objIds|
      ensures r.Pass? ==> store.log == old(store.log) + Deletes(listBucket, objIds)
      ensures r.Fail? ==> done < |objIds| && Address(listBucket, objIds[done]) in store.faults
                          && r == Fail(store.faults[Address(listBucket, objIds[done])])
      ensures r.Fail? ==> store.log == old(store.log) + Deletes(listBucket, objIds[..done]) + [DeleteCall(Address(listBucket, objIds[done]))]
      ensures FaultFree(listBucket, objIds[..done], store.faults)
    {
      for i := 0 to |objIds|
        invariant store.objects == old(store.objects) - AddressesOf(listBucket, objIds[..i])
        invariant store.log == old(store.log) + Deletes(listBucket, objIds[..i])
        invariant FaultFree(listBucket, objIds[..i], store.faults)
      {
        PrefixStep(listBucket, objIds, i, store.faults);
        var deleted := store.Delete(Address(listBucket, objIds[i]));
        if deleted.Fail? {
          return deleted, i;
        }
      }
      assert objIds[..|objIds|] == objIds;
      return Pass, |objIds|;
    }

    /**
     * `deleteList`: list, delete every listed key one call at a time, and list
     * again until a listing comes back empty. A failed call ends the
     * operation with that failure, leaving the deletes done so far in place.
     * The deletes go to the listed bucket; the source sends them to the
     * storage's own bucket, which is the same for its only caller.
     */
    method DeleteList(listRequest: ListRequest) returns (r: Outcome<StoreError>, ghost pages: seq<seq<string>>)
      modifies store`objects, store`log
      ensures ScopeFaultFree(old(store.objects), store.faults, store.listFaults, listRequest) ==> r.Pass?
      ensures r.Fail? ==> IsScopeFault(r.error, old(store.objects), store.faults, store.listFaults, listRequest)
      ensures r.Pass? ==> ScopeOf(store.objects, listRequest) == {}
      ensures r.Pass? ==> store.objects == Outside(old(store.objects), listRequest)
      ensures ScopeShrunk(old(store.objects), store.objects, listRequest)
      ensures r.Pass? ==> store.log == old(store.log) + Passes(listRequest.bucket, listRequest, pages) + [ListCall(listRequest, Ok([]))]
      ensures r.Pass? ==> forall i :: 0 <= i < |pages| ==> pages[i] != []
      ensures r.Pass? ==> PagesInScope(pages, old(store.objects), listRequest)
    {
      var listBucket := listRequest.bucket;
      pages := [];
      var listed := store.List(listRequest);
      if listed.Err? {
        return Fail(listed.error), pages;
      }
      var objIds := listed.value;
      while objIds != []
        invariant listBucket !in store.listFaults
        invariant IsPage(objIds, store.objects, listRequest)
        invariant ScopeShrunk(old(store.objects), store.objects, listRequest)
        invariant store.log == old(store.log) + Passes(listBucket, listRequest, pages) + [ListCall(listRequest, Ok(objIds))]
        invariant forall i :: 0 <= i < |pages| ==> pages[i] != []
        invariant PagesInScope(pages, old(store.objects), listRequest)
        decreases |ScopeOf(store.objects, listRequest)|
      {
        ghost var before := store.objects;
        ghost var logBefore := store.log;
        assert PagesInScope(pages + [objIds], old(store.objects), listRequest) by {
          PageInOriginalScope(old(store.objects), store.objects, listRequest, pages, objIds);
        }
        ghost var done;
        var deleted;
        deleted, done := DeletePage(listBucket, objIds);
        assert ScopeShrunk(old(store.objects), store.objects, listRequest) by {
          PageDeleteShrinks(old(store.objects), before, store.objects, listRequest, objIds, done);
        }
        if deleted.Fail? {
          assert IsScopeFault(deleted.error, old(store.objects), store.faults, store.listFaults, listRequest) by {
            PageFaultInScope(old(store.objects), before, store.faults, store.listFaults, listRequest, objIds, done, deleted.error);
          }
          return deleted, pages;
        }
        assert |ScopeOf(store.objects, listRequest)| < |ScopeOf(before, listRequest)| by {
          assert objIds[..done] == objIds;
          ScopeShrinks(before, store.objects, listRequest, objIds);
        }
        ghost var logDeleted := store.log;
        listed := store.List(listRequest);
        // List faults are fixed per bucket and the first listing succeeded,
        // so a re-listing cannot fail.
        assert listed.Ok?;
        LogAfterPass(old(store.log), logBefore, logDeleted, store.log, listBucket, listRequest, pages, objIds, listed.value);
        pages := pages + [objIds];
        objIds := listed.value;
      }
      OutsideWhenScopeEmpty(old(store.objects), store.objects, listRequest);
      r := Pass;
    }
  }

  /** None of `keys` names a faulty address in `bucket`: every delete of them succeeds. */
  ghost predicate FaultFree(bucket: string, keys: seq<string>, faults: Faults) {
    forall j :: 0 <= j < |keys| ==> Address(bucket, keys[j]) !in faults
  }

  /** Every key of every page names an object that the original listing scope held. */
  ghost predicate PagesInScope(pages: seq<seq<string>>, objects: Objects, req: ListRequest) {
    forall i, j :: 0 <= i < |pages| && 0 <= j < |pages[i]| ==> Address(req.bucket, pages[i][j]) in ScopeOf(objects, req)
  }

  /** A page listed from a shrunk store extends pages of the original scope by one more such page. */
  lemma PageInOriginalScope(original: Objects, current: Objects, req: ListRequest, pages: seq<seq<string>>, page: seq<string>)
    requires ScopeShrunk(original, current, req)
    requires PagesInScope(pages, original, req)
    requires IsPage(page, current, req)
    ensures PagesInScope(pages + [page], original, req)
  {
    forall i, j | 0 <= i < |pages + [page]| && 0 <= j < |(pages + [page])[i]|
      ensures Address(req.bucket, (pages + [page])[i][j]) in ScopeOf(original, req)
    {
      if i == |pages| {
        assert Address(req.bucket, page[j]) in ScopeOf(current, req);
      }
    }
  }

  /** No call a bulk delete over `req` can make is faulty: neither the listing nor a delete in scope. */
  ghost predicate ScopeFaultFree(objects: Objects, faults: Faults, listFaults: map<string, StoreError>, req: ListRequest) {
    && req.bucket !in listFaults
    && forall at :: at in ScopeOf(objects, req) ==> at !in faults
  }

  /** `e` is the fault of the listing, or of a stored object in scope. */
  ghost predicate IsScopeFault(e: StoreError, objects: Objects, faults: Faults, listFaults: map<string, StoreError>, req: ListRequest) {
    || (req.bucket in listFaults && e == listFaults[req.bucket])
    || (exists at :: at in ScopeOf(objects, req) && at in faults && e == faults[at])
  }

  /** A delete that fails on a page key fails with the fault of an object in the original scope. */
  lemma PageFaultInScope(original: Objects, before: Objects, faults: Faults, listFaults: map<string, StoreError>,
                         req: ListRequest, page: seq<string>, done: nat, e: StoreError)
    requires ScopeShrunk(original, before, req)
    requires IsPage(page, before, req) && done < |page|
    requires Address(req.bucket, page[done]) in faults && e == faults[Address(req.bucket, page[done])]
    ensures IsScopeFault(e, original, faults, listFaults, req)
  {
    var at := Address(req.bucket, page[done]);
    assert at in ScopeOf(before, req);
    assert at in ScopeOf(original, req);
  }

  /** Extending a page prefix by one key extends its deletes, its addresses and its fault check by that key. */
  lemma PrefixStep(bucket: string, keys: seq<string>, i: nat, faults: Faults)
    requires i < |keys|
    ensures Deletes(bucket, keys[..i + 1]) == Deletes(bucket, keys[..i]) + [DeleteCall(Address(bucket, keys[i]))]
    ensures AddressesOf(bucket, keys[..i + 1]) == AddressesOf(bucket, keys[..i]) + {Address(bucket, keys[i])}
    ensures FaultFree(bucket, keys[..i + 1], faults) <==> FaultFree(bucket, keys[..i], faults) && Address(bucket, keys[i]) !in faults
  {
    assert keys[..i + 1] == keys[..i] + [keys[i]];
  }

  /** One more pass extends the trace by its listing and its deletes. */
  lemma PassesAppend(bucket: string, req: ListRequest, pages: seq<seq<string>>, page: seq<string>)
    ensures Passes(bucket, req, pages + [page]) == Passes(bucket, req, pages) + [ListCall(req, Ok(page))] + Deletes(bucket, page)
  {
    assert (pages + [page])[..|pages|] == pages;
  }

  /** The call log after one more pass: its deletes, then the next listing. */
  lemma LogAfterPass(log0: seq<Call>, logBefore: seq<Call>, logDeleted: seq<Call>, logListed: seq<Call>,
                     bucket: string, req: ListRequest, pages: seq<seq<string>>, page: seq<string>, next: seq<string>)
    requires logBefore == log0 + Passes(bucket, req, pages) + [ListCall(req, Ok(page))]
    requires logDeleted == logBefore + Deletes(bucket, page)
    requires logListed == logDeleted + [ListCall(req, Ok(next))]
    ensures logListed == log0 + Passes(bucket, req, pages + [page]) + [ListCall(req, Ok(next))]
  {
    PassesAppend(bucket, req, pages, page);
  }

  /** Removing in-scope addresses from a shrunk map leaves it shrunk. */
  lemma PageDeleteShrinks(original: Objects, before: Objects, after: Objects, req: ListRequest, page: seq<string>, done: nat)
    requires ScopeShrunk(original, before, req)
    requires IsPage(page, before, req) && done <= |page|
    requires after == before - AddressesOf(req.bucket, page[..done])
    ensures ScopeShrunk(original, after, req)
  {
    assert forall i :: 0 <= i < done ==> InScope(Address(req.bucket, page[..done][i]), req);
  }

  /** Deleting a non-empty page of in-scope keys makes the scope strictly smaller. */
  lemma ScopeShrinks(before: Objects, after: Objects, req: ListRequest, page: seq<string>)
    requires IsPage(page, before, req) && page != []
    requires after == before - AddressesOf(req.bucket, page)
    ensures |ScopeOf(after, req)| < |ScopeOf(before, req)|
  {
    var first := Address(req.bucket, page[0]);
    assert first in ScopeOf(before, req);
    assert ScopeOf(after, req) <= ScopeOf(before, req) - {first};
    SubsetCardinality(ScopeOf(after, req), ScopeOf(before, req) - {first});
  }

  lemma {:induction false} SubsetCardinality<T>(a: set<T>, b: set<T>)
    requires a <= b
    ensures |a| <= |b|
  {
    if a != {} {
      var x :| x in a;
      SubsetCardinality(a - {x}, b - {x});
    }
  }

  /** Once nothing in scope is left, a shrunk map is exactly what lies outside the scope. */
  lemma OutsideWhenScopeEmpty(before: Objects, after: Objects, req: ListRequest)
    requires ScopeShrunk(before, after, req)
    requires ScopeOf(after, req) == {}
    ensures after == Outside(before, req)
  {
    forall at | at in after
      ensures !InScope(at, req)
    {
      assert InScope(at, req) ==> at in ScopeOf(after, req);
    }
    assert after.Keys == Outside(before, req).Keys;
  }

  /** With no fault at the address, exists reports exactly whether an object is stored there. */
  lemma ExistsIffStored(objects: Objects, faults: Faults, at: Address)
    requires at !in faults
    ensures ExistsFromHead(HeadResult(objects, faults, at)) == Ok(at in objects)
  {
  }

  /**
   * After a successful put of an object with a non-empty content type,
   * exists is true and getObject and info give back exactly what was put.
   */
  lemma PutThenRead(objects: Objects, faults: Faults, at: Address, obj: S3Object)
    requires at !in faults && obj.contentType != ""
    ensures ExistsFromHead(HeadResult(objects[at := Stored(obj)], faults, at)) == Ok(true)
    ensures ObjectFromGet(GetResult(objects[at := Stored(obj)], faults, at)) == Ok(Some(obj))
    ensures InfoFromHead(HeadResult(objects[at := Stored(obj)], faults, at)) == Ok(Some(S3ObjectInfo(obj.contentType, obj.metadata)))
  {
  }

  /** A put with an empty content type is stored, but info and getObject then report it absent. */
  lemma PutEmptyContentType(objects: Objects, faults: Faults, at: Address, obj: S3Object)
    requires at !in faults && obj.contentType == ""
    ensures ExistsFromHead(HeadResult(objects[at := Stored(obj)], faults, at)) == Ok(true)
    ensures ObjectFromGet(GetResult(objects[at := Stored(obj)], faults, at)) == Ok(None)
    ensures InfoFromHead(HeadResult(objects[at := Stored(obj)], faults, at)) == Ok(None)
  {
  }

  /**
   * After a successful delete, exists is false; info and getObject do not
   * report absence but fail, with NotFound and NoSuchKey.
   */
  lemma DeleteThenAbsent(objects: Objects, faults: Faults, at: Address)
    requires at !in faults
    ensures ExistsFromHead(HeadResult(objects - {at}, faults, at)) == Ok(false)
    ensures InfoFromHead(HeadResult(objects - {at}, faults, at)) == Err(NotFound)
    ensures ObjectFromGet(GetResult(objects - {at}, faults, at)) == Err(NoSuchKey)
  {
  }

  /** A put or delete at one address changes nothing any other address reports. */
  lemma OtherAddressesUnaffected(objects: Objects, faults: Faults, at: Address, other: Address, obj: StoredObject)
    requires other != at
    ensures HeadResult(objects[at := obj], faults, other) == HeadResult(objects, faults, other)
    ensures GetResult(objects[at := obj], faults, other) == GetResult(objects, faults, other)
    ensures HeadResult(objects - {at}, faults, other) == HeadResult(objects, faults, other)
    ensures GetResult(objects - {at}, faults, other) == GetResult(objects, faults, other)
  {
  }

  /**
   * `deleteList` as written sends its deletes to the storage's own bucket.
   * For a listed bucket other than that one, a pass leaves the listed scope as
   * it was, so every later listing returns a non-empty page again and the
   * loop never ends. Each pass also removes any same-named object of the
   * storage's own bucket.
   */
  lemma ForeignBucketPassKeepsScope(objects: Objects, req: ListRequest, bucket: string, page: seq<string>)
    requires req.bucket != bucket
    ensures ScopeOf(objects - AddressesOf(bucket, page), req) == ScopeOf(objects, req)
    ensures forall i :: 0 <= i < |page| ==> Address(bucket, page[i]) !in objects - AddressesOf(bucket, page)
    ensures forall p, q :: IsPage(p, objects, req) && p != [] && IsPage(q, objects - AddressesOf(bucket, page), req) ==> q != []
  {
    assert forall at :: at in AddressesOf(bucket, page) ==> at.bucket == bucket;
    assert ScopeOf(objects - AddressesOf(bucket, page), req) == ScopeOf(objects, req);
  }
}
