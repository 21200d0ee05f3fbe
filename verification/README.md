# s3-utils storage layer, modelled in Dafny

This project models the core of `s3-utils`: a typed storage layer over an S3
object store. The layer turns a domain key into a store key with a key
converter. It then issues head, get, put, delete and list calls against one
bucket, and interprets the answers. It also models the repository's concrete
test key converter (`kind/id` keys) and the decoding of S3 change-notification
records.

The remote store is replaced by an in-memory model. A `Store` object holds a
map from (bucket, key) to the stored content type, metadata and body. It keeps
a ghost log of every call issued, and two fault maps. A call to a faulty
address, or a listing of a faulty bucket, fails with the recorded error. This
is how transport and permission failures are modelled. Everything runs
sequentially, so no other writer can touch the store during `deleteAll`.

Files:
- `wrappers.dfy`: `Option`, `Result`, `Outcome`. These stand for `undefined` results and thrown errors.
- `object_store.dfy`: the abstract backing store. It holds the objects, the head/get/put/delete semantics and a listing call that returns one page.
- `storage.dfy`: `Storage<TKey>` as a class over a `Store`. It also holds the pure interpretation of head and get responses, and the put/get/exists/delete laws.
- `test_key.dfy`: the test storage's `TestKey` and its converter. `split('/')` is modelled exactly.
- `storage_test.dfy`: the put/get/info/exists/delete scenario of the integration test, written as a client of `Storage`.
- `s3_event.dfy`: `getEventType` and `parseEventRecord`. This module also has a form-encoder, used as the reference that the decoder inverts.

Facts about the code that the model makes explicit:
- `deleteList` sends no continuation token. It re-sends the same list request on every pass (packages/core/src/storage.ts:60, :82). Its termination rests on deleting what each listing returned.
- `info` and `getObject` do not catch the store's failure. A missing object makes them fail with `NotFound` and `NoSuchKey` (`DeleteThenAbsent`). "Absent" means only a falsy content type, or for `getObject` a missing body.
- `putObject` does not check that the content type is non-empty. In the model, an object put with `""` exists, but `info` and `getObject` report it absent (`PutEmptyContentType`).

## Model

| member | source | states |
|---|---|---|
| ObjectStore.Store.constructor | packages/test/src/storage-test-context.ts:57-61 | a fresh store holds no objects, as a newly created bucket; it has the given fault maps and an empty call log |
| ObjectStore.Store.Head | packages/core/src/storage.ts:88 | a head probe succeeds iff the address is stored and not faulty; a missing object gives `NotFound`; one `HeadCall` is logged |
| ObjectStore.Store.Get | packages/core/src/storage.ts:114-116 | a get succeeds iff the address is stored and not faulty; a missing object gives `NoSuchKey`; one `GetCall` is logged |
| ObjectStore.Store.Put | packages/core/src/storage.ts:128-136 | unless faulty, the address now holds exactly the object given and nothing else changes |
| ObjectStore.Store.Delete | packages/core/src/storage.ts:51 | unless faulty, only that address is removed; deleting a missing object changes nothing |
| ObjectStore.Store.List | packages/core/src/storage.ts:59-66 | a listing fails iff the bucket is faulty; otherwise it returns distinct keys of stored objects in scope, min(scope size, 1000) of them, so it is empty only for an empty scope; one `ListCall` is logged with the listing's result |
| Storage.ExistsFromHead | packages/core/src/storage.ts:86-97 | true iff the head probe succeeded; false iff it failed with name `NotFound`; any other failure is returned unchanged |
| Storage.InfoFromHead | packages/core/src/storage.ts:99-111 | head failures propagate unchanged; absent iff the content type is missing or empty; otherwise exactly the reported content type and metadata |
| Storage.ObjectFromGet | packages/core/src/storage.ts:113-125 | get failures propagate unchanged; absent iff the content type is missing or empty or the body is missing; otherwise the reported content type, metadata and bytes |
| Storage.Storage.constructor | packages/core/src/storage.ts:48 | a storage is its store, its bucket and its key converter |
| Storage.Storage.Delete | packages/core/src/storage.ts:50-52 | one delete call at (bucket, toS3(key)); only that address is removed; deleting an absent key leaves the store unchanged; a failure changes nothing |
| Storage.Storage.Exists | packages/core/src/storage.ts:86-97 | one head call at (bucket, toS3(key)), its answer read by `ExistsFromHead`; the objects are untouched |
| Storage.Storage.Info | packages/core/src/storage.ts:99-111 | one head call at (bucket, toS3(key)), its answer read by `InfoFromHead`; the objects are untouched |
| Storage.Storage.GetObject | packages/core/src/storage.ts:113-125 | one get call at (bucket, toS3(key)), its answer read by `ObjectFromGet`; the objects are untouched |
| Storage.Storage.PutObject | packages/core/src/storage.ts:127-137 | one put call at (bucket, toS3(key)) carrying the content type, metadata and bytes; on success only that address changes |
| Storage.Storage.DeleteAll | packages/core/src/storage.ts:54-56 | succeeds whenever neither the listing nor any delete of an object in the bucket is faulty; a failure carries one of those faults unchanged; on success no object of the storage's bucket is left and every other bucket is untouched; on failure only objects of the bucket were removed |
| Storage.Storage.DeletePage | packages/core/src/storage.ts:79-81 | deletes the page's keys one call at a time, in page order, in the listed bucket; every delete before the first failure succeeded, and the first failure stops it, with the log ending at the failing delete; the deletes done so far stay in place |
| Storage.Storage.DeleteList | packages/core/src/storage.ts:58-84 | terminates for every bucket-and-prefix request, with the listed scope's size as measure; succeeds whenever neither the listing nor any delete in scope is faulty, and a failure carries one of those faults unchanged; on success the scope is empty and the store is the old store minus the scope; the log records each listing with the page it returned, followed by one delete per key of exactly that page in page order, and ends with a listing that returned nothing; every listed key was in the original scope; on failure only in-scope objects were removed; deletes go to the listed bucket (see Findings) |
| Storage.ScopeShrinks | packages/core/src/storage.ts:69-82 | deleting a non-empty page of in-scope keys strictly shrinks the listed scope (the loop's measure decreases) |
| Storage.OutsideWhenScopeEmpty | packages/core/src/storage.ts:69 | when the loop stops on an empty listing, the store holds exactly the old objects outside the scope |
| Storage.ForeignBucketPassKeepsScope | packages/core/src/storage.ts:60-80 | deleting the listed keys in the storage's bucket, as line 80 does, leaves the scope listed in another bucket unchanged, so once a listing of that scope is non-empty the next one is non-empty again and the loop as written never ends; each such pass also removes any same-named object of the storage's own bucket |
| Storage.ExistsIffStored | packages/core/src/storage.ts:86-97 | with no fault at the address, exists is exactly "an object is stored there" |
| Storage.PutThenRead | packages/core/src/storage.ts:127-137 | after putting an object with a non-empty content type, exists is true, getObject returns that object and info its content type and metadata |
| Storage.PutEmptyContentType | packages/core/src/storage.ts:103-105 | an object put with an empty content type exists, but info and getObject report it absent |
| Storage.DeleteThenAbsent | packages/core/src/storage.ts:86-125 | after a delete, exists is false, info fails with `NotFound` and getObject with `NoSuchKey` |
| Storage.OtherAddressesUnaffected | packages/core/src/storage.ts:127-137 | a put or delete at one address changes nothing that head or get report for any other address |
| TestKeys.ParseKind | src/test/storage.test.ts:19 | a first component is accepted iff it is `image` or `document`, and names that kind |
| TestKeys.Split | src/test/storage.test.ts:18 | `split('/')` gives at least one component, none containing `/`, and joining them with `/` gives the input back |
| TestKeys.SplitNoSeparator | src/test/storage.test.ts:18 | a `/`-free string splits into itself alone |
| TestKeys.SplitFirstSeparator | src/test/storage.test.ts:18 | `a/b` with a `/`-free `a` splits into `a` followed by the components of `b` |
| TestKeys.SplitWithSeparator | src/test/storage.test.ts:18 | a string containing `/` splits into at least two components |
| TestKeys.ToS3 | src/test/storage.test.ts:14-16 | the store key of a key with a `/`-free id splits into exactly its kind name and its id; with a `/` in the id it splits into more than two components |
| TestKeys.Converter | src/test/storage.test.ts:13-27 | the test storage's converter, pairing toS3 and fromS3, round-trips every key with a `/`-free id |
| TestKeys.FromS3 | src/test/storage.test.ts:17-26 | succeeds iff the split gives exactly two components and the first names a kind; then the kind is the first and the id the second; otherwise `InvalidKey` of the input |
| TestKeys.KeyRoundTrip | src/test/storage.test.ts:14-26 | fromS3(toS3(k)) succeeds iff k's id holds no `/`, an empty id included, and then gives k back |
| TestKeys.StoreKeyRoundTrip | src/test/storage.test.ts:14-24 | toS3(fromS3(s)) == s for every s fromS3 accepts, and the decoded id holds no `/` |
| TestKeys.ToS3Injective | src/test/storage.test.ts:14-16 | distinct keys with `/`-free ids get distinct store keys |
| StorageScenario.RunStorageTest | src/test/storage-test-utils.ts:5-24 | with no fault at the key's address: after a put, exists is true, getObject and info return the put object and info, and after a delete exists is false; the round-trip check passes iff fromS3(toS3(key)) == key |
| StorageScenario.TestKeyRoundTrips | src/test/storage-test-utils.ts:7-8 | the test converter passes the round-trip check for every key with a `/`-free id |
| S3Event.GetEventType | src/s3-event.ts:5-12 | `created` iff the name starts with `ObjectCreated`; `removed` iff it starts with `ObjectRemoved`; `other` iff neither |
| S3Event.PrefixesExclusive | src/s3-event.ts:6-9 | no name starts with both prefixes |
| S3Event.ReplacePlus | src/s3-event.ts:24 | every `+` becomes a space, every other character stays, and no `+` is left |
| S3Event.PercentDecode | src/s3-event.ts:24 | a string without `%` decodes to itself; a decoded string is never longer than the input, and is the input when equally long |
| S3Event.DecodeEventKey | src/s3-event.ts:24 | a decoded key is never longer than the raw key; one of equal length is the raw key with each `+` read as a space; a decoded `+` can only come from a raw key with an escape |
| S3Event.ParseEventRecord | src/s3-event.ts:21-27 | fails iff the key fails to decode; otherwise the event type is `getEventType(eventName)`, bucket and size are copied and the key is decoded |
| S3Event.EventKeyRoundTrip | src/s3-event.ts:24 | every ASCII key, form-encoded, decodes back to itself: spaces, `+` and `%` included |
| S3Event.PlusIsSpace | src/s3-event.ts:24 | a raw key without `%` decodes to the key with each `+` read as a space |
| S3Event.PlainKeyUnchanged | src/s3-event.ts:24 | a raw key with neither `+` nor `%` decodes to itself |
| S3Event.EscapedPlusSurvives | src/s3-event.ts:24 | `%2B` in front of a raw key decodes to a literal `+` in front of the decoded rest |
| S3Event.LiteralPlusIsSpace | src/s3-event.ts:24 | a literal `+` in front of a raw key decodes to a space in front of the decoded rest |
| S3Event.DecodeFirstWouldDiffer | src/s3-event.ts:24 | `%2B` decodes to `+`, whereas decoding escapes before replacing plus signs would give a space |

## Left out

- The S3 client, its network behaviour, SDK command objects and error classes (packages/core/src/storage.ts:1-11) are not modelled. They are replaced by the in-memory `Store`. Failures are given by its fault maps and identified by error name only.
- `createS3ClientFromEnv` reads environment variables and is left out.
- `toBuffer` is stream plumbing and is left out. A body is already a byte sequence in the model.
- `signedGetUrl` and `signedPutUrl`, and the signed-URL half of the integration test (src/test/storage-test-utils.ts:26-37), are left out. URL signing is a foreign cryptographic call, and the uploads go through HTTP outside the storage layer.
- The backend's own treatment of stored objects is left out: S3 lowercasing metadata names, defaulting an empty content type, and returning `{}` for missing metadata. The model's store returns exactly what was put.
- Listing order is left to the store's choice. S3 lists keys in lexicographic order; no property here depends on the order.
- `ListRequest` keeps only `Bucket` and `Prefix` of `ListObjectsV2CommandInput`. `Delimiter`, `StartAfter`, `MaxKeys` and `ContinuationToken` are not modelled. `DeleteList`'s properties are claimed only for requests without them. With a `Delimiter`, nested keys are missing from `Contents`, so the loop stops with objects left under the prefix. With `StartAfter`, keys before that point are never listed.
- Continuation tokens: `deleteAll`, the only caller, passes no continuation token. `deleteList` re-sends its request unchanged on every listing (packages/core/src/storage.ts:60, :82), so it never pages with one.
- Concurrent writers during `deleteAll` are not modelled. The model is sequential, so the "no concurrent writers" precondition holds by construction.
- Asynchrony (`async`/`await`) is left out. Each operation's calls run in the order the source awaits them.
- `decodeURIComponent` is modelled only for escapes of ASCII octets. An escape of an octet at or above 0x80 yields `NonAsciiEscape` rather than decoding a UTF-8 sequence. A malformed escape yields `MalformedEscape`, which stands for the `URIError` the source would throw.
- The event record's `size` is a JavaScript number. It is modelled as an unbounded integer and is only copied.
- The generic `KeyConverter.fromS3` is never called by `Storage`. It appears only in the converter value and the test scenario.
- Store faults are fixed per address and per bucket, so transient failures are not modelled. In particular, once `deleteList`'s first listing succeeds, its later listings of the same request cannot fail in the model.
- Storage.Storage.DeleteList: on failure, the call log is not described beyond the objects removed.
- Storage.Storage.DeleteAll: does not restate the call log, which is DeleteList's.

## Findings

| source | as written | input that shows it | evidently intended | confidence | as-written member | corrected member |
|---|---|---|---|---|---|---|
| packages/core/src/storage.ts:60-80 | `deleteList` lists `listRequest.Bucket` but deletes each listed key in `this.bucket` | a request for a bucket other than the storage's, with one object `k` stored in it: every pass deletes `k` in the storage's own bucket, removing any object of that name there, and the next listing returns `[k]` again, forever | deletes go to the listed bucket, as the commented-out batch delete at line 71 does; the only caller, `deleteAll`, passes `this.bucket`, so the two agree there and the defect is latent | not executed; latent, since no caller passes another bucket | Storage.ForeignBucketPassKeepsScope | Storage.Storage.DeleteList |

The model keeps the terminating, corrected loop. For `deleteAll`, the only caller, it behaves exactly as the code does.
