/**
 * The put/get/info/exists/delete scenario the repository's integration test
 * runs against every storage, as a client of the Storage class.
 */
module StorageScenario {
  import opened Wrappers
  import opened ObjectStore
  import opened Storage
  import TestKeys

  /** The bytes of the text `DATA`. */
  const Data: seq<Byte> := [68, 65, 84, 65]

  const TextInfo: S3ObjectInfo := S3ObjectInfo("text/plain", Some(map[]))
  const TextObject: S3Object := S3Object("text/plain", Some(map[]), Data)

  /**
   * Put a text object, check it exists and reads back, delete it, check it
   * is gone. When the key round-trips and the store does not fail at its
   * address, every check the test makes holds.
   */
  method RunStorageTest<TKey(==)>(storage: Storage<TKey>, key: TKey)
    returns (roundTrip: bool, existsAfterPut: Result<bool, StoreError>,
             got: Result<Option<S3Object>, StoreError>, info: Result<Option<S3ObjectInfo>, StoreError>,
             existsAfterDelete: Result<bool, StoreError>)
    requires storage.AddressOf(key) !in storage.store.faults
    modifies storage.store`objects, storage.store`log
    ensures roundTrip <==> storage.keyConverter.fromS3(storage.keyConverter.toS3(key)) == Ok(key)
    ensures existsAfterPut == Ok(true)
    ensures got == Ok(Some(TextObject))
    ensures info == Ok(Some(TextInfo))
    ensures existsAfterDelete == Ok(false)
    ensures storage.store.objects == old(storage.store.objects) - {storage.AddressOf(key)}
  {
    var s3Key := storage.keyConverter.toS3(key);
    roundTrip := storage.keyConverter.fromS3(s3Key) == Ok(key);

    ghost var before := storage.store.objects;
    var put := storage.PutObject(key, TextObject);
    PutThenRead(before, storage.store.faults, storage.AddressOf(key), TextObject);
    existsAfterPut := storage.Exists(key);
    got := storage.GetObject(key);
    info := storage.Info(key);

    var deleted := storage.Delete(key);
    DeleteThenAbsent(storage.store.objects, storage.store.faults, storage.AddressOf(key));
    existsAfterDelete := storage.Exists(key);
  }

  /** For the test storage's keys, the round-trip check passes for every `/`-free id. */
  lemma TestKeyRoundTrips(key: TestKeys.TestKey)
    requires TestKeys.Separator !in key.id
    ensures TestKeys.Converter().fromS3(TestKeys.Converter().toS3(key)) == Ok(key)
  {
    TestKeys.KeyRoundTrip(key);
  }
}
