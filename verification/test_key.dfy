/**
 * The concrete key converter of the test storage: a domain key is a kind
 * (`image` or `document`) and an identifier, stored as `kind/id`.
 */
module TestKeys {
  import opened Wrappers
  import opened Storage

  datatype Kind = Image | Document

  /** The domain key of the test storage. */
  datatype TestKey = TestKey(kind: Kind, id: string)

  const Separator: char := '/'

  function KindName(k: Kind): string {
    match k
    case Image => "image"
    case Document => "document"
  }

  /** The kind whose name is `s`, if any. */
  function ParseKind(s: string): (r: Option<Kind>)
    ensures r.Some? <==> s == "image" || s == "document"
    ensures r.Some? ==> KindName(r.value) == s
  {
    if s == "image" then Some(Image)
    else if s == "document" then Some(Document)
    else None
  }

  /** Concatenation of the parts with a `/` between neighbours (the inverse of Split). */
  function Join(parts: seq<string>): string {
    if |parts| == 0 then ""
    else if |parts| == 1 then parts[0]
    else parts[0] + [Separator] + Join(parts[1..])
  }

  /**
   * ECMAScript `String.prototype.split('/')`: the maximal `/`-free pieces
   * between separators, always at least one (`"".split('/')` is `[""]`).
   */
  function Split(s: string): (parts: seq<string>)
    ensures |parts| >= 1
    ensures forall i :: 0 <= i < |parts| ==> Separator !in parts[i]
    ensures Join(parts) == s
  {
    if s == [] then [""]
    else
      var rest := Split(s[1..]);
      if s[0] == Separator then
        assert Join([""] + rest) == [Separator] + Join(rest) by {
          assert ([""] + rest)[1..] == rest;
        }
        [""] + rest
      else
        var parts := [[s[0]] + rest[0]] + rest[1..];
        assert Join(parts) == s by {
          assert parts[1..] == rest[1..];
          if |rest| > 1 {
            assert Join(rest) == rest[0] + [Separator] + Join(rest[1..]);
          }
        }
        parts
  }

  /** `toS3`: the template string `${kind}/${id}`. */
  function ToS3(key: TestKey): (s3Key: string)
    ensures Separator !in key.id ==> Split(s3Key) == [KindName(key.kind), key.id]
    ensures Separator in key.id ==> |Split(s3Key)| > 2
  {
    var s3Key := KindName(key.kind) + [Separator] + key.id;
    SplitFirstSeparator(KindName(key.kind), key.id);
    if Separator in key.id then
      SplitWithSeparator(key.id);
      s3Key
    else
      SplitNoSeparator(key.id);
      s3Key
  }

  /**
   * `fromS3`: split on `/`; accept exactly two components whose first names
   * a kind, otherwise fail with `Invalid key`.
   */
  function FromS3(s3Key: string): (r: Result<TestKey, KeyError>)
    ensures r.Err? ==> r.error == InvalidKey(s3Key)
    ensures r.Ok? <==> |Split(s3Key)| == 2 && ParseKind(Split(s3Key)[0]).Some?
    ensures r.Ok? ==> KindName(r.value.kind) == Split(s3Key)[0] && r.value.id == Split(s3Key)[1]
  {
    var components := Split(s3Key);
    if |components| == 2 && ParseKind(components[0]).Some? then
      Ok(TestKey(ParseKind(components[0]).value, components[1]))
    else
      Err(InvalidKey(s3Key))
  }

  /** A string without `/` splits into itself alone. */
  lemma {:induction false} SplitNoSeparator(s: string)
    requires Separator !in s
    ensures Split(s) == [s]
  {
    if s != [] {
      SplitNoSeparator(s[1..]);
      assert [s[0]] + s[1..] == s;
    }
  }

  /** `a/b` with a `/`-free `a` splits into `a` followed by the components of `b`. */
  lemma {:induction false} SplitFirstSeparator(a: string, b: string)
    requires Separator !in a
    ensures Split(a + [Separator] + b) == [a] + Split(b)
  {
    if a == [] {
      assert a + [Separator] + b == [Separator] + b;
      assert ([Separator] + b)[1..] == b;
    } else {
      SplitFirstSeparator(a[1..], b);
      assert (a + [Separator] + b)[1..] == a[1..] + [Separator] + b;
      assert [a[0]] + a[1..] == a;
    }
  }

  /** A string with a `/` splits into at least two components. */
  lemma {:induction false} SplitWithSeparator(s: string)
    requires Separator in s
    ensures |Split(s)| >= 2
  {
    if s[0] != Separator {
      SplitWithSeparator(s[1..]);
    }
  }

  /** fromS3 inverts toS3 exactly when the id holds no `/` (an empty id included). */
  lemma KeyRoundTrip(key: TestKey)
    ensures FromS3(ToS3(key)).Ok? <==> Separator !in key.id
    ensures Separator !in key.id ==> FromS3(ToS3(key)) == Ok(key)
  {
  }

  /** toS3 inverts fromS3 on every string fromS3 accepts. */
  lemma StoreKeyRoundTrip(s3Key: string)
    requires FromS3(s3Key).Ok?
    ensures ToS3(FromS3(s3Key).value) == s3Key
    ensures Separator !in FromS3(s3Key).value.id
  {
    var parts := Split(s3Key);
    assert Join(parts) == parts[0] + [Separator] + parts[1];
  }

  /** The converter the test storage is built with: it round-trips every key with a `/`-free id. */
  function Converter(): (c: KeyConverter<TestKey>)
    ensures forall key: TestKey :: Separator !in key.id ==> c.fromS3(c.toS3(key)) == Ok(key)
  {
    AllKeysRoundTrip();
    KeyConverter(ToS3, FromS3)
  }

  lemma AllKeysRoundTrip()
    ensures forall key: TestKey :: Separator !in key.id ==> FromS3(ToS3(key)) == Ok(key)
  {
    forall key: TestKey | Separator !in key.id
      ensures FromS3(ToS3(key)) == Ok(key)
    {
      KeyRoundTrip(key);
    }
  }

  /** Distinct keys with `/`-free ids are stored under distinct store keys. */
  lemma ToS3Injective(k1: TestKey, k2: TestKey)
    requires Separator !in k1.id && Separator !in k2.id
    requires ToS3(k1) == ToS3(k2)
    ensures k1 == k2
  {
    KeyRoundTrip(k1);
    KeyRoundTrip(k2);
  }
}
