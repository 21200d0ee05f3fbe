/**
 * Decoding of a storage change-notification record: the event name is
 * classified by prefix, and the object key, which the notification carries
 * form-encoded (`+` for a space, `%XX` for an escaped octet), is decoded.
 */
module S3Event {
  import opened Wrappers

  datatype EventType = Created | Removed | Other

  const CreatedPrefix: string := "ObjectCreated"
  const RemovedPrefix: string := "ObjectRemoved"

  /** The fields of a notification record the decoder reads. */
  datatype EventRecord = EventRecord(eventName: string, bucketName: string, objectKey: string, size: int)

  datatype ParsedS3Record = ParsedS3Record(eventType: EventType, bucket: string, key: string, size: int)

  /**
   * Why `decodeURIComponent` gave no string: a `%` not followed by two hex
   * digits (a `URIError` in ECMAScript), or an escape of an octet at or above
   * 0x80, which starts a UTF-8 sequence this model does not decode.
   */
  datatype DecodeError = MalformedEscape | NonAsciiEscape

  /** `getEventType`: classify an event name by its prefix. */
  function GetEventType(eventName: string): (t: EventType)
    ensures t == Created <==> CreatedPrefix <= eventName
    ensures t == Removed <==> RemovedPrefix <= eventName
    ensures t == Other <==> !(CreatedPrefix <= eventName) && !(RemovedPrefix <= eventName)
  {
    PrefixesExclusive(eventName);
    if CreatedPrefix <= eventName then Created
    else if RemovedPrefix <= eventName then Removed
    else Other
  }

  /** No event name starts with both prefixes: they differ at their seventh character. */
  lemma PrefixesExclusive(eventName: string)
    ensures !(CreatedPrefix <= eventName && RemovedPrefix <= eventName)
  {
    assert CreatedPrefix[6] == 'C' && RemovedPrefix[6] == 'R';
  }

  /** `s.replace(/\+/g, ' ')`: every `+` becomes a space, nothing else moves. */
  function ReplacePlus(s: string): (r: string)
    ensures |r| == |s|
    ensures forall i :: 0 <= i < |s| ==> r[i] == (if s[i] == '+' then ' ' else s[i])
    ensures '+' !in r
  {
    if s == [] then []
    else [if s[0] == '+' then ' ' else s[0]] + ReplacePlus(s[1..])
  }

  predicate IsHexDigit(c: char) {
    '0' <= c <= '9' || 'a' <= c <= 'f' || 'A' <= c <= 'F'
  }

  function HexValue(c: char): (v: nat)
    requires IsHexDigit(c)
    ensures v < 16
  {
    if '0' <= c <= '9' then c as int - '0' as int
    else if 'a' <= c <= 'f' then c as int - 'a' as int + 10
    else c as int - 'A' as int + 10
  }

  /** The upper-case hex digit for a value below 16, as encoders write it. */
  function HexDigit(v: nat): (c: char)
    requires v < 16
    ensures IsHexDigit(c) && HexValue(c) == v
  {
    if v < 10 then ('0' as int + v) as char else ('A' as int + v - 10) as char
  }

  /**
   * `decodeURIComponent` on escapes of ASCII octets: each `%XX` becomes the
   * character with code XX, every other character stays as it is.
   */
  function PercentDecode(s: string): (r: Result<string, DecodeError>)
    ensures '%' !in s ==> r == Ok(s)
    ensures r.Ok? ==> |r.value| <= |s|
    ensures r.Ok? && |r.value| == |s| ==> r.value == s
  {
    if s == [] then Ok([])
    else if s[0] != '%' then
      assert [s[0]] + s[1..] == s;
      match PercentDecode(s[1..])
      case Ok(rest) => Ok([s[0]] + rest)
      case Err(e) => Err(e)
    else if |s| < 3 || !IsHexDigit(s[1]) || !IsHexDigit(s[2]) then Err(MalformedEscape)
    else
      var octet := 16 * HexValue(s[1]) + HexValue(s[2]);
      if octet >= 0x80 then Err(NonAsciiEscape)
      else
        match PercentDecode(s[3..])
        case Ok(rest) => Ok([octet as char] + rest)
        case Err(e) => Err(e)
  }

  /** The object key as the decoder produces it: plus signs first, then escapes. */
  function DecodeEventKey(rawKey: string): (r: Result<string, DecodeError>)
    ensures r.Ok? ==> |r.value| <= |rawKey|
    ensures r.Ok? && '+' in r.value ==> '%' in rawKey
    ensures r.Ok? && |r.value| == |rawKey| ==> r.value == ReplacePlus(rawKey)
  {
    PercentDecode(ReplacePlus(rawKey))
  }

  /**
   * `parseEventRecord`: the classified event, the bucket and size copied,
   * the key decoded. A key `decodeURIComponent` rejects fails the whole record.
   */
  function ParseEventRecord(rec: EventRecord): (r: Result<ParsedS3Record, DecodeError>)
    ensures r.Ok? <==> DecodeEventKey(rec.objectKey).Ok?
    ensures r.Err? ==> r.error == DecodeEventKey(rec.objectKey).error
    ensures r.Ok? ==> (r.value.eventType == GetEventType(rec.eventName)
                       && r.value.bucket == rec.bucketName
                       && r.value.size == rec.size
                       && r.value.key == DecodeEventKey(rec.objectKey).value)
  {
    var eventType := GetEventType(rec.eventName);
    match DecodeEventKey(rec.objectKey)
    case Ok(key) => Ok(ParsedS3Record(eventType, rec.bucketName, key, rec.size))
    case Err(e) => Err(e)
  }

  // ---------------------------------------------------------------------
  // The encoding side, as a reference for what the decoder inverts.

  /** Characters `encodeURIComponent` leaves as they are. */
  predicate IsUnreserved(c: char) {
    'A' <= c <= 'Z' || 'a' <= c <= 'z' || '0' <= c <= '9' ||
    c == '-' || c == '_' || c == '.' || c == '!' || c == '~' || c == '*' || c == '\'' || c == '(' || c == ')'
  }

  predicate IsAscii(s: string) {
    forall i :: 0 <= i < |s| ==> s[i] as int < 0x80
  }

  /** Form-encoding of one ASCII character: space as `+`, unreserved as is, the rest as `%XX`. */
  function EncodeChar(c: char): (r: string)
    requires c as int < 0x80
  {
    if c == ' ' then "+"
    else if IsUnreserved(c) then [c]
    else ['%', HexDigit(c as int / 16), HexDigit(c as int % 16)]
  }

  /** Form-encoding of an ASCII key, as it appears in a notification. */
  function EncodeEventKey(s: string): string
    requires IsAscii(s)
  {
    if s == [] then [] else EncodeChar(s[0]) + EncodeEventKey(s[1..])
  }

  lemma {:induction false} ReplacePlusAppend(a: string, b: string)
    ensures ReplacePlus(a + b) == ReplacePlus(a) + ReplacePlus(b)
  {
    if a != [] {
      assert (a + b)[1..] == a[1..] + b;
      ReplacePlusAppend(a[1..], b);
    } else {
      assert a + b == b;
    }
  }

  /** Decoding an encoded character in front of any rest yields the character in front of the decoded rest. */
  lemma DecodeEncodedChar(c: char, rest: string)
    requires c as int < 0x80
    ensures PercentDecode(ReplacePlus(EncodeChar(c)) + rest) ==
            match PercentDecode(rest)
            case Ok(r) => Ok([c] + r)
            case Err(e) => Err(e)
  {
    var s := ReplacePlus(EncodeChar(c)) + rest;
    if c == ' ' {
      assert ReplacePlus("+") == " ";
      assert s[1..] == rest;
    } else if IsUnreserved(c) {
      assert ReplacePlus([c]) == [c];
      assert s[1..] == rest;
    } else {
      var hi, lo := HexDigit(c as int / 16), HexDigit(c as int % 16);
      assert ReplacePlus(['%', hi, lo]) == ['%', hi, lo];
      assert s[0] == '%' && s[1] == hi && s[2] == lo && s[3..] == rest;
      assert (16 * HexValue(hi) + HexValue(lo)) as char == c;
    }
  }

  /** Every ASCII key survives encoding and the decoder: spaces, `+` and `%` included. */
  lemma {:induction false} EventKeyRoundTrip(s: string)
    requires IsAscii(s)
    ensures DecodeEventKey(EncodeEventKey(s)) == Ok(s)
  {
    if s != [] {
      EventKeyRoundTrip(s[1..]);
      ReplacePlusAppend(EncodeChar(s[0]), EncodeEventKey(s[1..]));
      DecodeEncodedChar(s[0], ReplacePlus(EncodeEventKey(s[1..])));
      assert [s[0]] + s[1..] == s;
    }
  }

  /** A raw key without `%` decodes to the key with each `+` read as a space. */
  lemma PlusIsSpace(rawKey: string)
    requires '%' !in rawKey
    ensures DecodeEventKey(rawKey) == Ok(ReplacePlus(rawKey))
  {
  }

  /** A raw key with neither `+` nor `%` decodes to itself. */
  lemma PlainKeyUnchanged(rawKey: string)
    requires '+' !in rawKey && '%' !in rawKey
    ensures DecodeEventKey(rawKey) == Ok(rawKey)
  {
    PlusIsSpace(rawKey);
    assert ReplacePlus(rawKey) == rawKey;
  }

  /** An escaped plus sign, `%2B`, decodes to a literal `+` in front of the decoded rest. */
  lemma EscapedPlusSurvives(rest: string)
    ensures DecodeEventKey("%2B" + rest) ==
            match DecodeEventKey(rest)
            case Ok(r) => Ok("+" + r)
            case Err(e) => Err(e)
  {
    assert EncodeChar('+') == "%2B";
    ReplacePlusAppend("%2B", rest);
    DecodeEncodedChar('+', ReplacePlus(rest));
  }

  /** A literal `+` decodes to a space in front of the decoded rest. */
  lemma LiteralPlusIsSpace(rest: string)
    ensures DecodeEventKey("+" + rest) ==
            match DecodeEventKey(rest)
            case Ok(r) => Ok(" " + r)
            case Err(e) => Err(e)
  {
    assert EncodeChar(' ') == "+";
    ReplacePlusAppend("+", rest);
    DecodeEncodedChar(' ', ReplacePlus(rest));
  }

  /**
   * The order matters: decoding escapes before replacing plus signs would
   * turn an escaped `%2B` into a space as well.
   */
  lemma DecodeFirstWouldDiffer()
    ensures DecodeEventKey("%2B") == Ok("+")
    ensures PercentDecode("%2B") == Ok("+") && ReplacePlus("+") == " "
  {
    EscapedPlusSurvives("");
    assert DecodeEventKey("") == Ok("");
    assert "%2B" + "" == "%2B" && "+" + "" == "+";
    assert ReplacePlus("%2B") == "%2B";
  }
}
