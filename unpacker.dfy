/**
 * The unpack side of the filter: `jwt_unpack`, `extract_fields`,
 * `unpack_to` and `unpack`.
 */
module Unpacker {
  import opened Wrappers
  import opened RubyData
  import opened HashOps
  import opened JwtGem
  import opened Settings

  /** The marker field `extract_fields` adds to every extracted mapping. */
  const JwtValid: string := "jwt_valid"

  /** What `jwt_unpack` returns: `{ out: ..., valid: ... }`, with `out` reduced to its payload. */
  datatype Message = Message(payload: Value, valid: bool)

  /**
   * `jwt_unpack`: decode with the given key and verify flag; on
   * JWT::VerificationError, and only then, decode again without key or
   * verification and mark the result invalid. Every other error raises.
   */
  function JwtUnpack(codec: Codec, token: Value, secret: Option<string>, verify: bool): (r: Result<Message, Raised>)
    ensures (r.Ok? && r.value.valid) <==> codec.decode(token, secret, verify).Decoded?
    ensures r.Ok? && r.value.valid ==> r.value.payload == codec.decode(token, secret, verify).payload
    ensures (r.Ok? && !r.value.valid) <==>
      codec.decode(token, secret, verify) == VerificationFailed && codec.decode(token, None, false).Decoded?
    ensures r.Ok? && !r.value.valid ==> r.value.payload == codec.decode(token, None, false).payload
    ensures codec.decode(token, secret, verify) == DecodeFailed ==> r == Err(DecodeError)
  {
    match codec.decode(token, secret, verify)
    case Decoded(payload) => Ok(Message(payload, true))
    case DecodeFailed => Err(DecodeError)
    case VerificationFailed =>
      match codec.decode(token, None, false)
      case Decoded(payload) => Ok(Message(payload, false))
      case VerificationFailed => Err(VerificationError)
      case DecodeFailed => Err(DecodeError)
  }

  /** With a gem that checks nothing unless asked, an unverified unpack is always marked valid. */
  lemma UnverifiedIsValid(codec: Codec, token: Value, secret: Option<string>)
    requires SkipsVerification(codec)
    ensures JwtUnpack(codec, token, secret, false).Ok? ==> JwtUnpack(codec, token, secret, false).value.valid
  {
  }

  /**
   * `extract_fields`: the whole payload when `unpack_fields` is empty,
   * otherwise the payload's entries named in it; then `jwt_valid` is set to
   * the validity flag, overriding any payload entry of that name. A payload
   * that is not a Hash has no `merge` or `keys`, so it raises.
   */
  function ExtractFields(c: Config, msg: Message): (r: Result<Record, Raised>)
    ensures r.Ok? <==> msg.payload.Hash?
    ensures r.Ok? ==> JwtValid in r.value && r.value[JwtValid] == Bool(msg.valid)
    ensures r.Ok? ==> forall k :: k != JwtValid ==>
      (k in r.value <==> k in msg.payload.fields && (c.unpackFields == [] || k in c.unpackFields))
    ensures r.Ok? ==> forall k :: k in r.value && k != JwtValid ==> r.value[k] == msg.payload.fields[k]
  {
    match msg.payload
    case Hash(fields) =>
      var out := if |c.unpackFields| == 0 then fields else HashPick(fields, c.unpackFields);
      Ok(out + map[JwtValid := Bool(msg.valid)])
    case _ =>
      Err(NoMethodError(if |c.unpackFields| == 0 then "merge" else "keys"))
  }

  /**
   * `unpack_to`: `:field` and `:replace` set one entry and keep every
   * other; `:merge` is a shallow union in which the extracted entries win;
   * `:record` keeps only the extracted mapping.
   */
  function UnpackTo(c: Config, record: Record, fields: Record): (r: Record)
    ensures c.unpackMode == ToField ==>
      && r.Keys == record.Keys + {c.unpackToField}
      && r[c.unpackToField] == Hash(fields)
      && forall k :: k in record && k != c.unpackToField ==> r[k] == record[k]
    ensures c.unpackMode == Replace ==>
      && r.Keys == record.Keys + {c.unpackFromField}
      && r[c.unpackFromField] == Hash(fields)
      && forall k :: k in record && k != c.unpackFromField ==> r[k] == record[k]
    ensures c.unpackMode == Merge ==>
      && r.Keys == record.Keys + fields.Keys
      && (forall k :: k in fields ==> r[k] == fields[k])
      && (forall k :: k in record && k !in fields ==> r[k] == record[k])
    ensures c.unpackMode == ToRecord ==> r == fields
  {
    match c.unpackMode
    case ToField => record + map[c.unpackToField := Hash(fields)]
    case Merge => record + fields
    case Replace => record + map[c.unpackFromField := Hash(fields)]
    case ToRecord => fields
  }

  /**
   * `unpack`: a record without the token field passes unchanged; otherwise
   * the token is decoded (verified unless `unpack_verify` is `:no`), its
   * fields extracted and placed by `unpack_mode`. Whatever raises is
   * rescued and the record is dropped (None).
   */
  function Unpack(c: Config, codec: Codec, record: Record): (r: Option<Record>)
    ensures c.unpackFromField !in record ==> r == Some(record)
    ensures c.unpackFromField in record ==>
      var msg := JwtUnpack(codec, record[c.unpackFromField], c.secret, Verifies(c));
      r.Some? <==> msg.Ok? && msg.value.payload.Hash?
    ensures c.unpackFromField in record && codec.decode(record[c.unpackFromField], c.secret, Verifies(c)) == DecodeFailed ==>
      r == None
  {
    if c.unpackFromField !in record then Some(record)
    else
      match JwtUnpack(codec, record[c.unpackFromField], c.secret, Verifies(c))
      case Err(_) => None
      case Ok(msg) =>
        match ExtractFields(c, msg)
        case Err(_) => None
        case Ok(fields) => Some(UnpackTo(c, record, fields))
  }

  /**
   * The `jwt_valid` marker where `unpack_mode` puts it: inside the
   * `unpack_to_field` or `unpack_from_field` entry, or at the top level.
   */
  function Marker(c: Config, out: Record): Option<Value>
  {
    match c.unpackMode
    case ToField =>
      if c.unpackToField in out && out[c.unpackToField].Hash? && JwtValid in out[c.unpackToField].fields
      then Some(out[c.unpackToField].fields[JwtValid]) else None
    case Replace =>
      if c.unpackFromField in out && out[c.unpackFromField].Hash? && JwtValid in out[c.unpackFromField].fields
      then Some(out[c.unpackFromField].fields[JwtValid]) else None
    case _ =>
      if JwtValid in out then Some(out[JwtValid]) else None
  }

  /**
   * Every unpacked record carries the marker, and it is false exactly when
   * the first, possibly verifying, decode raised JWT::VerificationError.
   */
  lemma UnpackMarksValidity(c: Config, codec: Codec, record: Record)
    requires c.unpackFromField in record
    requires Unpack(c, codec, record).Some?
    ensures Marker(c, Unpack(c, codec, record).value) ==
      Some(Bool(codec.decode(record[c.unpackFromField], c.secret, Verifies(c)).Decoded?))
  {
  }

  /**
   * With `unpack_verify :no` and a gem that checks nothing unless asked,
   * every unpacked record is marked valid.
   */
  lemma UnverifiedUnpackMarkedValid(c: Config, codec: Codec, record: Record)
    requires c.unpackVerify == No && SkipsVerification(codec)
    requires c.unpackFromField in record
    requires Unpack(c, codec, record).Some?
    ensures Marker(c, Unpack(c, codec, record).value) == Some(Bool(true))
  {
  }

  /**
   * Under `unpack_verify :no` the signature is never consulted: two gems
   * that agree on every unverified decode give the same output.
   */
  lemma NoVerifyIgnoresSignature(c: Config, codec1: Codec, codec2: Codec, record: Record)
    requires c.unpackVerify == No
    requires forall t, k :: codec1.decode(t, k, false) == codec2.decode(t, k, false)
    ensures Unpack(c, codec1, record) == Unpack(c, codec2, record)
  {
  }

  /**
   * Under `:mark` or `:warn` only the verifying decode and the keyless
   * unverified decode are consulted; two gems that agree on those give the
   * same output.
   */
  lemma VerifyConsultsOnlyTheTwoDecodes(c: Config, codec1: Codec, codec2: Codec, record: Record)
    requires c.unpackVerify != No
    requires forall t, k :: codec1.decode(t, k, true) == codec2.decode(t, k, true)
    requires forall t :: codec1.decode(t, None, false) == codec2.decode(t, None, false)
    ensures Unpack(c, codec1, record) == Unpack(c, codec2, record)
  {
  }

  /** `:warn` differs from `:mark` only by a log line: the output records are the same. */
  lemma MarkAndWarnAgree(c: Config, codec: Codec, record: Record)
    requires c.unpackVerify == Mark
    ensures Unpack(c, codec, record) == Unpack(c.(unpackVerify := Warn), codec, record)
  {
  }

  /**
   * Selecting `a` and `c` from the payload `{"a": 1, "b": 2}` keeps `a`,
   * silently omits the missing `c` and adds the marker.
   */
  lemma ExtractFieldsExample(c: Config)
    requires c.unpackFields == ["a", "c"]
    ensures ExtractFields(c, Message(Hash(map["a" := Int(1), "b" := Int(2)]), true))
      == Ok(map["a" := Int(1), JwtValid := Bool(true)])
  {
    var r := ExtractFields(c, Message(Hash(map["a" := Int(1), "b" := Int(2)]), true)).value;
    assert |JwtValid| != 1;
    assert r.Keys == {"a", JwtValid};
    assert r["a"] == Int(1);
    assert r == map["a" := Int(1), JwtValid := Bool(true)];
  }
}
