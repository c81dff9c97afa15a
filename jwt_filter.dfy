/**
 * The filter's entry point, `filter`, which dispatches on `mode`, and what
 * a pack filter followed by an unpack filter does to a record.
 */
module JwtFilter {
  import opened Wrappers
  import opened RubyData
  import opened HashOps
  import opened JwtGem
  import opened Settings
  import opened Packer
  import opened Unpacker

  /**
   * `filter` as written: pack or unpack the record according to `mode`;
   * None means the record is dropped. `mode` is an enum the configuration
   * parser checks, so the `not_supported_error` branch cannot be reached.
   */
  function Filter(c: Config, codec: Codec, record: Record): (r: Option<Record>)
    ensures c.mode == Packing && c.packMode == Fields ==> r == None
    ensures c.mode == Packing && r.Some? ==> c.packToField in r.value && r.value[c.packToField].Str?
    ensures c.mode == Unpacking && c.unpackFromField !in record ==> r == Some(record)
    ensures c.mode == Unpacking && r.Some? && c.unpackFromField in record && c.unpackMode == Merge ==>
      JwtValid in r.value
  {
    match c.mode
    case Packing => Pack(c, codec, record)
    case Unpacking => Unpack(c, codec, record)
  }

  /** `filter` with the corrected pack side. */
  function FilterIntended(c: Config, codec: Codec, record: Record): (r: Option<Record>)
    ensures c.mode == Packing ==>
      (r.Some? <==> codec.encode(SourceFieldsIntended(c, record), c.secret, c.packHmac).Some?)
    ensures c.mode == Packing && r.Some? ==> c.packToField in r.value && r.value[c.packToField].Str?
    ensures c.mode == Unpacking ==> r == Filter(c, codec, record)
  {
    match c.mode
    case Packing => PackIntended(c, codec, record)
    case Unpacking => Unpack(c, codec, record)
  }

  /** Whether the corrected pack side puts field `k` of the record into the token. */
  predicate Selected(c: Config, k: string) {
    match c.packMode
    case WholeRecord => true
    case Fields => k in c.packFields
    case OneField => false
  }

  /** A pack filter and an unpack filter that read the token where the first wrote it, with the same secret. */
  predicate Paired(pc: Config, uc: Config) {
    && pc.mode == Packing && uc.mode == Unpacking
    && uc.unpackFromField == pc.packToField
    && uc.secret == pc.secret
  }

  /**
   * Packing the whole record or named fields and unpacking into a record
   * gives back the packed fields the unpack side selects, with the values
   * they had, marked valid. Under `unpack_verify :no` only the unverified
   * round trip is needed; under `:mark` or `:warn` the verifying decode
   * must also accept this payload.
   */
  lemma RoundTripToRecord(pc: Config, uc: Config, codec: Codec, record: Record)
    requires UnverifiedRoundTrips(codec)
    requires Verifies(uc) ==> VerifiedDecodeAccepts(codec, SourceFieldsIntended(pc, record), pc.secret, pc.packHmac)
    requires Paired(pc, uc) && pc.packMode != OneField && uc.unpackMode == ToRecord
    requires codec.encode(SourceFieldsIntended(pc, record), pc.secret, pc.packHmac).Some?
    ensures FilterIntended(pc, codec, record).Some?
    ensures var out := Filter(uc, codec, FilterIntended(pc, codec, record).value);
      && out.Some?
      && JwtValid in out.value && out.value[JwtValid] == Bool(true)
      && (forall k :: k != JwtValid ==>
            (k in out.value <==> k in record && Selected(pc, k) && (uc.unpackFields == [] || k in uc.unpackFields)))
      && (forall k :: k in out.value && k != JwtValid ==> out.value[k] == record[k])
  {
  }

  /**
   * Packing named fields without removing them and unpacking with `:merge`
   * restores the original record and adds the valid marker; the token entry
   * stays unless a packed field or the marker has its name. The hypotheses
   * are those of RoundTripToRecord.
   */
  lemma RoundTripMerge(pc: Config, uc: Config, codec: Codec, record: Record)
    requires UnverifiedRoundTrips(codec)
    requires Verifies(uc) ==> VerifiedDecodeAccepts(codec, SourceFieldsIntended(pc, record), pc.secret, pc.packHmac)
    requires Paired(pc, uc) && pc.packMode != OneField && !pc.packRemoveSource && uc.unpackMode == Merge
    requires codec.encode(SourceFieldsIntended(pc, record), pc.secret, pc.packHmac).Some?
    ensures FilterIntended(pc, codec, record).Some?
    ensures var out := Filter(uc, codec, FilterIntended(pc, codec, record).value);
      && out.Some?
      && JwtValid in out.value && out.value[JwtValid] == Bool(true)
      && (forall k :: k in record && k != JwtValid && k != pc.packToField ==> k in out.value && out.value[k] == record[k])
      && (pc.packToField != JwtValid && !(pc.packToField in record && Selected(pc, pc.packToField)) ==>
            out.value[pc.packToField] == FilterIntended(pc, codec, record).value[pc.packToField])
  {
  }

  /**
   * `configure` only logs: a pack filter with `:one_field` and no
   * `pack_from_field` still runs, and packs `nil` (the record's value under
   * a `nil` key).
   */
  lemma MissingFromFieldPacksNull(c: Config, codec: Codec, record: Record)
    requires c.mode == Packing && c.packMode == OneField && c.packFromField.None? && !c.packRemoveSource
    ensures PackFromFieldMissing in Configure(c)
    ensures Filter(c, codec, record) ==
      match codec.encode(Null, c.secret, c.packHmac)
      case None => None
      case Some(token) => Some(record + map[c.packToField := Str(token)])
  {
  }

  /**
   * Packing `user` and `action` of `{"user": "alice", "action": "login",
   * "ip": "1.2.3.4"}` into `jwt_packed`: the corrected pack adds the token
   * of the two fields and keeps the record; as written the record is dropped.
   */
  lemma PackUserActionExample(c: Config, codec: Codec)
    requires c.mode == Packing && c.packMode == Fields && c.packFields == ["user", "action"]
    requires c.packToField == "jwt_packed" && !c.packRemoveSource
    requires codec.encode(Hash(map["user" := Str("alice"), "action" := Str("login")]), c.secret, c.packHmac).Some?
    ensures var record := map["user" := Str("alice"), "action" := Str("login"), "ip" := Str("1.2.3.4")];
      var token := codec.encode(Hash(map["user" := Str("alice"), "action" := Str("login")]), c.secret, c.packHmac).value;
      && FilterIntended(c, codec, record) == Some(record + map["jwt_packed" := Str(token)])
      && Filter(c, codec, record) == None
  {
    var record := map["user" := Str("alice"), "action" := Str("login"), "ip" := Str("1.2.3.4")];
    var picked := HashPick(record, c.packFields);
    assert picked.Keys == {"user", "action"};
    assert picked == map["user" := Str("alice"), "action" := Str("login")];
  }
}
