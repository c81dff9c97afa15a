/**
 * The pack side of the filter: `source_fields`, `filter_fields` and
 * `pack`, as written, and the corrected definitions the rest of the model
 * uses for the round trip.
 */
module Packer {
  import opened Wrappers
  import opened RubyData
  import opened HashOps
  import opened JwtGem
  import opened Settings

  /**
   * `source_fields` as written. Under `:fields` it names the undefined
   * local `records`, so it raises NameError before `hash_pick` runs.
   */
  function SourceFields(c: Config, record: Record): (r: Result<Value, Raised>)
    ensures r.Ok? <==> c.packMode != Fields
    ensures c.packMode == Fields ==> r.error.NameError?
    ensures c.packMode == WholeRecord ==> r == Ok(Hash(record))
    ensures c.packMode == OneField && c.packFromField.Some? && c.packFromField.value in record ==>
      r == Ok(record[c.packFromField.value])
    ensures c.packMode == OneField && (c.packFromField.None? || c.packFromField.value !in record) ==>
      r == Ok(Null)
  {
    match c.packMode
    case WholeRecord => Ok(Hash(record))
    case Fields => Err(NameError("records"))
    case OneField => Ok(Fetch(record, c.packFromField))
  }

  /**
   * `filter_fields` as written: the record itself unless
   * `pack_remove_source` is set; then `{}` under `:record`, and under
   * `:fields` and `:one_field` a NameError for the undefined local `rec`.
   */
  function FilterFields(c: Config, record: Record): (r: Result<Record, Raised>)
    ensures !c.packRemoveSource ==> r == Ok(record)
    ensures c.packRemoveSource && c.packMode == WholeRecord ==> r == Ok(map[])
    ensures c.packRemoveSource && c.packMode != WholeRecord ==> r.Err? && r.error.NameError?
  {
    if !c.packRemoveSource then Ok(record)
    else
      match c.packMode
      case WholeRecord => Ok(map[])
      case Fields => Err(NameError("rec"))
      case OneField => Err(NameError("rec"))
  }

  /**
   * `pack` as written: the residual record merged with one entry,
   * `pack_to_field => token`. Whatever raises on the way is rescued and
   * the record is dropped (None).
   */
  function Pack(c: Config, codec: Codec, record: Record): (r: Option<Record>)
    ensures c.packMode == Fields ==> r == None
    ensures c.packRemoveSource && c.packMode != WholeRecord ==> r == None
    ensures r.Some? <==>
      && c.packMode != Fields
      && (c.packRemoveSource ==> c.packMode == WholeRecord)
      && codec.encode(SourceFields(c, record).value, c.secret, c.packHmac).Some?
    ensures r.Some? ==>
      && c.packToField in r.value
      && r.value[c.packToField] == Str(codec.encode(SourceFields(c, record).value, c.secret, c.packHmac).value)
    ensures r.Some? && !c.packRemoveSource ==>
      && r.value.Keys == record.Keys + {c.packToField}
      && forall k :: k in record && k != c.packToField ==> r.value[k] == record[k]
    ensures r.Some? && c.packRemoveSource ==> r.value.Keys == {c.packToField}
  {
    match SourceFields(c, record)
    case Err(_) => None
    case Ok(fields) =>
      match codec.encode(fields, c.secret, c.packHmac)
      case None => None
      case Some(token) =>
        match FilterFields(c, record)
        case Err(_) => None
        case Ok(residual) => Some(residual + map[c.packToField := Str(token)])
  }

  /** Whether the corrected `filter_fields` removes field `k` from the residual record. */
  predicate Removed(c: Config, k: string) {
    && c.packRemoveSource
    && match c.packMode
       case WholeRecord => true
       case Fields => k in c.packFields
       case OneField => c.packFromField == Some(k)
  }

  /**
   * `source_fields` as evidently intended: `hash_pick(record, *@pack_fields)`
   * under `:fields`, so the payload holds the requested fields the record has.
   */
  function SourceFieldsIntended(c: Config, record: Record): (r: Value)
    ensures c.packMode == WholeRecord ==> r == Hash(record)
    ensures c.packMode == Fields ==>
      && r.Hash?
      && (forall k :: k in r.fields <==> k in record && k in c.packFields)
      && (forall k :: k in r.fields ==> r.fields[k] == record[k])
    ensures c.packMode == OneField ==> r == Fetch(record, c.packFromField)
  {
    match c.packMode
    case WholeRecord => Hash(record)
    case Fields => Hash(HashPick(record, c.packFields))
    case OneField => Fetch(record, c.packFromField)
  }

  /**
   * `filter_fields` as evidently intended, rejecting from `record` rather
   * than from `rec`: the record without the fields that went into the token.
   */
  function FilterFieldsIntended(c: Config, record: Record): (r: Record)
    ensures forall k :: k in r <==> k in record && !Removed(c, k)
    ensures forall k :: k in r ==> r[k] == record[k]
  {
    if !c.packRemoveSource then record
    else
      match c.packMode
      case WholeRecord => map[]
      case Fields => map k | k in record && k !in c.packFields :: record[k]
      case OneField => map k | k in record && Some(k) != c.packFromField :: record[k]
  }

  /** `pack` over the corrected `source_fields` and `filter_fields`. */
  function PackIntended(c: Config, codec: Codec, record: Record): (r: Option<Record>)
    ensures r.Some? <==> codec.encode(SourceFieldsIntended(c, record), c.secret, c.packHmac).Some?
    ensures r.Some? ==>
      && c.packToField in r.value
      && r.value[c.packToField] == Str(codec.encode(SourceFieldsIntended(c, record), c.secret, c.packHmac).value)
    ensures r.Some? ==> forall k :: k != c.packToField ==>
      && (k in r.value <==> k in record && !Removed(c, k))
      && (k in r.value ==> r.value[k] == record[k])
  {
    match codec.encode(SourceFieldsIntended(c, record), c.secret, c.packHmac)
    case None => None
    case Some(token) => Some(FilterFieldsIntended(c, record) + map[c.packToField := Str(token)])
  }

  /**
   * Finding: as written, `:fields` drops every record, although the
   * corrected pack produces one whenever the gem can sign the picked fields.
   */
  lemma FieldsModeDropsEveryRecord(c: Config, codec: Codec, record: Record)
    requires c.packMode == Fields
    ensures Pack(c, codec, record) == None
    ensures codec.encode(Hash(HashPick(record, c.packFields)), c.secret, c.packHmac).Some? ==>
      PackIntended(c, codec, record).Some?
  {
  }

  /**
   * Finding: as written, `pack_remove_source` with `:one_field` drops
   * every record (with `:fields` the undefined `records` already does),
   * although the corrected pack keeps the record minus the packed field.
   */
  lemma RemoveSourceDropsRecord(c: Config, codec: Codec, record: Record)
    requires c.packRemoveSource && c.packMode == OneField
    ensures Pack(c, codec, record) == None
    ensures codec.encode(Fetch(record, c.packFromField), c.secret, c.packHmac).Some? ==>
      && PackIntended(c, codec, record).Some?
      && (forall k :: k in record && Some(k) != c.packFromField ==> k in PackIntended(c, codec, record).value)
      && (forall k :: k in record && Some(k) != c.packFromField && k != c.packToField ==>
            PackIntended(c, codec, record).value[k] == record[k])
      && (c.packFromField.Some? && c.packFromField.value != c.packToField ==>
            c.packFromField.value !in PackIntended(c, codec, record).value)
  {
  }
}
