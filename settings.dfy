/**
 * The filter's configuration (its `config_param` declarations) and the
 * diagnostics `configure` logs about it.
 */
module Settings {
  import opened Wrappers
  import opened JwtGem

  /** `mode`: `:pack` or `:unpack`. */
  datatype Mode = Packing | Unpacking

  /** `unpack_mode`: `:field`, `:merge`, `:replace` or `:record`. */
  datatype UnpackMode = ToField | Merge | Replace | ToRecord

  /** `unpack_verify`: `:no`, `:mark` or `:warn`. */
  datatype Verify = No | Mark | Warn

  /** `pack_mode`: `:record`, `:fields` or `:one_field`. */
  datatype PackMode = WholeRecord | Fields | OneField

  /** The parsed parameters, read-only once the filter is configured; `nil` defaults are None. */
  datatype Config = Config(
    mode: Mode,
    secret: Option<string>,
    unpackMode: UnpackMode,
    unpackFromField: string,
    unpackToField: string,
    unpackFields: seq<string>,
    unpackVerify: Verify,
    packHmac: Hmac,
    packMode: PackMode,
    packFields: seq<string>,
    packFromField: Option<string>,
    packToField: string,
    packRemoveSource: bool)

  /** The error lines `configure` can log. */
  datatype Diagnostic =
    | PackSecretMissing     // "Set a HMAC secret to pack JWTs."
    | PackFromFieldMissing  // "Please specify the field you want to pack."
    | PackFieldsMissing     // "Please specify the fields you want to pack."
    | VerifySecretMissing   // "Cannot verify records without a secret."

  /** Ruby's `secret.to_s.empty?`: `nil` and the empty string both count as blank. */
  predicate Blank(secret: Option<string>) {
    secret.None? || secret.value == ""
  }

  /** Whether `unpack` asks the gem to check signatures (`unpack_verify != :no`). */
  predicate Verifies(c: Config) {
    c.unpackVerify != No
  }

  /**
   * `configure`: the diagnostics it logs, in order. It never rejects a
   * setting; every Config is used as it is.
   */
  function Configure(c: Config): (log: seq<Diagnostic>)
    ensures PackSecretMissing in log <==> c.mode == Packing && c.secret.None?
    ensures PackFromFieldMissing in log <==> c.mode == Packing && c.packMode == OneField && c.packFromField.None?
    ensures PackFieldsMissing in log <==> c.mode == Packing && c.packMode == Fields && |c.packFields| == 0
    ensures VerifySecretMissing in log <==> c.mode == Unpacking && Verifies(c) && Blank(c.secret)
    ensures |log| <= 2 && forall i, j :: 0 <= i < j < |log| ==> log[i] != log[j]
  {
    match c.mode
    case Packing =>
      (if c.secret.None? then [PackSecretMissing] else [])
      + (if c.packMode == OneField && c.packFromField.None? then [PackFromFieldMissing]
         else if c.packMode == Fields && |c.packFields| == 0 then [PackFieldsMissing]
         else [])
    case Unpacking =>
      if Verifies(c) && Blank(c.secret) then [VerifySecretMissing] else []
  }

  /**
   * The settings the filter needs to do its work: a secret to sign with,
   * a field or a non-empty field list to pack, and a non-blank secret to
   * verify with.
   */
  ghost predicate Consistent(c: Config) {
    match c.mode
    case Packing =>
      && c.secret.Some?
      && (c.packMode == OneField ==> c.packFromField.Some?)
      && (c.packMode == Fields ==> c.packFields != [])
    case Unpacking =>
      Verifies(c) ==> c.secret.Some? && c.secret.value != ""
  }

  /** `configure` stays silent exactly on consistent settings. */
  lemma ConfigureSilentIffConsistent(c: Config)
    ensures Configure(c) == [] <==> Consistent(c)
  {
  }

  /** The defaults of the `config_param` declarations, for the given mode. */
  function Defaults(mode: Mode): (c: Config)
    ensures c.mode == mode
    ensures Configure(c) == if mode == Packing then [PackSecretMissing] else []
  {
    Config(
      mode := mode,
      secret := None,
      unpackMode := ToField,
      unpackFromField := "jwt",
      unpackToField := "jwt_unpacked",
      unpackFields := [],
      unpackVerify := No,
      packHmac := HS256,
      packMode := WholeRecord,
      packFields := [],
      packFromField := None,
      packToField := "jwt_packed",
      packRemoveSource := false)
  }
}
