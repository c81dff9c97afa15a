# fluent-plugin-jwt-filter, modelled in Dafny

`Fluent::Plugin::JwtFilter` is a Fluentd filter. It turns an event record
(a hash from field names to JSON values) into an HMAC-signed JSON Web Token
(RFC 7519, signed as in RFC 7515), and turns such a token back into fields.
In `pack` mode the filter is meant to sign:

- the whole record (`pack_mode :record`);
- named fields (`:fields`);
- one field's value (`:one_field`).

The token is stored under `pack_to_field`. With `pack_remove_source` set,
the packed fields are meant to be removed from the record before the
token is added. As written, two undefined names change this (see
"## Findings"):

- `:fields` drops every record;
- `pack_remove_source` removes the source, after signing, only under
  `:record` (the residual is then `{}`), and drops every record under
  `:one_field`.

The model has both the as-written pack side (`Packer.Pack`) and the
corrected one (`Packer.PackIntended`).

In `unpack` mode the filter decodes the token held in `unpack_from_field`.
It verifies the signature unless `unpack_verify` is `:no`. When
verification fails, it falls back to an unverified decode and marks the
result with `jwt_valid: false`. It keeps the payload fields listed in
`unpack_fields` (all of them when the list is empty). It then places them
by `unpack_mode`:

- `:field` stores them under `unpack_to_field`;
- `:merge` merges them into the record;
- `:replace` stores them under `unpack_from_field`;
- `:record` makes them the whole record.

Any StandardError is rescued, and the filter then drops the record.

The model is pure, like the source:

- records are `map<string, Value>`;
- the configuration is an immutable `Config` datatype;
- every step is a function whose result is an `Option` (None means the
  record is dropped) or a `Result` that carries the Ruby exception raised.

The two calls into the `jwt` gem, `JWT.encode` and `JWT.decode`, are
parameters of every operation: the `Codec` datatype. What the gem does
with them is stated as predicates that lemmas take as hypotheses: an
unverified decode returns the Hash payload a token was made from
(`UnverifiedRoundTrips`) and never raises JWT::VerificationError
(`SkipsVerification`); a verifying decode accepts the token made from one
given payload (`VerifiedDecodeAccepts`).

Modules:

- `Wrappers`: `Option` and `Result`.
- `RubyData`: values, records and the rescued exceptions.
- `HashOps`: `Array#&` and `hash_pick`.
- `JwtGem`: the gem interface.
- `Settings`: the parameters, their defaults and `configure`.
- `Packer`: the pack side.
- `Unpacker`: the unpack side.
- `JwtFilter`: `filter`, plus the pack-then-unpack round trip.

## Model

| member | source | states |
|---|---|---|
| `HashOps.Intersection` | lib/fluent/plugin/filter_jwt.rb:41 | `keys & hash.keys` holds exactly the requested keys that are present, each once |
| `HashOps.IntersectionKeepsOrder` | lib/fluent/plugin/filter_jwt.rb:41 | `keys & hash.keys` lists the keys in the order of their first occurrence in `keys` |
| `HashOps.HashPick` | lib/fluent/plugin/filter_jwt.rb:40-43 | `hash_pick` keeps a key iff it is requested and present in the hash, with the hash's value; requested keys the hash lacks are dropped silently |
| `HashOps.HashPickOrder` | lib/fluent/plugin/filter_jwt.rb:40-43 | the hash `hash_pick` builds enumerates exactly its keys, without repeats, in the order of the `keys` argument |
| `Settings.Configure` | lib/fluent/plugin/filter_jwt.rb:50-70 | each diagnostic is logged iff its condition holds: pack mode flags a `nil` secret only (an empty string passes); `:one_field` without `pack_from_field`; `:fields` with an empty list; unpack mode with verification flags a `nil` or empty secret. At most two lines, no repeats |
| `Settings.ConfigureSilentIffConsistent` | lib/fluent/plugin/filter_jwt.rb:54-69 | `configure` logs nothing exactly when the settings are consistent: pack mode has a secret and a field or field list as its `pack_mode` needs, and verification has a non-blank secret |
| `Settings.Defaults` | lib/fluent/plugin/filter_jwt.rb:22-38 | the declared defaults draw only the missing-secret diagnostic in pack mode and none in unpack mode |
| `Packer.SourceFields` | lib/fluent/plugin/filter_jwt.rb:88-94 | as written: the whole record under `:record`, the value of `pack_from_field` (or `nil`) under `:one_field`, and a NameError under `:fields` |
| `Packer.FilterFields` | lib/fluent/plugin/filter_jwt.rb:96-104 | as written: the record unchanged unless `pack_remove_source`; `{}` under `:record`; a NameError under `:fields` and `:one_field` |
| `Packer.Pack` | lib/fluent/plugin/filter_jwt.rb:107-120 | as written: dropped under `:fields`, and under `pack_remove_source` unless `:record`; otherwise produced iff the gem signs the source fields; the token sits under `pack_to_field`; every other residual key is unchanged; with `pack_remove_source` only the token remains |
| `Packer.SourceFieldsIntended` | lib/fluent/plugin/filter_jwt.rb:88-94 | corrected `source_fields`: under `:fields` the payload holds exactly the requested fields the record has, with their values |
| `Packer.FilterFieldsIntended` | lib/fluent/plugin/filter_jwt.rb:96-104 | corrected `filter_fields`: the record minus exactly the fields that went into the token, the other values unchanged |
| `Packer.PackIntended` | lib/fluent/plugin/filter_jwt.rb:107-120 | corrected `pack`: produced iff the gem signs the payload; the token sits under `pack_to_field`; every other key is kept iff it was not removed, with its value |
| `Packer.FieldsModeDropsEveryRecord` | lib/fluent/plugin/filter_jwt.rb:91 | as written, `:fields` drops every record, while the corrected pack keeps it whenever the gem can sign the picked fields |
| `Packer.RemoveSourceDropsRecord` | lib/fluent/plugin/filter_jwt.rb:101-102 | as written, `pack_remove_source` with `:one_field` drops every record, while the corrected pack keeps every other field with its value and removes the packed field |
| `Unpacker.JwtUnpack` | lib/fluent/plugin/filter_jwt.rb:122-131 | `valid` is true iff the first decode succeeds; it is false iff that decode raises JWT::VerificationError and the keyless unverified decode succeeds, whose payload is then used; any other error propagates |
| `Unpacker.UnverifiedIsValid` | lib/fluent/plugin/filter_jwt.rb:122-131 | with `verify` false, and a gem that checks no signature unless asked, `valid` is always true |
| `Unpacker.ExtractFields` | lib/fluent/plugin/filter_jwt.rb:133-140 | `jwt_valid` always equals the validity flag, overriding a payload key of that name; an empty `unpack_fields` keeps every payload key, otherwise only the named ones; a payload that is not a Hash raises |
| `Unpacker.ExtractFieldsExample` | lib/fluent/plugin/filter_jwt.rb:133-140 | selecting `a`, `c` from `{"a": 1, "b": 2}` gives `{"a": 1, "jwt_valid": true}` |
| `Unpacker.UnpackTo` | lib/fluent/plugin/filter_jwt.rb:142-153 | `:field` and `:replace` set only `unpack_to_field` or `unpack_from_field` and keep all other keys; `:merge` is a shallow union in which extracted keys win; `:record` returns the extracted mapping |
| `Unpacker.Unpack` | lib/fluent/plugin/filter_jwt.rb:155-182 | a record without `unpack_from_field` is returned unchanged; otherwise a record is produced iff `jwt_unpack` succeeds with a Hash payload; a decode failure drops it |
| `Unpacker.UnpackMarksValidity` | lib/fluent/plugin/filter_jwt.rb:155-182 | every unpacked record carries `jwt_valid` where `unpack_mode` places it, false exactly when the first decode raised JWT::VerificationError |
| `Unpacker.UnverifiedUnpackMarkedValid` | lib/fluent/plugin/filter_jwt.rb:163 | under `unpack_verify :no`, every unpacked record is marked valid |
| `Unpacker.NoVerifyIgnoresSignature` | lib/fluent/plugin/filter_jwt.rb:163 | under `:no` no verifying decode is consulted: gems that agree on unverified decodes give the same output |
| `Unpacker.VerifyConsultsOnlyTheTwoDecodes` | lib/fluent/plugin/filter_jwt.rb:122-131 | under `:mark`/`:warn` only the verifying decode and the keyless fallback decode determine the output |
| `Unpacker.MarkAndWarnAgree` | lib/fluent/plugin/filter_jwt.rb:163-170 | `:mark` and `:warn` produce identical output records |
| `JwtFilter.Filter` | lib/fluent/plugin/filter_jwt.rb:80-86 | `filter` drops every record under pack `:fields`, puts a token string under `pack_to_field` when it packs, passes a record without the token field through unpack unchanged, and puts `jwt_valid` at the top of a merged record |
| `JwtFilter.FilterIntended` | lib/fluent/plugin/filter_jwt.rb:80-86 | with the corrected pack side, packing succeeds iff the gem signs the payload, and unpacking is unchanged |
| `JwtFilter.RoundTripToRecord` | lib/fluent/plugin/filter_jwt.rb:107-182 | when unverified decodes return the encoded payload (and, under `:mark`/`:warn`, the verifying decode accepts it), pack (`:record`/`:fields`) then unpack `:record` returns exactly the packed fields that `unpack_fields` selects, with their original values, plus `jwt_valid: true` |
| `JwtFilter.RoundTripMerge` | lib/fluent/plugin/filter_jwt.rb:107-182 | under the same gem hypotheses, pack without removal then unpack `:merge` keeps every original field, adds `jwt_valid: true`, and keeps the token unless a packed field or the marker has its name |
| `JwtFilter.MissingFromFieldPacksNull` | lib/fluent/plugin/filter_jwt.rb:54-94 | `configure` does not reject settings: `:one_field` without `pack_from_field` is logged, yet the filter still runs and signs `nil` |
| `JwtFilter.PackUserActionExample` | lib/fluent/plugin/filter_jwt.rb:80-120 | packing `user`, `action` of a three-field record adds one `jwt_packed` token of those two fields with the corrected pack, and drops the record as written |

## Left out

- `JWT.encode` and `JWT.decode` (lib/fluent/plugin/filter_jwt.rb:111, 125, 128): base64url, JSON and HMAC work are not modelled. They are the `Codec` parameters. The JWT header that `JWT.decode` returns is not modelled. Which errors the gem raises for which inputs depends on its version; `UnverifiedRoundTrips`, `VerifiedDecodeAccepts` and `SkipsVerification` are hypotheses of the lemmas that use them, never facts.
- Exceptions outside StandardError (a ScriptError such as NotImplementedError, which the gem raises for an unsupported signing method) are not rescued at lines 117 and 179 and propagate out of `filter`; the model does not express them: every gem failure is a rescued StandardError.
- JwtFilter.RoundTripToRecord: under `:mark` or `:warn` it assumes the verifying decode accepts the packed payload; the gem's `exp`/`nbf` claim checks depend on the clock, which is not modelled, so a payload with an expired claim is outside the lemma.
- JwtFilter.RoundTripMerge: the same assumption as RoundTripToRecord under `:mark` or `:warn`, for the same reason.
- Logging: every `log.*` call is left out, since it only writes diagnostics. `configure` is modelled by the list of error lines it logs. The warning at lines 166-170 formats `@msg_raw`, an instance variable that is never set, so it logs no message text. This affects only the log.
- Fluentd plumbing: `register_filter`, the `config_param` parsing, `start`, `shutdown` and the tag and time arguments of `filter`. Fluentd's parser rejects values outside the declared enums, so the `not_supported_error` branches cannot be reached, and the enums have no other case.
- Hash order: records are Dafny maps. Key order is modelled only for `hash_pick` (`HashOps.HashPickOrder`). The order that `merge` and `reject` leave is not modelled.
- Values: floating-point numbers and non-JSON Ruby objects are not modelled; numbers are integers.
- `JSON::ParserError` (line 176) is folded into the gem's other decode failures. Both rescues drop the record.
- A rescue returns whatever `log.debug_backtrace` returns. It is treated as `nil`, which makes Fluentd drop the record.
- JWE and RSA/EC keys: the source has no code for them.

Points of the code's behaviour worth stating plainly:

- `configure` only logs; it never rejects a configuration.
- There is no discard-on-failure policy: `:warn` only adds a log line (`Unpacker.MarkAndWarnAgree`).
- The validity marker is named `jwt_valid`.
- The token is always stored under `pack_to_field`; there are no other pack destinations.
- With the corrected `:fields` pack (as written it drops the record), the fields named in `pack_fields` are picked in the order of that list, not the record's order.

## Findings

| source | as written | input that shows it | evidently intended | confidence | as-written member | corrected member |
|---|---|---|---|---|---|---|
| lib/fluent/plugin/filter_jwt.rb:91 | `hash_pick(records, @pack_fields)` names the undefined local `records` and passes the field list without a splat | `mode pack`, `pack_mode fields`, any record: NameError, the record is dropped | `hash_pick(record, *@pack_fields)` | high, not executed | `Packer.FieldsModeDropsEveryRecord` | `Packer.SourceFieldsIntended` |
| lib/fluent/plugin/filter_jwt.rb:101-102 | `rec.reject { ... }` names the undefined local `rec` | `mode pack`, `pack_mode one_field`, `pack_remove_source true`, any record: NameError, the record is dropped | `record.reject { ... }` | high, not executed | `Packer.RemoveSourceDropsRecord` | `Packer.FilterFieldsIntended` |
