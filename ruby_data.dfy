/**
 * The data the filter works on: JSON-compatible values, records (Ruby
 * hashes from field name to value) and the exceptions its rescue clauses
 * catch.
 */
module RubyData {
  import opened Wrappers

  /** A JSON-compatible value held in a record or carried in a token payload. */
  datatype Value =
    | Null
    | Bool(b: bool)
    | Int(i: int)
    | Str(s: string)
    | Array(items: seq<Value>)
    | Hash(fields: map<string, Value>)

  /** A Fluentd event record: field name to value. */
  type Record = map<string, Value>

  /** The StandardError subclasses that can reach the rescue clauses of `pack` and `unpack`. */
  datatype Raised =
    | NameError(name: string)      // an undefined local variable or method
    | NoMethodError(name: string)  // a Hash method sent to a payload that is not a Hash
    | DecodeError                  // JWT.decode raised anything but JWT::VerificationError
    | VerificationError            // JWT::VerificationError raised where nothing rescues it

  /** Ruby's `hash[key]`: the value stored under `key`, or `nil` when there is none (a `nil` key is never stored). */
  function Fetch(hash: Record, key: Option<string>): (v: Value)
    ensures key.Some? && key.value in hash ==> v == hash[key.value]
    ensures key.None? || key.value !in hash ==> v == Null
  {
    if key.Some? && key.value in hash then hash[key.value] else Null
  }
}
