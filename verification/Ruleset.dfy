/** The ruleset payload's types (ruleset.go, envelope.go), and the library code the SDK calls
    but does not contain, as a record of deterministic functions about which nothing is known. */
module Ruleset {
  import opened Wrappers

  /** One ANDed test inside a rule. */
  datatype FlagCondition = FlagCondition(tagKey: string, operator: string, value: string)

  /** A targeting rule. Its `serve` is undecoded JSON: what it spells depends on the flag's kind. */
  datatype FlagRule = FlagRule(conditions: seq<FlagCondition>, serve: string, rollout: Option<int>)

  datatype FlagConfig = FlagConfig(kind: string, default: string, rules: seq<FlagRule>)

  type Flags = map<string, FlagConfig>

  datatype RulesetPayload = RulesetPayload(
    sv: int, environment: string, issuedAt: string, expiresAt: string, flags: Flags)

  datatype WireEnvelope = WireEnvelope(payload: string, sig: Option<string>)

  /** A time, in nanoseconds since some fixed origin. */
  type Instant = int

  datatype Value = Bool(b: bool) | Str(s: string) | Num(n: real)

  /** JSON, base64url, SHA-256, Ed25519 and RFC 3339 as uninterpreted deterministic functions. */
  datatype Library = Library(
    trimSpace: string -> string,
    unmarshalBool: string -> Option<bool>,
    unmarshalString: string -> Option<string>,
    unmarshalNumber: string -> Option<real>,
    unmarshalEnvelope: string -> Option<WireEnvelope>,
    unmarshalPayload: string -> Option<RulesetPayload>,
    decodeBase64: string -> Option<string>,
    sha256Head: string -> nat,
    verifyEd25519: (string, string, string) -> bool,
    parseRfc3339: string -> Option<Instant>)

  const KIND_BOOLEAN := "boolean"
  const KIND_STRING := "string"
  const KIND_NUMBER := "number"

  predicate KnownKind(kind: string) {
    kind == KIND_BOOLEAN || kind == KIND_STRING || kind == KIND_NUMBER
  }

  /** Whether a Go type assertion for `kind` on this value succeeds. */
  predicate HasKind(value: Value, kind: string) {
    match value
    case Bool(_) => kind == KIND_BOOLEAN
    case Str(_) => kind == KIND_STRING
    case Num(_) => kind == KIND_NUMBER
  }

  /** An absent field, an explicit null, a value of the wrong kind and an unknown kind are all
      "no value". */
  function DecodeValue(lib: Library, raw: string, kind: string): (r: Option<Value>)
    ensures r.Some? ==> KnownKind(kind) && HasKind(r.value, kind)
    ensures r.Some? ==> raw != "" && lib.trimSpace(raw) != "null"
  {
    if |raw| == 0 || lib.trimSpace(raw) == "null" then None
    else if kind == KIND_BOOLEAN then
      match lib.unmarshalBool(raw) case Some(v) => Some(Bool(v)) case None => None
    else if kind == KIND_STRING then
      match lib.unmarshalString(raw) case Some(v) => Some(Str(v)) case None => None
    else if kind == KIND_NUMBER then
      match lib.unmarshalNumber(raw) case Some(v) => Some(Num(v)) case None => None
    else None
  }

  /** Neither absent nor an explicit null. */
  predicate IsPresent(lib: Library, raw: string) { raw != "" && lib.trimSpace(raw) != "null" }

  /** The raw JSON is there and spells this value. */
  predicate Spells(lib: Library, raw: string, value: Value) {
    IsPresent(lib, raw) &&
    match value
    case Bool(b) => lib.unmarshalBool(raw) == Some(b)
    case Str(s) => lib.unmarshalString(raw) == Some(s)
    case Num(n) => lib.unmarshalNumber(raw) == Some(n)
  }

  /** A raw value decodes to exactly what its kind's decoder says, when it is present at all. */
  lemma DecodeCharacterised(lib: Library, raw: string, kind: string)
    ensures forall b :: DecodeValue(lib, raw, kind) == Some(Bool(b)) <==>
              IsPresent(lib, raw) && kind == "boolean" && lib.unmarshalBool(raw) == Some(b)
    ensures forall s :: DecodeValue(lib, raw, kind) == Some(Str(s)) <==>
              IsPresent(lib, raw) && kind == "string" && lib.unmarshalString(raw) == Some(s)
    ensures forall n :: DecodeValue(lib, raw, kind) == Some(Num(n)) <==>
              IsPresent(lib, raw) && kind == "number" && lib.unmarshalNumber(raw) == Some(n)
  {
    assert KIND_STRING[0] == 's' && KIND_NUMBER[0] == 'n';
  }
}
