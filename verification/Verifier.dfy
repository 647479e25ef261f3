/** Which envelopes are accepted (verifier.go, envelope.go): decoding, the signature field, the ordered
    checks and what they amount to, and how live and cache verdicts differ. */
module Verifier {
  import opened Wrappers
  import opened Ruleset
  import Text

  const SUPPORTED_CONTRACT_VERSION := 1
  const SECOND: int := 1_000_000_000
  const CLOCK_SKEW_TOLERANCE: int := 300 * SECOND
  const PUBLIC_KEY_SIZE := 32
  const ED25519 := "ed25519"

  datatype Rejection =
    | MalformedEnvelope | MissingSignature | MalformedSignature | UnsupportedAlgorithm | UnknownKeyId
    | BadSignature | MalformedPayload | UnsupportedVersion | EnvironmentMismatch | Expired | IssuedInTheFuture

  datatype SignaturePolicy = SignaturePolicy(explicit: bool, required: bool, trustedKeys: map<string, string>)

  datatype Expectations = Expectations(environment: string, now: Instant, enforceExpiry: bool)

  /** An accepted envelope keeps the exact bytes it arrived as. */
  datatype Verdict = Accepted(raw: string, payload: RulesetPayload) | Rejected(code: Rejection)

  // ---------------------------------------------------------------- decoding

  function ParseEnvelope(lib: Library, raw: string): Option<(WireEnvelope, string)> {
    match lib.unmarshalEnvelope(raw)
    case None => None
    case Some(envelope) =>
      if envelope.payload == "" then None
      else
        match lib.decodeBase64(envelope.payload)
        case None => None
        case Some(bytes) => Some((envelope, bytes))
  }

  predicate KnownKinds(flags: Flags) {
    forall key | key in flags :: KnownKind(flags[key].kind)
  }

  predicate RequiredFields(payload: RulesetPayload) {
    payload.environment != "" && payload.issuedAt != "" && payload.expiresAt != ""
  }

  function ParsePayload(lib: Library, bytes: string): (r: Option<RulesetPayload>)
    ensures r.Some? ==> KnownKinds(r.value.flags) && RequiredFields(r.value)
  {
    match lib.unmarshalPayload(bytes)
    case None => None
    case Some(payload) => if RequiredFields(payload) && KnownKinds(payload.flags) then Some(payload) else None
  }

  /** What decoding accepts: a JSON envelope with a non-empty base64url payload; a JSON payload with
      its binding fields and, over all flags, only known kinds. */
  lemma DecodingCharacterised(lib: Library, raw: string, bytes: string)
    ensures forall e, b :: ParseEnvelope(lib, raw) == Some((e, b)) <==>
              lib.unmarshalEnvelope(raw) == Some(e) && e.payload != "" && lib.decodeBase64(e.payload) == Some(b)
    ensures forall p :: ParsePayload(lib, bytes) == Some(p) <==>
              && lib.unmarshalPayload(bytes) == Some(p)
              && p.environment != "" && p.issuedAt != "" && p.expiresAt != ""
              && forall key | key in p.flags :: p.flags[key].kind in {"boolean", "string", "number"}
  {
    forall p
      ensures RequiredFields(p) && KnownKinds(p.flags) <==>
                && p.environment != "" && p.issuedAt != "" && p.expiresAt != ""
                && forall key | key in p.flags :: p.flags[key].kind in {"boolean", "string", "number"}
    {
    }
  }

  /** envelope.go's loop over the flags map: one unknown kind rejects the payload whole. */
  method ParsePayloadLoop(lib: Library, bytes: string) returns (r: Option<RulesetPayload>)
    ensures r == ParsePayload(lib, bytes)
  {
    var decoded := lib.unmarshalPayload(bytes);
    if decoded.None? {
      return None;
    }
    var payload := decoded.value;
    if payload.environment == "" || payload.issuedAt == "" || payload.expiresAt == "" {
      return None;
    }
    var remaining := payload.flags.Keys;
    while remaining != {}
      invariant remaining <= payload.flags.Keys
      invariant forall key | key in payload.flags && key !in remaining :: KnownKind(payload.flags[key].kind)
      decreases |remaining|
    {
      var key :| key in remaining;
      if !KnownKind(payload.flags[key].kind) {
        return None;
      }
      remaining := remaining - {key};
    }
    return Some(payload);
  }

  // ---------------------------------------------------------------- the signature field

  /** Index arithmetic that cuts `algorithm:keyID:signature` at the first two colons. */
  function SplitSignature(sig: string): Option<(string, string, string)> {
    var first := Text.Index(sig, ':');
    var offset := if first >= 0 then Text.Index(sig[first + 1..], ':') else -1;
    var second := if offset >= 0 then first + 1 + offset else -1;
    if first < 0 || second < 0 then None
    else Some((sig[..first], sig[first + 1..second], sig[second + 1..]))
  }

  /** The rejection, or None when the signature is accepted. */
  function CheckSignature(
    lib: Library, sig: Option<string>, bytes: string, policy: SignaturePolicy): Option<Rejection> {
    if sig.None? || sig.value == "" then Some(MissingSignature)
    else
      match SplitSignature(sig.value)
      case None => Some(MalformedSignature)
      case Some((algorithm, keyId, signature)) =>
        if algorithm != ED25519 then Some(UnsupportedAlgorithm)
        else if signature == "" then Some(MalformedSignature)
        else
          var decoded := lib.decodeBase64(signature);
          if decoded.None? then Some(MalformedSignature)
          else if keyId !in policy.trustedKeys || |policy.trustedKeys[keyId]| != PUBLIC_KEY_SIZE then Some(UnknownKeyId)
          else if !lib.verifyEd25519(policy.trustedKeys[keyId], bytes, decoded.value) then Some(BadSignature)
          else None
  }

  // ---------------------------------------------------------------- the decision

  /** `time.Time.Sub`, which saturates at the ends of the signed 64-bit range. */
  function Sub(t: Instant, u: Instant): int {
    var d := t - u;
    if d > 0x7fff_ffff_ffff_ffff then 0x7fff_ffff_ffff_ffff
    else if d < -0x8000_0000_0000_0000 then -0x8000_0000_0000_0000
    else d
  }

  /** The checks on what the payload claims; the rejection, or None when all pass. */
  function CheckClaims(lib: Library, payload: RulesetPayload, wanted: Expectations): Option<Rejection> {
    if payload.sv != SUPPORTED_CONTRACT_VERSION then Some(UnsupportedVersion)
    else if payload.environment != wanted.environment then Some(EnvironmentMismatch)
    else
      var issuedAt, expiresAt := lib.parseRfc3339(payload.issuedAt), lib.parseRfc3339(payload.expiresAt);
      if issuedAt.None? || expiresAt.None? then Some(MalformedPayload)
      else if Sub(issuedAt.value, wanted.now) > CLOCK_SKEW_TOLERANCE then Some(IssuedInTheFuture)
      else if wanted.enforceExpiry && Sub(wanted.now, expiresAt.value) > CLOCK_SKEW_TOLERANCE then Some(Expired)
      else None
  }

  function VerifyEnvelope(lib: Library, raw: string, policy: SignaturePolicy, wanted: Expectations): Verdict {
    match ParseEnvelope(lib, raw)
    case None => Rejected(MalformedEnvelope)
    case Some((envelope, bytes)) =>
      var signature := if policy.required then CheckSignature(lib, envelope.sig, bytes, policy) else None;
      if signature.Some? then Rejected(signature.value)
      else
        match ParsePayload(lib, bytes)
        case None => Rejected(MalformedPayload)
        case Some(payload) =>
          var claims := CheckClaims(lib, payload, wanted);
          if claims.Some? then Rejected(claims.value) else Accepted(raw, payload)
  }

  // ------------------------------------------------- the signature field, understood

  /** For every colon-free algorithm and key ID and any signature text, the index arithmetic
      recovers exactly the three parts; it is the split limited to three. */
  lemma SignatureFields(sig: string)
    ensures forall a, k, s | Text.IsThree(sig, ':', a, k, s) :: SplitSignature(sig) == Some((a, k, s))
    ensures SplitSignature(sig).Some? ==>
              var p := SplitSignature(sig).value; Text.IsThree(sig, ':', p.0, p.1, p.2)
    ensures var parts := Text.SplitN(sig, ':', 3);
            SplitSignature(sig) == if |parts| == 3 then Some((parts[0], parts[1], parts[2])) else None
  {
    SplitSignatureIsCut(sig);
    Text.SplitNIsCutTwice(sig, ':');
    Text.SplitNThree(sig, ':');
  }

  lemma SplitSignatureIsCut(sig: string)
    ensures SplitSignature(sig) == Text.CutTwice(sig, ':')
  {
    var first := Text.Index(sig, ':');
    if first >= 0 {
      var tail := sig[first + 1..];
      var offset := Text.Index(tail, ':');
      if offset >= 0 {
        assert tail[..offset] == sig[first + 1..first + 1 + offset];
        assert tail[offset + 1..] == sig[first + 1 + offset + 1..];
      }
    }
  }

  /** Acceptance is exactly: some cut at two colons names Ed25519, a trusted 32-byte key, and a
      non-empty decodable signature that verifies under that key. */
  lemma SignatureAcceptance(lib: Library, sig: Option<string>, bytes: string, policy: SignaturePolicy)
    ensures CheckSignature(lib, sig, bytes, policy).None? <==>
              sig.Some? && exists keyId, signature ::
                && Text.IsThree(sig.value, ':', "ed25519", keyId, signature)
                && VerifiesUnder(lib, policy, keyId, signature, bytes)
  {
    if sig.Some? {
      SignatureFields(sig.value);
    }
  }

  ghost predicate VerifiesUnder(
    lib: Library, policy: SignaturePolicy, keyId: string, signature: string, bytes: string) {
    && signature != "" && lib.decodeBase64(signature).Some?
    && keyId in policy.trustedKeys && |policy.trustedKeys[keyId]| == 32
    && lib.verifyEd25519(policy.trustedKeys[keyId], bytes, lib.decodeBase64(signature).value)
  }

  /** Entries under other key IDs, well formed or not, never change the verdict. */
  lemma OtherKeysAreIrrelevant(lib: Library, raw: string, keyId: string, policy: SignaturePolicy,
                               extra: map<string, string>, wanted: Expectations)
    requires var e := ParseEnvelope(lib, raw);
             e.Some? && e.value.0.sig.Some? && SplitSignature(e.value.0.sig.value).Some? ==>
               SplitSignature(e.value.0.sig.value).value.1 == keyId
    requires keyId !in extra
    ensures VerifyEnvelope(lib, raw, policy.(trustedKeys := policy.trustedKeys + extra), wanted)
         == VerifyEnvelope(lib, raw, policy, wanted)
  {
    var more := policy.(trustedKeys := policy.trustedKeys + extra);
    var e := ParseEnvelope(lib, raw);
    if e.Some? {
      assert CheckSignature(lib, e.value.0.sig, e.value.1, more)
          == CheckSignature(lib, e.value.0.sig, e.value.1, policy);
    }
  }

  // ------------------------------------------------- the contract's checks, in order

  datatype Check =
    | EnvelopeShape | SignaturePresent | SignatureShape | SignatureAlgorithm | SignatureText | TrustedKey
    | SignatureVerifies | PayloadShape | ContractVersion | SameEnvironment | ReadableTimes
    | NotFromTheFuture | NotExpired

  /** The contract's order. */
  function Position(check: Check): nat {
    match check
    case EnvelopeShape => 0
    case SignaturePresent => 1
    case SignatureShape => 2
    case SignatureAlgorithm => 3
    case SignatureText => 4
    case TrustedKey => 5
    case SignatureVerifies => 6
    case PayloadShape => 7
    case ContractVersion => 8
    case SameEnvironment => 9
    case ReadableTimes => 10
    case NotFromTheFuture => 11
    case NotExpired => 12
  }

  function CodeOf(check: Check): Rejection {
    match check
    case EnvelopeShape => MalformedEnvelope
    case SignaturePresent => MissingSignature
    case SignatureShape => MalformedSignature
    case SignatureAlgorithm => UnsupportedAlgorithm
    case SignatureText => MalformedSignature
    case TrustedKey => UnknownKeyId
    case SignatureVerifies => BadSignature
    case PayloadShape => MalformedPayload
    case ContractVersion => UnsupportedVersion
    case SameEnvironment => EnvironmentMismatch
    case ReadableTimes => MalformedPayload
    case NotFromTheFuture => IssuedInTheFuture
    case NotExpired => Expired
  }

  /** What each check asks of the signature field, without any index arithmetic. */
  ghost predicate SignaturePasses(
    lib: Library, sig: Option<string>, bytes: string, policy: SignaturePolicy, check: Check) {
    sig.Some? && sig.value != "" &&
    (check == SignaturePresent ||
     exists a, k, s :: Text.IsThree(sig.value, ':', a, k, s) &&
       match check
       case SignatureAlgorithm => a == "ed25519"
       case SignatureText => s != "" && lib.decodeBase64(s).Some?
       case TrustedKey => k in policy.trustedKeys && |policy.trustedKeys[k]| == 32
       case SignatureVerifies => VerifiesUnder(lib, policy, k, s, bytes)
       case _ => true)
  }

  /** Times here are unbounded integers: nothing saturates. */
  ghost predicate PayloadPasses(lib: Library, payload: RulesetPayload, wanted: Expectations, check: Check) {
    var issued, expires := lib.parseRfc3339(payload.issuedAt), lib.parseRfc3339(payload.expiresAt);
    match check
    case ContractVersion => payload.sv == 1
    case SameEnvironment => payload.environment == wanted.environment
    case ReadableTimes => issued.Some? && expires.Some?
    case NotFromTheFuture => issued.Some? && issued.value - wanted.now <= 300_000_000_000
    case NotExpired => wanted.enforceExpiry ==> expires.Some? && wanted.now - expires.value <= 300_000_000_000
    case _ => true
  }

  predicate IsSignatureCheck(check: Check) {
    check.SignaturePresent? || check.SignatureShape? || check.SignatureAlgorithm? || check.SignatureText?
    || check.TrustedKey? || check.SignatureVerifies?
  }

  ghost predicate Passes(lib: Library, raw: string, policy: SignaturePolicy, wanted: Expectations, check: Check) {
    ParseEnvelope(lib, raw).Some? &&
    var (envelope, bytes) := ParseEnvelope(lib, raw).value;
    if check == EnvelopeShape then true
    else if IsSignatureCheck(check) then policy.required ==> SignaturePasses(lib, envelope.sig, bytes, policy, check)
    else ParsePayload(lib, bytes).Some? && PayloadPasses(lib, ParsePayload(lib, bytes).value, wanted, check)
  }

  ghost predicate FirstFailing(lib: Library, raw: string, policy: SignaturePolicy, wanted: Expectations, check: Check) {
    && !Passes(lib, raw, policy, wanted, check)
    && forall c: Check | Position(c) < Position(check) :: Passes(lib, raw, policy, wanted, c)
  }

  lemma SignatureBlame(lib: Library, sig: Option<string>, bytes: string, policy: SignaturePolicy)
    returns (blamed: Check)
    ensures var code := CheckSignature(lib, sig, bytes, policy);
            && (code.Some? ==>
                  && IsSignatureCheck(blamed) && code == Some(CodeOf(blamed))
                  && !SignaturePasses(lib, sig, bytes, policy, blamed))
            && (forall c: Check | IsSignatureCheck(c) && (code.None? || Position(c) < Position(blamed)) ::
                  SignaturePasses(lib, sig, bytes, policy, c))
  {
    if sig.None? || sig.value == "" {
      return SignaturePresent;
    }
    SignatureFields(sig.value);
    if SplitSignature(sig.value).None? {
      return SignatureShape;
    }
    var (a, k, s) := SplitSignature(sig.value).value;
    assert Text.IsThree(sig.value, ':', a, k, s);
    if a != ED25519 {
      return SignatureAlgorithm;
    } else if s == "" || lib.decodeBase64(s).None? {
      return SignatureText;
    } else if k !in policy.trustedKeys || |policy.trustedKeys[k]| != PUBLIC_KEY_SIZE {
      return TrustedKey;
    } else {
      return SignatureVerifies;
    }
  }

  lemma PayloadBlame(lib: Library, payload: RulesetPayload, wanted: Expectations) returns (blamed: Check)
    ensures !IsSignatureCheck(blamed) && Position(blamed) > Position(PayloadShape)
    ensures var code := CheckClaims(lib, payload, wanted);
            && (code.Some? ==> code == Some(CodeOf(blamed)) && !PayloadPasses(lib, payload, wanted, blamed))
            && (forall c: Check | code.None? || Position(c) < Position(blamed) ::
                  PayloadPasses(lib, payload, wanted, c))
  {
    var issued, expires := lib.parseRfc3339(payload.issuedAt), lib.parseRfc3339(payload.expiresAt);
    if payload.sv != SUPPORTED_CONTRACT_VERSION {
      return ContractVersion;
    } else if payload.environment != wanted.environment {
      return SameEnvironment;
    } else if issued.None? || expires.None? {
      return ReadableTimes;
    } else if issued.value - wanted.now > CLOCK_SKEW_TOLERANCE {
      return NotFromTheFuture;
    } else {
      return NotExpired;
    }
  }

  /** The envelope and its signature pass. */
  ghost predicate Signed(lib: Library, raw: string, policy: SignaturePolicy) {
    ParseEnvelope(lib, raw).Some? &&
    var (envelope, bytes) := ParseEnvelope(lib, raw).value;
    policy.required ==> CheckSignature(lib, envelope.sig, bytes, policy).None?
  }

  lemma SignedPasses(lib: Library, raw: string, policy: SignaturePolicy, wanted: Expectations, check: Check)
    requires Signed(lib, raw, policy) && Position(check) < Position(PayloadShape)
    ensures Passes(lib, raw, policy, wanted, check)
  {
    var (envelope, bytes) := ParseEnvelope(lib, raw).value;
    var blamed := SignatureBlame(lib, envelope.sig, bytes, policy);
  }

  lemma BlameSignature(lib: Library, raw: string, policy: SignaturePolicy, wanted: Expectations) returns (blamed: Check)
    requires !Signed(lib, raw, policy)
    ensures FirstFailing(lib, raw, policy, wanted, blamed)
    ensures VerifyEnvelope(lib, raw, policy, wanted) == Rejected(CodeOf(blamed))
  {
    if ParseEnvelope(lib, raw).None? {
      return EnvelopeShape;
    }
    var (envelope, bytes) := ParseEnvelope(lib, raw).value;
    blamed := SignatureBlame(lib, envelope.sig, bytes, policy);
  }

  lemma BlamePayload(lib: Library, raw: string, policy: SignaturePolicy, wanted: Expectations) returns (blamed: Check)
    requires Signed(lib, raw, policy)
    ensures var v := VerifyEnvelope(lib, raw, policy, wanted);
            && (v.Accepted? ==> forall c: Check | Position(c) >= Position(PayloadShape) ::
                  Passes(lib, raw, policy, wanted, c))
            && (v.Rejected? ==>
                  && v.code == CodeOf(blamed) && !Passes(lib, raw, policy, wanted, blamed)
                  && forall c: Check | Position(PayloadShape) <= Position(c) < Position(blamed) ::
                       Passes(lib, raw, policy, wanted, c))
  {
    var p := ParsePayload(lib, ParseEnvelope(lib, raw).value.1);
    if p.None? {
      return PayloadShape;
    }
    blamed := PayloadBlame(lib, p.value, wanted);
  }

  lemma FindBlamed(lib: Library, raw: string, policy: SignaturePolicy, wanted: Expectations) returns (blamed: Check)
    ensures var v := VerifyEnvelope(lib, raw, policy, wanted);
            && (v.Accepted? ==> forall c: Check :: Passes(lib, raw, policy, wanted, c))
            && (v.Rejected? ==> FirstFailing(lib, raw, policy, wanted, blamed) && v.code == CodeOf(blamed))
  {
    if !Signed(lib, raw, policy) {
      blamed := BlameSignature(lib, raw, policy, wanted);
    } else {
      blamed := BlamePayload(lib, raw, policy, wanted);
      forall c: Check | Position(c) < Position(PayloadShape) ensures Passes(lib, raw, policy, wanted, c) {
        SignedPasses(lib, raw, policy, wanted, c);
      }
    }
  }

  /** Verification accepts exactly when every check of the contract passes, and otherwise names
      the first one that fails. */
  lemma VerdictCharacterised(lib: Library, raw: string, policy: SignaturePolicy, wanted: Expectations)
    ensures VerifyEnvelope(lib, raw, policy, wanted).Accepted?
       <==> forall c: Check :: Passes(lib, raw, policy, wanted, c)
    ensures forall c: Check | FirstFailing(lib, raw, policy, wanted, c) ::
              VerifyEnvelope(lib, raw, policy, wanted) == Rejected(CodeOf(c))
    ensures var v := VerifyEnvelope(lib, raw, policy, wanted); v.Accepted? ==>
              v.raw == raw && KnownKinds(v.payload.flags) && lib.parseRfc3339(v.payload.issuedAt).Some?
  {
    var blamed := FindBlamed(lib, raw, policy, wanted);
    forall c: Check | FirstFailing(lib, raw, policy, wanted, c)
      ensures VerifyEnvelope(lib, raw, policy, wanted) == Rejected(CodeOf(c))
    {
      assert Position(c) == Position(blamed);
    }
  }

  /** What accepts an envelope, from the bytes up: its base64url payload decodes to a JSON ruleset for
      this contract version and environment, with only known flag kinds, whose signature verifies
      over exactly those bytes when one is required, and whose times, as unbounded integers, lie
      within the tolerance. */
  ghost predicate Acceptable(lib: Library, raw: string, policy: SignaturePolicy, wanted: Expectations,
                             envelope: WireEnvelope, bytes: string, payload: RulesetPayload) {
    && lib.unmarshalEnvelope(raw) == Some(envelope) && envelope.payload != ""
    && lib.decodeBase64(envelope.payload) == Some(bytes) && lib.unmarshalPayload(bytes) == Some(payload)
    && (policy.required ==> envelope.sig.Some? && exists keyId, signature ::
          Text.IsThree(envelope.sig.value, ':', "ed25519", keyId, signature)
          && VerifiesUnder(lib, policy, keyId, signature, bytes))
    && payload.sv == 1 && payload.environment == wanted.environment && payload.environment != ""
    && (forall key | key in payload.flags :: payload.flags[key].kind in {"boolean", "string", "number"})
    && payload.issuedAt != "" && payload.expiresAt != ""
    && lib.parseRfc3339(payload.issuedAt).Some? && lib.parseRfc3339(payload.expiresAt).Some?
    && lib.parseRfc3339(payload.issuedAt).value <= wanted.now + 300_000_000_000
    && (wanted.enforceExpiry ==> wanted.now <= lib.parseRfc3339(payload.expiresAt).value + 300_000_000_000)
  }

  lemma AcceptanceCharacterised(
    lib: Library, raw: string, policy: SignaturePolicy, wanted: Expectations, payload: RulesetPayload)
    ensures VerifyEnvelope(lib, raw, policy, wanted) == Accepted(raw, payload)
       <==> exists envelope, bytes :: Acceptable(lib, raw, policy, wanted, envelope, bytes, payload)
  {
    match ParseEnvelope(lib, raw)
    case None => DecodingCharacterised(lib, raw, "");
    case Some((envelope, bytes)) =>
      DecodingCharacterised(lib, raw, bytes);
      SignatureAcceptance(lib, envelope.sig, bytes, policy);
      assert VerifyEnvelope(lib, raw, policy, wanted) == Accepted(raw, payload)
        <==> Acceptable(lib, raw, policy, wanted, envelope, bytes, payload);
  }

  /** One envelope over time, in nanoseconds: once any verdict has accepted it, its live verdict is
      acceptance exactly from 300 s before its issue to 300 s past its expiry, the ends included; a
      nanosecond earlier it is from the future, a nanosecond later expired. From the cache it is
      accepted at the same start and at every later time. */
  lemma VerdictOverTime(lib: Library, raw: string, policy: SignaturePolicy, wanted: Expectations, t: Instant)
    requires VerifyEnvelope(lib, raw, policy, wanted).Accepted?
    ensures var accepted := VerifyEnvelope(lib, raw, policy, wanted);
            var issued, expires :=
              lib.parseRfc3339(accepted.payload.issuedAt), lib.parseRfc3339(accepted.payload.expiresAt);
            && issued.Some? && expires.Some?
            && VerifyEnvelope(lib, raw, policy, Expectations(wanted.environment, t, true))
            == (if t < issued.value - 300_000_000_000 then Rejected(IssuedInTheFuture)
                else if t <= expires.value + 300_000_000_000 then accepted
                else Rejected(Expired))
            && VerifyEnvelope(lib, raw, policy, Expectations(wanted.environment, t, false))
            == (if t < issued.value - 300_000_000_000 then Rejected(IssuedInTheFuture) else accepted)
  {
  }

  // ---------------------------------------------------------------- the asymmetry

  /** Whatever was accepted live at `t` is accepted from the cache at every later time, with the
      same payload: the cache verdict does not look at the expiry time. */
  lemma LiveImpliesCached(
    lib: Library, raw: string, policy: SignaturePolicy, environment: string, t: Instant, later: Instant)
    requires t <= later
    requires VerifyEnvelope(lib, raw, policy, Expectations(environment, t, true)).Accepted?
    ensures VerifyEnvelope(lib, raw, policy, Expectations(environment, later, false))
         == VerifyEnvelope(lib, raw, policy, Expectations(environment, t, true))
  {
  }

  /** At one and the same time, live and cache verdicts differ only by `expired`, and then the
      cache verdict is acceptance of an envelope more than the tolerance past its expiry. */
  lemma LiveAndCacheVerdicts(lib: Library, raw: string, policy: SignaturePolicy, environment: string, t: Instant)
    ensures var live := VerifyEnvelope(lib, raw, policy, Expectations(environment, t, true));
            var cached := VerifyEnvelope(lib, raw, policy, Expectations(environment, t, false));
            live != cached <==>
              && cached.Accepted? && live == Rejected(Expired)
              && lib.parseRfc3339(cached.payload.expiresAt).Some?
              && t - lib.parseRfc3339(cached.payload.expiresAt).value > 300_000_000_000
  {
    VerdictCharacterised(lib, raw, policy, Expectations(environment, t, true));
    VerdictCharacterised(lib, raw, policy, Expectations(environment, t, false));
  }
}
