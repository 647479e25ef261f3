/** Construction-time parsing (configuration.go): the server key, the signature policy and the
    poll interval. */
module Configuration {
  import opened Wrappers
  import opened Verifier
  import Text

  const MINIMUM_POLL_INTERVAL: int := 30 * SECOND
  const DEFAULT_POLL_INTERVAL: int := 60 * SECOND
  const KEY_PREFIX_VISIBLE_CHARS: nat := 6

  predicate LowerOrDigit(c: char) { 'a' <= c <= 'z' || '0' <= c <= '9' }

  /** 2 to 32 characters, lower-case letters, digits and inner hyphens. */
  predicate ValidEnvironmentKey(key: string) {
    && 2 <= |key| <= 32
    && LowerOrDigit(key[0]) && LowerOrDigit(key[|key| - 1])
    && forall i | 0 <= i < |key| :: LowerOrDigit(key[i]) || key[i] == '-'
  }

  /** Codes 97 to 122 are a to z, 48 to 57 are 0 to 9. */
  predicate IsLetterOrDigitCode(code: int) { 97 <= code <= 122 || 48 <= code <= 57 }

  /** A letter or digit, up to 30 letters, digits and hyphens, and a letter or digit again. */
  ghost predicate IsEnvironment(key: string, first: char, inner: string, last: char) {
    && key == [first] + inner + [last] && |inner| <= 30
    && IsLetterOrDigitCode(first as int) && IsLetterOrDigitCode(last as int)
    && forall i | 0 <= i < |inner| :: IsLetterOrDigitCode(inner[i] as int) || inner[i] as int == 45
  }

  /** The valid environment keys are exactly these strings. */
  lemma ValidEnvironmentKeys(key: string)
    ensures ValidEnvironmentKey(key)
       <==> exists first: char, inner: string, last: char :: IsEnvironment(key, first, inner, last)
  {
    if ValidEnvironmentKey(key) {
      var inner := key[1..|key| - 1];
      assert key == [key[0]] + inner + [key[|key| - 1]];
      assert IsEnvironment(key, key[0], inner, key[|key| - 1]);
    }
    if first: char, inner: string, last: char :| IsEnvironment(key, first, inner, last) {
      EnvironmentIsValid(key, first, inner, last);
    }
  }

  lemma EnvironmentIsValid(key: string, first: char, inner: string, last: char)
    requires IsEnvironment(key, first, inner, last)
    ensures ValidEnvironmentKey(key)
  {
    forall i | 0 <= i < |key| ensures LowerOrDigit(key[i]) || key[i] == '-' {
      if 0 < i < |key| - 1 {
        assert key[i] == inner[i - 1];
      }
    }
  }

  method ValidEnvironmentKeyLoop(key: string) returns (ok: bool)
    ensures ok == ValidEnvironmentKey(key)
  {
    if |key| < 2 || |key| > 32 {
      return false;
    }
    for k := 0 to |key|
      invariant forall i | 0 <= i < k :: LowerOrDigit(key[i]) || (key[i] == '-' && i != 0 && i != |key| - 1)
    {
      var c := key[k];
      var lowerOrDigit := ('a' <= c && c <= 'z') || ('0' <= c && c <= '9');
      if lowerOrDigit {
        continue;
      }
      if c == '-' && k != 0 && k != |key| - 1 {
        continue;
      }
      return false;
    }
    return true;
  }

  /** The environment a well-formed key claims. */
  function ParseKey(raw: string): Option<string> {
    var parts := Text.SplitN(raw, '_', 3);
    if |parts| != 3 || parts[0] != "ffs" || parts[2] == "" then None
    else if !ValidEnvironmentKey(parts[1]) then None
    else Some(parts[1])
  }

  function KeyPrefix(raw: string): string {
    match ParseKey(raw)
    case None => ""
    case Some(environment) =>
      var head := |"ffs_"| + |environment| + 1;
      if |raw| < head + KEY_PREFIX_VISIBLE_CHARS then "" else raw[..head + KEY_PREFIX_VISIBLE_CHARS]
  }

  ghost predicate IsKey(raw: string, environment: string, secret: string) {
    raw == "ffs_" + environment + "_" + secret && ValidEnvironmentKey(environment) && secret != ""
  }

  lemma KeyParses(environment: string, secret: string)
    requires ValidEnvironmentKey(environment) && secret != ""
    ensures ParseKey("ffs_" + environment + "_" + secret) == Some(environment)
    ensures secret == ("ffs_" + environment + "_" + secret)[|environment| + 5..]
  {
    var raw := "ffs_" + environment + "_" + secret;
    KeySpelling(environment, secret);
    Text.CutTwiceOf("ffs", environment, secret, '_');
    Text.SplitNIsCutTwice(raw, '_');
  }

  lemma ParsedIsKey(raw: string)
    requires ParseKey(raw).Some?
    ensures |raw| > |ParseKey(raw).value| + 5
    ensures IsKey(raw, ParseKey(raw).value, raw[|ParseKey(raw).value| + 5..])
  {
    var parts := Text.SplitN(raw, '_', 3);
    Text.SplitNThree(raw, '_');
    KeySpelling(parts[1], parts[2]);
  }

  /** A key decomposes in one way only, underscores in the secret or not, and `ParseKey` accepts
      exactly the strings that decompose, answering the environment. */
  lemma ParseKeyInverse(raw: string)
    ensures forall environment, secret | IsKey(raw, environment, secret) ::
              ParseKey(raw) == Some(environment) && secret == raw[|environment| + 5..]
    ensures ParseKey(raw).Some? ==>
              && |raw| > |ParseKey(raw).value| + 5
              && IsKey(raw, ParseKey(raw).value, raw[|ParseKey(raw).value| + 5..])
  {
    forall environment, secret | IsKey(raw, environment, secret)
      ensures ParseKey(raw) == Some(environment) && secret == raw[|environment| + 5..]
    {
      KeyParses(environment, secret);
    }
    if ParseKey(raw).Some? {
      ParsedIsKey(raw);
    }
  }

  lemma KeySpelling(environment: string, secret: string)
    ensures "ffs" + ['_'] + (environment + ['_'] + secret) == "ffs_" + environment + "_" + secret
    ensures ("ffs_" + environment + "_" + secret)[|environment| + 5..] == secret
  {
    assert "ffs" + ['_'] == "ffs_";
    assert "ffs_" + (environment + ['_'] + secret) == "ffs_" + environment + "_" + secret;
  }

  /** The loggable prefix of a key shows its environment and six bytes of its secret, and says
      nothing else about the secret than whether six bytes exist. */
  lemma KeyPrefixReveals(raw: string, environment: string, secret: string)
    requires IsKey(raw, environment, secret)
    ensures KeyPrefix(raw) == if |secret| < 6 then "" else "ffs_" + environment + "_" + secret[..6]
    ensures KeyPrefix(raw) <= raw
  {
    ParseKeyInverse(raw);
    var head := |environment| + 5;
    assert raw[head..] == secret;
    if |secret| >= 6 {
      assert raw[..head + 6] == "ffs_" + environment + "_" + secret[..6];
    }
  }

  lemma MalformedKeyHasNoPrefix(raw: string)
    requires !exists environment, secret :: IsKey(raw, environment, secret)
    ensures ParseKey(raw).None? && KeyPrefix(raw) == ""
  {
    ParseKeyInverse(raw);
  }

  /** SignatureRequired copies the caller's trust store entry by entry. */
  method SignatureRequired(trustedKeys: map<string, string>) returns (policy: SignaturePolicy)
    ensures policy == SignaturePolicy(true, true, trustedKeys)
  {
    var copied: map<string, string> := map[];
    var remaining := trustedKeys.Keys;
    while remaining != {}
      invariant remaining <= trustedKeys.Keys
      invariant copied == map id | id in trustedKeys && id !in remaining :: trustedKeys[id]
      decreases |remaining|
    {
      var id :| id in remaining;
      copied := copied[id := trustedKeys[id]];
      remaining := remaining - {id};
    }
    return SignaturePolicy(true, true, copied);
  }

  /** The interval the poller runs on: defaulted when unset, then floored. */
  method ResolveInterval(configured: int) returns (interval: int)
    ensures interval >= MINIMUM_POLL_INTERVAL
    ensures configured >= 30_000_000_000 ==> interval == configured
    ensures configured == 0 ==> interval == 60_000_000_000
    ensures configured < 30_000_000_000 && configured != 0 ==> interval == 30_000_000_000
  {
    interval := configured;
    if interval == 0 {
      interval := DEFAULT_POLL_INTERVAL;
    }
    if interval < MINIMUM_POLL_INTERVAL {
      interval := MINIMUM_POLL_INTERVAL;
    }
  }
}
