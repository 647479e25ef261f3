/** Local evaluation (evaluate.go, bucket.go): the rule walk, what it means, and the edits to a
    rule list that cannot change any answer. */
module Evaluator {
  import opened Wrappers
  import opened Ruleset
  import opened Semver
  import Text

  type Tags = map<string, string>

  const OP_EQ := "eq"
  const OP_NEQ := "neq"
  const OP_CONTAINS := "contains"
  const OP_SEMVER_EQ := "semver_eq"
  const OP_SEMVER_GT := "semver_gt"
  const OP_SEMVER_GTE := "semver_gte"
  const OP_SEMVER_LT := "semver_lt"
  const OP_SEMVER_LTE := "semver_lte"

  predicate IsSemverOperator(op: string) {
    op == OP_SEMVER_EQ || op == OP_SEMVER_GT || op == OP_SEMVER_GTE || op == OP_SEMVER_LT || op == OP_SEMVER_LTE
  }

  predicate ConditionHolds(condition: FlagCondition, tagValue: string) {
    var op := condition.operator;
    if op == OP_EQ then tagValue == condition.value
    else if op == OP_NEQ then tagValue != condition.value
    else if op == OP_CONTAINS then Text.Contains(tagValue, condition.value)
    else if IsSemverOperator(op) then
      var context, target := ParseVersion(tagValue), ParseVersion(condition.value);
      if context.None? || target.None? then false
      else
        var cmp := CompareVersions(context.value, target.value);
        if op == OP_SEMVER_EQ then cmp == 0
        else if op == OP_SEMVER_GT then cmp > 0
        else if op == OP_SEMVER_GTE then cmp >= 0
        else if op == OP_SEMVER_LT then cmp < 0
        else cmp <= 0
    else false
  }

  predicate TagSatisfies(condition: FlagCondition, tags: Tags) {
    condition.tagKey in tags && ConditionHolds(condition, tags[condition.tagKey])
  }

  predicate RuleMatches(rule: FlagRule, tags: Tags) {
    forall i | 0 <= i < |rule.conditions| :: TagSatisfies(rule.conditions[i], tags)
  }

  method RuleMatchesLoop(rule: FlagRule, tags: Tags) returns (r: bool)
    ensures r == RuleMatches(rule, tags)
    ensures r <==> forall i | 0 <= i < |rule.conditions| ::
              rule.conditions[i].tagKey in tags && ConditionHolds(rule.conditions[i], tags[rule.conditions[i].tagKey])
  {
    for k := 0 to |rule.conditions|
      invariant forall i | 0 <= i < k :: TagSatisfies(rule.conditions[i], tags)
    {
      var condition := rule.conditions[k];
      if condition.tagKey !in tags {
        assert !TagSatisfies(rule.conditions[k], tags);
        return false;
      }
      if !ConditionHolds(condition, tags[condition.tagKey]) {
        assert !TagSatisfies(rule.conditions[k], tags);
        return false;
      }
    }
    return true;
  }

  function Bucket(lib: Library, contextKey: string, flagKey: string): (b: int)
    ensures 0 <= b < 100
  {
    lib.sha256Head(contextKey + ":" + flagKey) % 100
  }

  predicate GateAdmits(rule: FlagRule, bucket: int) {
    rule.rollout.None? || bucket < rule.rollout.value
  }

  /** The rule answers: conditions hold, gate admits, and its serve decodes to the kind. */
  predicate Serves(lib: Library, rule: FlagRule, kind: string, tags: Tags, bucket: int) {
    RuleMatches(rule, tags) && GateAdmits(rule, bucket) && DecodeValue(lib, rule.serve, kind).Some?
  }

  function Walk(lib: Library, rules: seq<FlagRule>, kind: string, tags: Tags, bucket: int): Option<Value> {
    if rules == [] then None
    else if Serves(lib, rules[0], kind, tags, bucket) then DecodeValue(lib, rules[0].serve, kind)
    else Walk(lib, rules[1..], kind, tags, bucket)
  }

  function Evaluate(lib: Library, config: FlagConfig, tags: Tags, contextKey: string, flagKey: string): Option<Value> {
    var answer := Walk(lib, config.rules, config.kind, tags, Bucket(lib, contextKey, flagKey));
    if answer.Some? then answer else DecodeValue(lib, config.default, config.kind)
  }

  /** The walk gets as far as a matching rule that carries a gate. */
  ghost predicate MeetsGate(lib: Library, rules: seq<FlagRule>, kind: string, tags: Tags, bucket: int) {
    rules != [] &&
    (if RuleMatches(rules[0], tags) && rules[0].rollout.Some? then true
     else !Serves(lib, rules[0], kind, tags, bucket) && MeetsGate(lib, rules[1..], kind, tags, bucket))
  }

  /** evaluate.go's loop with its -1 sentinel. `hashes` counts the bucket computations. */
  method EvaluateFlag(lib: Library, config: FlagConfig, tags: Tags, contextKey: string, flagKey: string)
    returns (answer: Option<Value>, ghost hashes: nat)
    ensures answer == Evaluate(lib, config, tags, contextKey, flagKey)
    ensures hashes == if MeetsGate(lib, config.rules, config.kind, tags, Bucket(lib, contextKey, flagKey)) then 1 else 0
  {
    ghost var b := Bucket(lib, contextKey, flagKey);
    var contextBucket := -1;
    hashes := 0;
    for k := 0 to |config.rules|
      invariant Walk(lib, config.rules, config.kind, tags, b) == Walk(lib, config.rules[k..], config.kind, tags, b)
      invariant contextBucket == if hashes == 0 then -1 else b
      invariant hashes <= 1
      invariant MeetsGate(lib, config.rules, config.kind, tags, b)
           <==> hashes == 1 || MeetsGate(lib, config.rules[k..], config.kind, tags, b)
    {
      var rule := config.rules[k];
      assert config.rules[k..][0] == rule && config.rules[k..][1..] == config.rules[k + 1..];
      var matches := RuleMatchesLoop(rule, tags);
      if !matches {
        continue;
      }
      if rule.rollout.Some? {
        if contextBucket < 0 {
          contextBucket := Bucket(lib, contextKey, flagKey);
          hashes := hashes + 1;
        }
        if contextBucket >= rule.rollout.value {
          continue;
        }
      }
      var value := DecodeValue(lib, rule.serve, config.kind);
      if value.Some? {
        return value, hashes;
      }
    }
    answer := DecodeValue(lib, config.default, config.kind);
  }

  // ------------------------------------------------------- what the walk computes

  ghost predicate FirstServing(lib: Library, rules: seq<FlagRule>, kind: string, tags: Tags, bucket: int, i: nat) {
    && i < |rules| && Serves(lib, rules[i], kind, tags, bucket)
    && forall j | 0 <= j < i :: !Serves(lib, rules[j], kind, tags, bucket)
  }

  lemma {:induction false} WalkFindsFirst(lib: Library, rules: seq<FlagRule>, kind: string, tags: Tags, bucket: int)
    ensures Walk(lib, rules, kind, tags, bucket).None?
       <==> forall j | 0 <= j < |rules| :: !Serves(lib, rules[j], kind, tags, bucket)
    ensures forall i: nat | FirstServing(lib, rules, kind, tags, bucket, i) ::
              Walk(lib, rules, kind, tags, bucket) == DecodeValue(lib, rules[i].serve, kind)
    ensures Walk(lib, rules, kind, tags, bucket).Some? ==>
              exists i: nat :: FirstServing(lib, rules, kind, tags, bucket, i)
  {
    if rules != [] {
      var tail := rules[1..];
      WalkFindsFirst(lib, tail, kind, tags, bucket);
      if Serves(lib, rules[0], kind, tags, bucket) {
        assert FirstServing(lib, rules, kind, tags, bucket, 0);
      } else {
        assert forall j | 0 <= j < |tail| :: tail[j] == rules[j + 1];
        assert forall j | 0 < j < |rules| :: rules[j] == tail[j - 1];
        forall i: nat | FirstServing(lib, rules, kind, tags, bucket, i)
          ensures i > 0 && FirstServing(lib, tail, kind, tags, bucket, i - 1)
        {
        }
        if i: nat :| FirstServing(lib, tail, kind, tags, bucket, i) {
          assert FirstServing(lib, rules, kind, tags, bucket, i + 1);
        }
      }
    }
  }

  /** Evaluation answers the least-index rule that matches, is admitted by its gate and decodes;
      the decoded default when there is none. The answer, if any, has the flag's kind. */
  lemma EvaluateIsFirstMatch(lib: Library, config: FlagConfig, tags: Tags, contextKey: string, flagKey: string)
    ensures var b, r := Bucket(lib, contextKey, flagKey), Evaluate(lib, config, tags, contextKey, flagKey);
            && (forall i: nat | FirstServing(lib, config.rules, config.kind, tags, b, i) ::
                  r == DecodeValue(lib, config.rules[i].serve, config.kind))
            && ((forall i | 0 <= i < |config.rules| :: !Serves(lib, config.rules[i], config.kind, tags, b)) ==>
                  r == DecodeValue(lib, config.default, config.kind))
            && (r.Some? ==> HasKind(r.value, config.kind))
  {
    WalkFindsFirst(lib, config.rules, config.kind, tags, Bucket(lib, contextKey, flagKey));
  }

  /** No answer is made up: every value answered has the flag's kind and is spelled by the raw JSON of
      the default or of a rule that matches. When nothing is answered, the default spells no value
      of that kind; a flag of no known kind answers nothing. */
  lemma AnswersAreSpelled(lib: Library, config: FlagConfig, tags: Tags, contextKey: string, flagKey: string)
    ensures var r := Evaluate(lib, config, tags, contextKey, flagKey);
            && (r.Some? ==>
                  && KnownKind(config.kind) && HasKind(r.value, config.kind)
                  && (Spells(lib, config.default, r.value)
                      || exists i :: 0 <= i < |config.rules| && RuleMatches(config.rules[i], tags)
                                     && Spells(lib, config.rules[i].serve, r.value)))
            && (r.None? ==> forall v | HasKind(v, config.kind) :: !Spells(lib, config.default, v))
  {
    var b, r := Bucket(lib, contextKey, flagKey), Evaluate(lib, config, tags, contextKey, flagKey);
    EvaluateIsFirstMatch(lib, config, tags, contextKey, flagKey);
    WalkFindsFirst(lib, config.rules, config.kind, tags, b);
    DecodeCharacterised(lib, config.default, config.kind);
    if i: nat :| FirstServing(lib, config.rules, config.kind, tags, b, i) {
      DecodeCharacterised(lib, config.rules[i].serve, config.kind);
      assert r.Some? && Spells(lib, config.rules[i].serve, r.value);
    }
  }

  // ------------------------------------------------- from the tags and the hash up

  /** The rule answers a context with these tags and this hash: each of its conditions names a tag that
      is there and whose value satisfies it, its gate, if any, admits the hash, and its serve decodes. */
  predicate Selects(lib: Library, rule: FlagRule, kind: string, tags: Tags, hash: nat) {
    && (forall i | 0 <= i < |rule.conditions| ::
          rule.conditions[i].tagKey in tags && ConditionHolds(rule.conditions[i], tags[rule.conditions[i].tagKey]))
    && (rule.rollout.None? || hash % 100 < rule.rollout.value)
    && DecodeValue(lib, rule.serve, kind).Some?
  }

  /** The answer, from what is hashed: context key, colon, flag key. */
  lemma EvaluateFromHash(lib: Library, config: FlagConfig, tags: Tags, contextKey: string, flagKey: string)
    ensures var hash, r := lib.sha256Head(contextKey + ":" + flagKey), Evaluate(lib, config, tags, contextKey, flagKey);
            && (forall i | 0 <= i < |config.rules| && Selects(lib, config.rules[i], config.kind, tags, hash)
                           && forall j | 0 <= j < i :: !Selects(lib, config.rules[j], config.kind, tags, hash) ::
                  r == DecodeValue(lib, config.rules[i].serve, config.kind))
            && ((forall i | 0 <= i < |config.rules| :: !Selects(lib, config.rules[i], config.kind, tags, hash)) ==>
                  r == DecodeValue(lib, config.default, config.kind))
  {
    var hash, b := lib.sha256Head(contextKey + ":" + flagKey), Bucket(lib, contextKey, flagKey);
    EvaluateIsFirstMatch(lib, config, tags, contextKey, flagKey);
    forall i | 0 <= i < |config.rules|
      ensures Selects(lib, config.rules[i], config.kind, tags, hash) <==>
          Serves(lib, config.rules[i], config.kind, tags, b)
    {
      SelectsIsServes(lib, config.rules[i], config.kind, tags, contextKey, flagKey);
    }
    forall i | 0 <= i < |config.rules| && Selects(lib, config.rules[i], config.kind, tags, hash)
               && forall j | 0 <= j < i :: !Selects(lib, config.rules[j], config.kind, tags, hash)
      ensures Evaluate(lib, config, tags, contextKey, flagKey) == DecodeValue(lib, config.rules[i].serve, config.kind)
    {
      assert FirstServing(lib, config.rules, config.kind, tags, b, i);
    }
  }

  lemma SelectsIsServes(lib: Library, rule: FlagRule, kind: string, tags: Tags, contextKey: string, flagKey: string)
    ensures Selects(lib, rule, kind, tags, lib.sha256Head(contextKey + ":" + flagKey))
       <==> Serves(lib, rule, kind, tags, Bucket(lib, contextKey, flagKey))
  {
    if RuleMatches(rule, tags) {
      assert forall i | 0 <= i < |rule.conditions| :: TagSatisfies(rule.conditions[i], tags);
    }
  }

  /** A flag with one unconditional rule, gated at p, serves it exactly to the contexts whose hash with
      this flag's key leaves less than p modulo 100. */
  lemma GateIsHashed(lib: Library, config: FlagConfig, p: int, tags: Tags, contextKey: string, flagKey: string)
    requires |config.rules| == 1 && config.rules[0].conditions == [] && config.rules[0].rollout == Some(p)
    requires DecodeValue(lib, config.rules[0].serve, config.kind).Some?
    ensures Evaluate(lib, config, tags, contextKey, flagKey)
         == if lib.sha256Head(contextKey + ":" + flagKey) % 100 < p
            then DecodeValue(lib, config.rules[0].serve, config.kind)
            else DecodeValue(lib, config.default, config.kind)
  {
    EvaluateFromHash(lib, config, tags, contextKey, flagKey);
    var hash := lib.sha256Head(contextKey + ":" + flagKey);
    assert Selects(lib, config.rules[0], config.kind, tags, hash) <==> hash % 100 < p;
  }

  /** A library that hashes a text to its length, and reads true and nothing else. */
  const COUNTING: Library :=
    Library(s => s, s => if s == "true" then Some(true) else None, s => None, s => None, s => None, s => None,
            s => None, s => |s|, (k, m, g) => false, s => None)

  /** One rule: true, for hashes below 4 modulo 100. */
  const GATED: FlagConfig := FlagConfig("boolean", "", [FlagRule([], "true", Some(4))])

  /** One context can be inside one flag's rollout and outside another's at the same percentage, and one
      flag's rollout can tell two contexts apart: both keys are hashed. */
  lemma BothKeysAreHashed()
    ensures Evaluate(COUNTING, GATED, map[], "u", "b") == Some(Bool(true))
    ensures Evaluate(COUNTING, GATED, map[], "u", "bb") == None
    ensures Evaluate(COUNTING, GATED, map[], "uu", "b") == None
  {
    assert "u" + ":" + "b" == "u:b" && "u" + ":" + "bb" == "u:bb" && "uu" + ":" + "b" == "uu:b";
    GateIsHashed(COUNTING, GATED, 4, map[], "u", "b");
    GateIsHashed(COUNTING, GATED, 4, map[], "u", "bb");
    GateIsHashed(COUNTING, GATED, 4, map[], "uu", "b");
  }

  // ------------------------------------------------- absent tags

  /** A condition on a tag that is not there fails, whatever its operator: when every rule has one, the
      answer is the decoded default. */
  lemma AbsentTagsGiveDefault(lib: Library, config: FlagConfig, tags: Tags, contextKey: string, flagKey: string)
    requires forall i | 0 <= i < |config.rules| ::
               exists j :: 0 <= j < |config.rules[i].conditions| && config.rules[i].conditions[j].tagKey !in tags
    ensures Evaluate(lib, config, tags, contextKey, flagKey) == DecodeValue(lib, config.default, config.kind)
  {
    EvaluateFromHash(lib, config, tags, contextKey, flagKey);
  }

  /** The rules without a condition on this tag. */
  function NotNaming(key: string, rules: seq<FlagRule>): seq<FlagRule> {
    if rules == [] then []
    else
      (if exists i :: 0 <= i < |rules[0].conditions| && rules[0].conditions[i].tagKey == key then [] else [rules[0]])
      + NotNaming(key, rules[1..])
  }

  lemma {:induction false} WalkNotNaming(
    lib: Library, key: string, rules: seq<FlagRule>, kind: string, tags: Tags, bucket: int)
    ensures Walk(lib, rules, kind, tags - {key}, bucket) == Walk(lib, NotNaming(key, rules), kind, tags, bucket)
  {
    if rules != [] {
      WalkNotNaming(lib, key, rules[1..], kind, tags, bucket);
      var rule, rest := rules[0], NotNaming(key, rules[1..]);
      if i :| 0 <= i < |rule.conditions| && rule.conditions[i].tagKey == key {
        assert !TagSatisfies(rule.conditions[i], tags - {key});
        assert [] + rest == rest;
      } else {
        assert forall i | 0 <= i < |rule.conditions| ::
            TagSatisfies(rule.conditions[i], tags - {key}) == TagSatisfies(rule.conditions[i], tags);
        assert ([rule] + rest)[1..] == rest;
      }
    }
  }

  /** Taking a tag away from a context is taking the rules that name it away from the flag. */
  lemma RemovedTagRemovesRules(
    lib: Library, config: FlagConfig, key: string, tags: Tags, contextKey: string, flagKey: string)
    ensures Evaluate(lib, config, tags - {key}, contextKey, flagKey)
         == Evaluate(lib, config.(rules := NotNaming(key, config.rules)), tags, contextKey, flagKey)
  {
    WalkNotNaming(lib, key, config.rules, config.kind, tags, Bucket(lib, contextKey, flagKey));
  }

  lemma {:induction false} WalkConcat(
    lib: Library, front: seq<FlagRule>, back: seq<FlagRule>, kind: string, tags: Tags, bucket: int)
    ensures Walk(lib, front + back, kind, tags, bucket)
         == var r := Walk(lib, front, kind, tags, bucket);
            if r.Some? then r else Walk(lib, back, kind, tags, bucket)
  {
    if front == [] {
      assert front + back == back;
    } else {
      WalkConcat(lib, front[1..], back, kind, tags, bucket);
      assert (front + back)[0] == front[0] && (front + back)[1..] == front[1..] + back;
    }
  }

  /** Each version operator holds exactly when both sides parse and it admits the comparison's sign. */
  lemma SemverSigns(tagKey: string, target: string, tagValue: string)
    ensures var parse := ParseVersion(tagValue).Some? && ParseVersion(target).Some?;
            var cmp := if parse then CompareVersions(ParseVersion(tagValue).value, ParseVersion(target).value) else 0;
            && (ConditionHolds(FlagCondition(tagKey, "semver_lt", target), tagValue) <==> parse && cmp < 0)
            && (ConditionHolds(FlagCondition(tagKey, "semver_lte", target), tagValue) <==> parse && cmp <= 0)
            && (ConditionHolds(FlagCondition(tagKey, "semver_eq", target), tagValue) <==> parse && cmp == 0)
            && (ConditionHolds(FlagCondition(tagKey, "semver_gte", target), tagValue) <==> parse && cmp >= 0)
            && (ConditionHolds(FlagCondition(tagKey, "semver_gt", target), tagValue) <==> parse && cmp > 0)
  {
    OperatorsDiffer();
  }

  /** The integer a version string stands for, to n components. */
  function Rank(text: string, n: nat): nat
    requires ParseVersion(text).Some?
  {
    Encode(ParseVersion(text).value, 0, n)
  }

  /** The sign of a comparison of parsed texts is that of the integers they stand for. */
  lemma SemverRanks(tagValue: string, target: string, n: nat)
    requires ParseVersion(tagValue).Some? && ParseVersion(target).Some?
    requires |ParseVersion(tagValue).value| <= n && |ParseVersion(target).value| <= n
    ensures CompareVersions(ParseVersion(tagValue).value, ParseVersion(target).value)
        == Sign(Rank(tagValue, n) - Rank(target, n))
  {
    ParsedIsBounded(target);
    ParsedIsBounded(tagValue);
    VersionOrderEmbedding(ParseVersion(tagValue).value, ParseVersion(target).value, n);
  }

  /** So exactly one of "older", "same" and "newer" holds when both sides parse, as it does for the
      base-10^10 integers they stand for; none of the three holds otherwise. */
  lemma SemverTrichotomy(tagKey: string, target: string, tagValue: string, n: nat)
    requires ParseVersion(tagValue).Some? ==> |ParseVersion(tagValue).value| <= n
    requires ParseVersion(target).Some? ==> |ParseVersion(target).value| <= n
    ensures var lt, eq, gt := ConditionHolds(FlagCondition(tagKey, "semver_lt", target), tagValue),
                              ConditionHolds(FlagCondition(tagKey, "semver_eq", target), tagValue),
                              ConditionHolds(FlagCondition(tagKey, "semver_gt", target), tagValue);
            if ParseVersion(target).Some? && ParseVersion(tagValue).Some? then
              && lt == (Rank(tagValue, n) < Rank(target, n))
              && eq == (Rank(tagValue, n) == Rank(target, n))
              && gt == (Rank(tagValue, n) > Rank(target, n))
            else !lt && !eq && !gt
  {
    SemverSigns(tagKey, target, tagValue);
    if ParseVersion(target).Some? && ParseVersion(tagValue).Some? {
      SemverRanks(tagValue, target, n);
    }
  }

  /** A version gate selects an interval of versions: what is at least (above) the target stays so when
      the tag's version grows, what is at most (below) it when the version shrinks; and spellings
      of one version, as 1.2 and 1.2.0 are, satisfy the same conditions. */
  lemma SemverGatesAreIntervals(condition: FlagCondition, older: string, newer: string)
    requires IsSemverOperator(condition.operator)
    requires ParseVersion(older).Some? && ParseVersion(newer).Some?
    requires CompareVersions(ParseVersion(older).value, ParseVersion(newer).value) <= 0
    ensures condition.operator == "semver_gt" || condition.operator == "semver_gte" ==>
              (ConditionHolds(condition, older) ==> ConditionHolds(condition, newer))
    ensures condition.operator == "semver_lt" || condition.operator == "semver_lte" ==>
              (ConditionHolds(condition, newer) ==> ConditionHolds(condition, older))
    ensures CompareVersions(ParseVersion(older).value, ParseVersion(newer).value) == 0 ==>
              ConditionHolds(condition, newer) == ConditionHolds(condition, older)
  {
    OperatorsDiffer();
    if ParseVersion(condition.value).Some? {
      OrderCarriesOver(older, newer, condition.value);
    }
  }

  lemma OrderCarriesOver(older: string, newer: string, target: string)
    requires ParseVersion(older).Some? && ParseVersion(newer).Some? && ParseVersion(target).Some?
    requires CompareVersions(ParseVersion(older).value, ParseVersion(newer).value) <= 0
    ensures var same := CompareVersions(ParseVersion(older).value, ParseVersion(newer).value) == 0;
            var before := CompareVersions(ParseVersion(older).value, ParseVersion(target).value);
            var after := CompareVersions(ParseVersion(newer).value, ParseVersion(target).value);
            before <= after && (same ==> before == after)
  {
    var n := Max(|ParseVersion(target).value|, Max(|ParseVersion(older).value|, |ParseVersion(newer).value|));
    SemverRanks(older, target, n);
    SemverRanks(newer, target, n);
    SemverRanks(older, newer, n);
  }

  /** The string operators are exact and complementary; an unknown operator never holds. */
  lemma StringOperators(tagKey: string, operator: string, target: string, tagValue: string)
    ensures ConditionHolds(FlagCondition(tagKey, "eq", target), tagValue)
         != ConditionHolds(FlagCondition(tagKey, "neq", target), tagValue)
    ensures ConditionHolds(FlagCondition(tagKey, "eq", target), tagValue) <==> tagValue == target
    ensures ConditionHolds(FlagCondition(tagKey, "contains", target), tagValue)
       <==> exists before: string, after: string :: tagValue == before + target + after
    ensures operator != "eq" && operator != "neq" && operator != "contains"
            && operator !in {"semver_eq", "semver_gt", "semver_gte", "semver_lt", "semver_lte"} ==>
              !ConditionHolds(FlagCondition(tagKey, operator, target), tagValue)
  {
    OperatorsDiffer();
    Text.ContainsMeaning(tagValue, target);
  }

  /** The operator names are pairwise different strings where lengths alone do not tell. */
  lemma OperatorsDiffer()
    ensures OP_SEMVER_EQ != OP_SEMVER_GT && OP_SEMVER_EQ != OP_SEMVER_LT && OP_SEMVER_GT != OP_SEMVER_LT
    ensures OP_SEMVER_GTE != OP_SEMVER_LTE
    ensures !IsSemverOperator(OP_EQ) && !IsSemverOperator(OP_NEQ) && !IsSemverOperator(OP_CONTAINS)
  {
    assert OP_SEMVER_EQ[7] == 'e' && OP_SEMVER_GT[7] == 'g' && OP_SEMVER_LT[7] == 'l';
    assert OP_SEMVER_GTE[7] == 'g' && OP_SEMVER_LTE[7] == 'l';
  }

  // --------------------------------------------- edits that preserve every answer

  /** No tag value satisfies both conditions. */
  predicate Contradictory(a: FlagCondition, b: FlagCondition) {
    a.tagKey == b.tagKey &&
    (|| (a.operator == "eq" && b.operator == "neq" && a.value == b.value)
     || (a.operator == "eq" && b.operator == "eq" && a.value != b.value)
     || (a.operator == "semver_lt" && b.operator == "semver_gte" && NotAbove(a.value, b.value)))
  }

  /** `v` is not a newer version than `w`, when both are versions. */
  predicate NotAbove(v: string, w: string) {
    var p, q := ParseVersion(v), ParseVersion(w);
    p.Some? && q.Some? ==> CompareVersions(p.value, q.value) <= 0
  }

  lemma ContradictionsNeverHold(a: FlagCondition, b: FlagCondition, tagValue: string)
    requires Contradictory(a, b)
    ensures !(ConditionHolds(a, tagValue) && ConditionHolds(b, tagValue))
  {
    OperatorsDiffer();
    if a.operator == OP_SEMVER_LT && ConditionHolds(a, tagValue) && ParseVersion(b.value).Some? {
      ParsedIsBounded(tagValue);
      ParsedIsBounded(a.value);
      ParsedIsBounded(b.value);
      var x, v, w := ParseVersion(tagValue).value, ParseVersion(a.value).value, ParseVersion(b.value).value;
      VersionOrderIsTotal(w, v, x);
      VersionOrderIsTotal(w, x, v);
      VersionOrderIsTotal(v, w, x);
      VersionOrderIsTotal(x, v, w);
    }
  }

  datatype Edit =
    | Recondition(at: nat, conditions: seq<FlagCondition>)  // permute or duplicate conditions
    | SwapNeighbours(at: nat)                               // two rules serving the same value
    | CutAfter(at: nat)                                     // everything after a catch-all rule
    | DropContradiction(at: nat, a: nat, b: nat)            // a rule no context can match

  ghost predicate Applies(lib: Library, kind: string, rules: seq<FlagRule>, edit: Edit) {
    edit.at < |rules| &&
    var rule := rules[edit.at];
    match edit
    case Recondition(_, conditions) =>
      forall c :: c in conditions <==> c in rule.conditions
    case SwapNeighbours(at) =>
      at + 1 < |rules| && DecodeValue(lib, rule.serve, kind) == DecodeValue(lib, rules[at + 1].serve, kind)
    case CutAfter(_) =>
      rule.conditions == [] && rule.rollout.None? && DecodeValue(lib, rule.serve, kind).Some?
    case DropContradiction(_, a, b) =>
      a < |rule.conditions| && b < |rule.conditions| && Contradictory(rule.conditions[a], rule.conditions[b])
  }

  function ApplyEdit(rules: seq<FlagRule>, edit: Edit): seq<FlagRule>
    requires edit.at < |rules|
    requires edit.SwapNeighbours? ==> edit.at + 1 < |rules|
  {
    var at := edit.at;
    match edit
    case Recondition(_, conditions) => rules[..at] + [rules[at].(conditions := conditions)] + rules[at + 1..]
    case SwapNeighbours(_) => rules[..at] + [rules[at + 1], rules[at]] + rules[at + 2..]
    case CutAfter(_) => rules[..at] + [rules[at]]
    case DropContradiction(_, _, _) => rules[..at] + rules[at + 1..]
  }

  lemma SameConditions(rule: FlagRule, conditions: seq<FlagCondition>, tags: Tags)
    requires forall c :: c in conditions <==> c in rule.conditions
    ensures RuleMatches(rule, tags) == RuleMatches(rule.(conditions := conditions), tags)
  {
    var other := rule.(conditions := conditions);
    if RuleMatches(rule, tags) {
      assert forall i | 0 <= i < |conditions| :: conditions[i] in rule.conditions;
    }
    if RuleMatches(other, tags) {
      assert forall i | 0 <= i < |rule.conditions| :: rule.conditions[i] in conditions;
    }
  }

  /** Replacing a middle stretch by one that walks alike leaves the whole walk alike. */
  lemma WalkCongruence(lib: Library, front: seq<FlagRule>, mid: seq<FlagRule>, mid': seq<FlagRule>,
                       back: seq<FlagRule>, kind: string, tags: Tags, bucket: int)
    requires Walk(lib, mid, kind, tags, bucket) == Walk(lib, mid', kind, tags, bucket)
    ensures Walk(lib, front + mid + back, kind, tags, bucket) == Walk(lib, front + mid' + back, kind, tags, bucket)
  {
    WalkConcat(lib, front, mid, kind, tags, bucket);
    WalkConcat(lib, front, mid', kind, tags, bucket);
    WalkConcat(lib, front + mid, back, kind, tags, bucket);
    WalkConcat(lib, front + mid', back, kind, tags, bucket);
  }

  lemma WalkOne(lib: Library, rule: FlagRule, kind: string, tags: Tags, bucket: int)
    ensures Walk(lib, [rule], kind, tags, bucket)
         == if Serves(lib, rule, kind, tags, bucket) then DecodeValue(lib, rule.serve, kind) else None
  {
    assert [rule][1..] == [];
  }

  lemma EditPreservesWalk(lib: Library, kind: string, rules: seq<FlagRule>, edit: Edit, tags: Tags, bucket: int)
    requires Applies(lib, kind, rules, edit)
    ensures Walk(lib, ApplyEdit(rules, edit), kind, tags, bucket) == Walk(lib, rules, kind, tags, bucket)
  {
    var at := edit.at;
    var front, rule, back := rules[..at], rules[at], rules[at + 1..];
    assert rules == front + [rule] + back;
    WalkOne(lib, rule, kind, tags, bucket);
    match edit
    case Recondition(_, conditions) =>
      SameConditions(rule, conditions, tags);
      WalkOne(lib, rule.(conditions := conditions), kind, tags, bucket);
      WalkCongruence(lib, front, [rule], [rule.(conditions := conditions)], back, kind, tags, bucket);
    case SwapNeighbours(_) =>
      var next := rules[at + 1];
      WalkOne(lib, next, kind, tags, bucket);
      assert [rule, next] == [rule] + [next] && [next, rule] == [next] + [rule];
      WalkConcat(lib, [rule], [next], kind, tags, bucket);
      WalkConcat(lib, [next], [rule], kind, tags, bucket);
      assert rules == front + [rule, next] + rules[at + 2..];
      WalkCongruence(lib, front, [rule, next], [next, rule], rules[at + 2..], kind, tags, bucket);
    case CutAfter(_) =>
      WalkConcat(lib, front, [rule], kind, tags, bucket);
      WalkConcat(lib, front + [rule], back, kind, tags, bucket);
    case DropContradiction(_, a, b) =>
      var x, y := rule.conditions[a], rule.conditions[b];
      if RuleMatches(rule, tags) {
        assert TagSatisfies(x, tags) && TagSatisfies(y, tags);
        ContradictionsNeverHold(x, y, tags[x.tagKey]);
      }
      WalkCongruence(lib, front, [rule], [], back, kind, tags, bucket);
      assert front + [] + back == front + back;
  }

  ghost predicate AllApply(lib: Library, kind: string, rules: seq<FlagRule>, edits: seq<Edit>)
    decreases |edits|
  {
    edits == [] ||
    (Applies(lib, kind, rules, edits[0]) && AllApply(lib, kind, ApplyEdit(rules, edits[0]), edits[1..]))
  }

  ghost function ApplyEdits(lib: Library, kind: string, rules: seq<FlagRule>, edits: seq<Edit>): seq<FlagRule>
    requires AllApply(lib, kind, rules, edits)
    decreases |edits|
  {
    if edits == [] then rules else ApplyEdits(lib, kind, ApplyEdit(rules, edits[0]), edits[1..])
  }

  /** Any series of such edits leaves the flag's answer the same for every context. */
  lemma {:induction false} EditsPreserveMeaning(
    lib: Library, config: FlagConfig, edits: seq<Edit>, tags: Tags, contextKey: string, flagKey: string)
    requires AllApply(lib, config.kind, config.rules, edits)
    ensures Evaluate(lib, config.(rules := ApplyEdits(lib, config.kind, config.rules, edits)), tags, contextKey,
                     flagKey)
         == Evaluate(lib, config, tags, contextKey, flagKey)
    decreases |edits|
  {
    if edits != [] {
      var next := config.(rules := ApplyEdit(config.rules, edits[0]));
      EditPreservesWalk(lib, config.kind, config.rules, edits[0], tags, Bucket(lib, contextKey, flagKey));
      EditsPreserveMeaning(lib, next, edits[1..], tags, contextKey, flagKey);
    }
  }

  ghost predicate Named(rules: seq<FlagRule>, key: string) {
    exists i, j | 0 <= i < |rules| && 0 <= j < |rules[i].conditions| :: rules[i].conditions[j].tagKey == key
  }

  /** Tags that no condition names have no influence. */
  lemma UnnamedTagsAreIrrelevant(
    lib: Library, config: FlagConfig, tags: Tags, tags': Tags, contextKey: string, flagKey: string)
    requires forall key | Named(config.rules, key) ::
               (key in tags <==> key in tags') && (key in tags ==> tags[key] == tags'[key])
    ensures Evaluate(lib, config, tags, contextKey, flagKey) == Evaluate(lib, config, tags', contextKey, flagKey)
  {
    forall i | 0 <= i < |config.rules|
      ensures RuleMatches(config.rules[i], tags) == RuleMatches(config.rules[i], tags')
    {
      var rule := config.rules[i];
      forall j | 0 <= j < |rule.conditions|
        ensures TagSatisfies(rule.conditions[j], tags) == TagSatisfies(rule.conditions[j], tags')
      {
        assert Named(config.rules, rule.conditions[j].tagKey);
      }
    }
    WalkAgrees(lib, config.rules, config.kind, tags, tags', Bucket(lib, contextKey, flagKey));
  }

  lemma {:induction false} WalkAgrees(
    lib: Library, rules: seq<FlagRule>, kind: string, tags: Tags, tags': Tags, bucket: int)
    requires forall i | 0 <= i < |rules| :: RuleMatches(rules[i], tags) == RuleMatches(rules[i], tags')
    ensures Walk(lib, rules, kind, tags, bucket) == Walk(lib, rules, kind, tags', bucket)
  {
    if rules != [] {
      WalkAgrees(lib, rules[1..], kind, tags, tags', bucket);
    }
  }

  // ---------------------------------------------------------------- rollouts

  function WithGate(rule: FlagRule, percentage: int): FlagRule {
    rule.(rollout := Some(percentage))
  }

  /** Raising one rule's percentage from p to q, wherever the rule sits: only contexts whose
      bucket is in [p, q) can see a different answer, and whoever the rule served it still serves. */
  lemma RolloutIsMonotone(lib: Library, config: FlagConfig, at: nat, p: int, q: int,
                          tags: Tags, contextKey: string, flagKey: string)
    requires at < |config.rules| && p <= q
    ensures var b := lib.sha256Head(contextKey + ":" + flagKey) % 100;
            var atP := config.(rules := config.rules[at := WithGate(config.rules[at], p)]);
            var atQ := config.(rules := config.rules[at := WithGate(config.rules[at], q)]);
            && (Evaluate(lib, atP, tags, contextKey, flagKey) != Evaluate(lib, atQ, tags, contextKey, flagKey) ==>
                p <= b < q)
            && (FirstServing(lib, atP.rules, config.kind, tags, b, at) ==>
                FirstServing(lib, atQ.rules, config.kind, tags, b, at))
  {
    var b := Bucket(lib, contextKey, flagKey);
    var front, rule, back := config.rules[..at], config.rules[at], config.rules[at + 1..];
    var rulesP, rulesQ := config.rules[at := WithGate(rule, p)], config.rules[at := WithGate(rule, q)];
    assert rulesP == front + [WithGate(rule, p)] + back && rulesQ == front + [WithGate(rule, q)] + back;
    if !(p <= b < q) {
      WalkOne(lib, WithGate(rule, p), config.kind, tags, b);
      WalkOne(lib, WithGate(rule, q), config.kind, tags, b);
      SameMatch(rule, p, q, tags);
      WalkCongruence(lib, front, [WithGate(rule, p)], [WithGate(rule, q)], back, config.kind, tags, b);
    }
    if FirstServing(lib, rulesP, config.kind, tags, b, at) {
      SameMatch(rule, p, q, tags);
      assert forall j | 0 <= j < at :: rulesP[j] == rulesQ[j];
    }
  }

  lemma SameMatch(rule: FlagRule, p: int, q: int, tags: Tags)
    ensures RuleMatches(WithGate(rule, p), tags) == RuleMatches(WithGate(rule, q), tags) == RuleMatches(rule, tags)
    ensures RuleMatches(rule.(rollout := None), tags) == RuleMatches(rule, tags)
  {
  }

  /** A gate of 100 or more is no gate; a gate of 0 or less is no rule. */
  lemma RolloutExtremes(
    lib: Library, config: FlagConfig, at: nat, p: int, tags: Tags, contextKey: string, flagKey: string)
    requires at < |config.rules|
    ensures var gated := config.(rules := config.rules[at := WithGate(config.rules[at], p)]);
            var ungated := config.(rules := config.rules[at := config.rules[at].(rollout := None)]);
            var deleted := config.(rules := config.rules[..at] + config.rules[at + 1..]);
            && (p >= 100 ==>
                Evaluate(lib, gated, tags, contextKey, flagKey) == Evaluate(lib, ungated, tags, contextKey, flagKey))
            && (p <= 0 ==>
                Evaluate(lib, gated, tags, contextKey, flagKey) == Evaluate(lib, deleted, tags, contextKey, flagKey))
  {
    var b := Bucket(lib, contextKey, flagKey);
    var front, rule, back := config.rules[..at], config.rules[at], config.rules[at + 1..];
    var gate, open := WithGate(rule, p), rule.(rollout := None);
    assert config.rules[at := gate] == front + [gate] + back && config.rules[at := open] == front + [open] + back;
    SameMatch(rule, p, p, tags);
    WalkOne(lib, gate, config.kind, tags, b);
    WalkOne(lib, open, config.kind, tags, b);
    if p >= 100 {
      WalkCongruence(lib, front, [gate], [open], back, config.kind, tags, b);
    } else if p <= 0 {
      WalkCongruence(lib, front, [gate], [], back, config.kind, tags, b);
      assert front + [] + back == front + back;
    }
  }
}
