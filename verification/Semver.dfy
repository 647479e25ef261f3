/** Dotted-numeric versions (semver.go): the two loops, what they compute, and what that means. */
module Semver {
  import opened Wrappers
  import Text

  const MAX_COMPONENT_DIGITS: nat := 10

  type Version = seq<nat>

  function Pow(base: nat, e: nat): nat {
    if e == 0 then 1 else base * Pow(base, e - 1)
  }

  /** One more than the largest component ten digits can spell. */
  const BASE: nat := 10_000_000_000

  // ---------------------------------------------------------------- parsing

  predicate IsDigit(c: char) { '0' <= c <= '9' }

  predicate AllDigits(part: string) {
    forall i | 0 <= i < |part| :: IsDigit(part[i])
  }

  predicate IsComponent(part: string) {
    1 <= |part| <= MAX_COMPONENT_DIGITS && AllDigits(part)
  }

  /** The number a run of digits spells, in unbounded arithmetic. */
  function DigitsValue(part: string): nat
    requires AllDigits(part)
  {
    if part == [] then 0
    else
      assert IsDigit(part[|part| - 1]);
      10 * DigitsValue(part[..|part| - 1]) + (part[|part| - 1] - '0') as int
  }

  predicate AreComponents(parts: seq<string>) {
    forall i | 0 <= i < |parts| :: IsComponent(parts[i])
  }

  function Values(parts: seq<string>): (v: Version)
    requires AreComponents(parts)
    ensures |v| == |parts|
    ensures forall i | 0 <= i < |v| :: v[i] == DigitsValue(parts[i])
  {
    if parts == [] then [] else [DigitsValue(parts[0])] + Values(parts[1..])
  }

  function ParseVersion(s: string): (v: Option<Version>) {
    var parts := Text.Split(s, '.');
    if AreComponents(parts) then Some(Values(parts)) else None
  }

  lemma {:induction false} DigitsBound(part: string)
    requires AllDigits(part)
    ensures DigitsValue(part) < Pow(10, |part|)
  {
    if part != [] {
      DigitsBound(part[..|part| - 1]);
      assert IsDigit(part[|part| - 1]);
    }
  }

  lemma {:induction false} PowMonotone(base: nat, e: nat, f: nat)
    requires base >= 1 && e <= f
    ensures 1 <= Pow(base, e) <= Pow(base, f)
    decreases f
  {
    if e < f {
      PowMonotone(base, e, f - 1);
    } else if e > 0 {
      PowMonotone(base, e - 1, e - 1);
    }
  }

  lemma ComponentBound(part: string)
    requires IsComponent(part)
    ensures DigitsValue(part) < BASE < UINT64
  {
    DigitsBound(part);
    PowMonotone(10, |part|, 10);
    assert Pow(10, 5) == 100_000;
    assert Pow(10, 10) == BASE;
  }

  /** One turn of the digit loop: the accumulator stays exact and far below 2^64. */
  lemma DigitsStep(part: string, i: nat)
    requires i < |part| <= MAX_COMPONENT_DIGITS && AllDigits(part[..i]) && IsDigit(part[i])
    ensures AllDigits(part[..i + 1])
    ensures DigitsValue(part[..i + 1]) == DigitsValue(part[..i]) * 10 + (part[i] - '0') as int < UINT64
  {
    assert part[..i + 1] == part[..i] + [part[i]];
    assert part[..i + 1][..i] == part[..i];
    ComponentBound(part[..i + 1]);
  }

  /** semver.go's nested loops, with the 64-bit accumulator's wrap-around written out. */
  method ParseVersionLoop(s: string) returns (v: Version, ok: bool)
    ensures ok == ParseVersion(s).Some?
    ensures ok ==> v == ParseVersion(s).value
    ensures !ok ==> v == []
  {
    if s == "" {
      assert !IsComponent(Text.Split(s, '.')[0]);
      return [], false;
    }
    var parts := Text.Split(s, '.');
    v := [];
    for k := 0 to |parts|
      invariant |v| == k
      invariant forall i | 0 <= i < k :: IsComponent(parts[i]) && v[i] == DigitsValue(parts[i])
    {
      var part := parts[k];
      if part == "" || |part| > MAX_COMPONENT_DIGITS {
        assert !IsComponent(parts[k]);
        return [], false;
      }
      var n := 0;
      for i := 0 to |part|
        invariant AllDigits(part[..i])
        invariant n == DigitsValue(part[..i]) < UINT64
      {
        var c := part[i];
        if c < '0' || c > '9' {
          assert !IsDigit(part[i]) && !IsComponent(parts[k]);
          return [], false;
        }
        DigitsStep(part, i);
        n := (n * 10 + (c - '0') as int) % UINT64;
      }
      assert part[..|part|] == part;
      v := v + [n];
    }
    assert v == Values(parts);
    return v, true;
  }

  lemma {:induction false} ValuesAppend(parts: seq<string>, part: string)
    requires AreComponents(parts) && IsComponent(part)
    ensures AreComponents(parts + [part])
    ensures Values(parts + [part]) == Values(parts) + [DigitsValue(part)]
  {
    if parts != [] {
      ValuesAppend(parts[1..], part);
      assert (parts + [part])[1..] == parts[1..] + [part];
    }
  }

  // ------------------------------------------------- the parser and its inverse

  /** Exactly the dotted runs of one to ten digits are versions. */
  lemma ParseAcceptsExactly(s: string)
    ensures ParseVersion(s).Some? <==>
            exists parts: seq<string> :: |parts| >= 1 && AreComponents(parts) && s == Text.Join(parts, '.')
    ensures ParseVersion(s).Some? ==> |ParseVersion(s).value| >= 1 && Bounded(ParseVersion(s).value)
  {
    Text.JoinOfSplit(s, '.');
    forall parts: seq<string> | |parts| >= 1 && AreComponents(parts) && s == Text.Join(parts, '.')
      ensures ParseVersion(s).Some?
    {
      ParseOfJoin(parts);
    }
    var split := Text.Split(s, '.');
    if AreComponents(split) {
      forall i | 0 <= i < |split| ensures DigitsValue(split[i]) < BASE {
        ComponentBound(split[i]);
      }
    }
  }

  lemma ParsedIsBounded(s: string)
    requires ParseVersion(s).Some?
    ensures Bounded(ParseVersion(s).value)
  {
    ParseAcceptsExactly(s);
  }

  lemma ParseOfJoin(parts: seq<string>)
    requires |parts| >= 1 && AreComponents(parts)
    ensures ParseVersion(Text.Join(parts, '.')) == Some(Values(parts))
  {
    assert Text.Free(parts, '.') by {
      forall i | 0 <= i < |parts| ensures '.' !in parts[i] {
        assert IsComponent(parts[i]);
      }
    }
    Text.SplitOfJoin(parts, '.');
  }

  function DigitChar(d: nat): (c: char)
    requires d < 10
    ensures IsDigit(c) && (c - '0') as int == d
  {
    '0' + d as char
  }

  /** The canonical decimal spelling: no leading zeros, "0" for zero. */
  function Decimal(n: nat): string {
    if n < 10 then [DigitChar(n)] else Decimal(n / 10) + [DigitChar(n % 10)]
  }

  function Decimals(v: Version): (parts: seq<string>)
    ensures |parts| == |v| && forall i | 0 <= i < |v| :: parts[i] == Decimal(v[i])
  {
    if v == [] then [] else [Decimal(v[0])] + Decimals(v[1..])
  }

  function Render(v: Version): string
    requires |v| >= 1
  {
    Text.Join(Decimals(v), '.')
  }

  lemma {:induction false} DecimalSpells(n: nat, digits: nat)
    requires digits >= 1 && n < Pow(10, digits)
    ensures AllDigits(Decimal(n)) && DigitsValue(Decimal(n)) == n
    ensures 1 <= |Decimal(n)| <= digits
  {
    if n < 10 {
      assert Decimal(n)[..0] == [];
    } else {
      assert digits > 1 by {
        assert Pow(10, 1) == 10;
      }
      DecimalSpells(n / 10, digits - 1);
      assert Decimal(n)[..|Decimal(n)| - 1] == Decimal(n / 10);
    }
  }

  predicate Bounded(v: Version) {
    forall i | 0 <= i < |v| :: v[i] < BASE
  }

  /** Rendering then parsing is the identity on every non-empty list of ten-digit components. */
  lemma ParseOfRender(v: Version)
    requires |v| >= 1 && Bounded(v)
    ensures ParseVersion(Render(v)) == Some(v)
  {
    var parts := Decimals(v);
    assert Pow(10, 5) == 100_000;
    forall i | 0 <= i < |parts| ensures IsComponent(parts[i]) && DigitsValue(parts[i]) == v[i] {
      DecimalSpells(v[i], 10);
    }
    ParseOfJoin(parts);
    assert Values(parts) == v;
  }

  function Zeros(k: nat): (z: string)
    ensures |z| == k && AllDigits(z)
  {
    if k == 0 then "" else Zeros(k - 1) + "0"
  }

  lemma {:induction false} ZerosBefore(k: nat, part: string)
    requires AllDigits(part)
    ensures AllDigits(Zeros(k) + part) && DigitsValue(Zeros(k) + part) == DigitsValue(part)
    decreases k + |part|
  {
    var s := Zeros(k) + part;
    if part != [] {
      ZerosBefore(k, part[..|part| - 1]);
      assert s[..|s| - 1] == Zeros(k) + part[..|part| - 1];
      assert s[|s| - 1] == part[|part| - 1];
    } else if k > 0 {
      ZerosBefore(k - 1, "");
      assert Zeros(k - 1) + "" == Zeros(k - 1);
      assert s[..|s| - 1] == Zeros(k - 1);
    }
  }

  /** Leading zeros within the digit limit do not change what a version parses to. */
  lemma LeadingZeros(parts: seq<string>, zeros: seq<nat>)
    requires |parts| >= 1 && |zeros| == |parts| && AreComponents(parts)
    requires forall i | 0 <= i < |parts| :: zeros[i] + |parts[i]| <= MAX_COMPONENT_DIGITS
    ensures ParseVersion(Text.Join(seq(|parts|, i requires 0 <= i < |parts| => Zeros(zeros[i]) + parts[i]), '.'))
         == ParseVersion(Text.Join(parts, '.')) == Some(Values(parts))
  {
    var padded := seq(|parts|, i requires 0 <= i < |parts| => Zeros(zeros[i]) + parts[i]);
    forall i | 0 <= i < |padded|
      ensures IsComponent(padded[i]) && DigitsValue(padded[i]) == DigitsValue(parts[i])
    {
      assert IsComponent(parts[i]);
      ZerosBefore(zeros[i], parts[i]);
    }
    ParseOfJoin(parts);
    ParseOfJoin(padded);
    assert Values(padded) == Values(parts);
  }

  // ---------------------------------------------------------------- comparing

  function Max(a: nat, b: nat): nat { if a < b then b else a }

  /** A missing component reads as zero. */
  function Component(v: Version, i: nat): nat {
    if i < |v| then v[i] else 0
  }

  function CompareFrom(a: Version, b: Version, i: nat): int
    decreases Max(|a|, |b|) - i
  {
    if i >= Max(|a|, |b|) then 0
    else if Component(a, i) < Component(b, i) then -1
    else if Component(a, i) > Component(b, i) then 1
    else CompareFrom(a, b, i + 1)
  }

  function CompareVersions(a: Version, b: Version): int { CompareFrom(a, b, 0) }

  /** semver.go's comparison loop. */
  method CompareVersionsLoop(a: Version, b: Version) returns (r: int)
    ensures r == CompareVersions(a, b)
  {
    var n := |a|;
    if |b| > n {
      n := |b|;
    }
    for i := 0 to n
      invariant CompareVersions(a, b) == CompareFrom(a, b, i)
    {
      var av, bv := 0, 0;
      if i < |a| {
        av := a[i];
      }
      if i < |b| {
        bv := b[i];
      }
      if av < bv {
        return -1;
      } else if av > bv {
        return 1;
      }
    }
    return 0;
  }

  // ------------------------------------------- the order is an order of integers

  function Sign(x: int): int { if x < 0 then -1 else if x > 0 then 1 else 0 }

  /** Components `i..n` of `v`, zero-padded, read as the digits of a base-10^10 number. */
  function Encode(v: Version, i: nat, n: nat): nat
    requires i <= n
    decreases n - i
  {
    if i == n then 0 else Component(v, i) * Pow(BASE, n - i - 1) + Encode(v, i + 1, n)
  }

  lemma {:induction false} EncodeBound(v: Version, i: nat, n: nat)
    requires i <= n && Bounded(v)
    ensures Encode(v, i, n) < Pow(BASE, n - i)
    decreases n - i
  {
    if i < n {
      EncodeBound(v, i + 1, n);
      var p := Pow(BASE, n - i - 1);
      assert Component(v, i) <= BASE - 1;
      assert Component(v, i) * p <= (BASE - 1) * p;
    }
  }

  /** A smaller leading digit outweighs everything below it. */
  lemma LeadingDigit(x: nat, y: nat, p: nat, low: nat, high: nat)
    requires x < y && low < p
    ensures x * p + low < y * p + high
  {
    assert (x + 1) * p <= y * p;
  }

  lemma {:induction false} CompareFromIsOrder(a: Version, b: Version, i: nat, n: nat)
    requires Bounded(a) && Bounded(b) && i <= n && |a| <= n && |b| <= n
    ensures CompareFrom(a, b, i) == Sign(Encode(a, i, n) - Encode(b, i, n))
    decreases n - i
  {
    if i < n {
      var p := Pow(BASE, n - i - 1);
      EncodeBound(a, i + 1, n);
      EncodeBound(b, i + 1, n);
      var x, y := Component(a, i), Component(b, i);
      CompareFromIsOrder(a, b, i + 1, n);
      if x < y {
        LeadingDigit(x, y, p, Encode(a, i + 1, n), Encode(b, i + 1, n));
      } else if y < x {
        LeadingDigit(y, x, p, Encode(b, i + 1, n), Encode(a, i + 1, n));
      }
    }
  }

  /** The home-made comparison is integer comparison of the padded base-10^10 encodings. */
  lemma VersionOrderEmbedding(a: Version, b: Version, n: nat)
    requires Bounded(a) && Bounded(b) && |a| <= n && |b| <= n
    ensures CompareVersions(a, b) == Sign(Encode(a, 0, n) - Encode(b, 0, n))
  {
    CompareFromIsOrder(a, b, 0, n);
  }

  /** Antisymmetric, transitive and total, as a consequence. */
  lemma VersionOrderIsTotal(a: Version, b: Version, c: Version)
    requires Bounded(a) && Bounded(b) && Bounded(c)
    ensures CompareVersions(a, b) == -CompareVersions(b, a)
    ensures CompareVersions(a, b) <= 0 && CompareVersions(b, c) <= 0 ==> CompareVersions(a, c) <= 0
    ensures CompareVersions(a, b) <= 0 && CompareVersions(b, c) < 0 ==> CompareVersions(a, c) < 0
    ensures CompareVersions(a, b) in {-1, 0, 1}
  {
    var n := |a| + |b| + |c|;
    VersionOrderEmbedding(a, b, n);
    VersionOrderEmbedding(b, a, n);
    VersionOrderEmbedding(b, c, n);
    VersionOrderEmbedding(a, c, n);
  }

  function StripTrailingZeros(v: Version): Version {
    if v == [] || v[|v| - 1] != 0 then v else StripTrailingZeros(v[..|v| - 1])
  }

  lemma {:induction false} StripKeepsComponents(v: Version, i: nat)
    ensures Component(StripTrailingZeros(v), i) == Component(v, i)
    ensures var s := StripTrailingZeros(v); s == [] || s[|s| - 1] != 0
    decreases |v|
  {
    if v != [] && v[|v| - 1] == 0 {
      StripKeepsComponents(v[..|v| - 1], i);
    }
  }

  lemma {:induction false} CompareFromZero(a: Version, b: Version, i: nat)
    ensures CompareFrom(a, b, i) == 0 <==> forall j | i <= j :: Component(a, j) == Component(b, j)
    decreases Max(|a|, |b|) - i
  {
    if i < Max(|a|, |b|) {
      CompareFromZero(a, b, i + 1);
      if Component(a, i) == Component(b, i) {
        assert forall j | i <= j :: i < j ==> i + 1 <= j && Component(a, j) == Component(a, j);
      }
    }
  }

  /** Versions compare equal exactly when they agree after dropping trailing zeros. */
  lemma VersionEquality(a: Version, b: Version)
    ensures CompareVersions(a, b) == 0 <==> StripTrailingZeros(a) == StripTrailingZeros(b)
  {
    CompareFromZero(a, b, 0);
    var x, y := StripTrailingZeros(a), StripTrailingZeros(b);
    forall j: nat ensures Component(x, j) == Component(a, j) && Component(y, j) == Component(b, j) {
      StripKeepsComponents(a, j);
      StripKeepsComponents(b, j);
    }
    StripKeepsComponents(a, 0);
    StripKeepsComponents(b, 0);
    if CompareVersions(a, b) == 0 {
      assert forall j: nat :: Component(x, j) == Component(y, j);
      assert |x| == |y| by {
        assert |x| < |y| ==> Component(x, |y| - 1) == Component(y, |y| - 1);
        assert |y| < |x| ==> Component(x, |x| - 1) == Component(y, |x| - 1);
      }
      assert forall j | 0 <= j < |x| :: x[j] == Component(x, j) == Component(y, j) == y[j];
    } else {
      var j: nat :| Component(a, j) != Component(b, j);
      assert Component(x, j) != Component(y, j);
    }
  }

  lemma {:induction false} CompareSameComponents(a: Version, a': Version, b: Version, i: nat)
    requires forall j: nat :: Component(a, j) == Component(a', j)
    ensures CompareFrom(a, b, i) == CompareFrom(a', b, i)
    ensures CompareFrom(b, a, i) == CompareFrom(b, a', i)
    decreases Max(Max(|a|, |a'|), |b|) - i
  {
    if i < Max(Max(|a|, |a'|), |b|) {
      assert Component(a, i) == Component(a', i);
      CompareSameComponents(a, a', b, i + 1);
      CompareFromZero(a, b, i + 1);
      CompareFromZero(a', b, i + 1);
      CompareFromZero(b, a, i + 1);
      CompareFromZero(b, a', i + 1);
    }
  }

  /** An appended ".0" parses, and never changes a comparison on either side. */
  lemma AppendedZero(s: string, b: Version)
    requires ParseVersion(s).Some?
    ensures ParseVersion(s + ".0") == Some(ParseVersion(s).value + [0])
    ensures CompareVersions(ParseVersion(s).value + [0], b) == CompareVersions(ParseVersion(s).value, b)
    ensures CompareVersions(b, ParseVersion(s).value + [0]) == CompareVersions(b, ParseVersion(s).value)
  {
    AppendedZeroParses(s);
    AppendedZeroCompares(ParseVersion(s).value, b);
  }

  lemma ZeroIsComponent()
    ensures IsComponent("0") && DigitsValue("0") == 0
  {
    assert "0"[..0] == "";
  }

  lemma DotZero(s: string)
    ensures s + ".0" == s + ['.'] + "0"
  {
    assert ".0" == ['.'] + "0";
  }

  lemma AppendedZeroParses(s: string)
    requires ParseVersion(s).Some?
    ensures ParseVersion(s + ".0") == Some(ParseVersion(s).value + [0])
  {
    DotZero(s);
    Text.SplitAppend(s, '.', "0");
    ZeroIsComponent();
    ValuesAppend(Text.Split(s, '.'), "0");
  }

  lemma AppendedZeroCompares(a: Version, b: Version)
    ensures CompareVersions(a + [0], b) == CompareVersions(a, b)
    ensures CompareVersions(b, a + [0]) == CompareVersions(b, a)
  {
    CompareSameComponents(a, a + [0], b, 0);
  }
}
