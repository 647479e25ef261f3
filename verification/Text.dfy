/** The four functions of Go's `strings` package that the SDK's parsers lean on, given real
    definitions, and the inverse laws between splitting and joining. A `char` stands for one
    byte of a Go string. */
module Text {
  import opened Wrappers

  /** `strings.Index` for a one-byte separator: the first position, or -1. */
  function Index(s: string, sep: char): (i: int)
    ensures -1 <= i < |s|
    ensures 0 <= i ==> s[i] == sep && forall k | 0 <= k < i :: s[k] != sep
    ensures i < 0 ==> sep !in s
  {
    if s == [] then -1
    else if s[0] == sep then 0
    else
      var rest := Index(s[1..], sep);
      if rest < 0 then -1
      else
        assert forall k | 0 < k < rest + 1 :: s[k] == s[1..][k - 1];
        rest + 1
  }

  /** `strings.Split` for a one-byte separator. */
  function Split(s: string, sep: char): (parts: seq<string>)
    ensures |parts| >= 1
  {
    var i := Index(s, sep);
    if i < 0 then [s] else [s[..i]] + Split(s[i + 1..], sep)
  }

  /** `strings.SplitN` for a one-byte separator and a positive limit. */
  function SplitN(s: string, sep: char, limit: nat): (parts: seq<string>)
    requires limit >= 1
    ensures 1 <= |parts| <= limit
  {
    var i := Index(s, sep);
    if limit == 1 || i < 0 then [s] else [s[..i]] + SplitN(s[i + 1..], sep, limit - 1)
  }

  predicate OccursAt(s: string, sub: string, i: nat)
    requires i + |sub| <= |s|
  {
    s[i..i + |sub|] == sub
  }

  /** `strings.Contains`. */
  predicate Contains(s: string, sub: string) {
    exists i | 0 <= i <= |s| - |sub| :: OccursAt(s, sub, i)
  }

  /** Containing is sitting between some prefix and some suffix. */
  lemma ContainsMeaning(s: string, sub: string)
    ensures Contains(s, sub) <==> exists before: string, after: string :: s == before + sub + after
  {
    if Contains(s, sub) {
      var i :| 0 <= i <= |s| - |sub| && OccursAt(s, sub, i);
      assert s == s[..i] + sub + s[i + |sub|..];
    }
    if before: string, after: string :| s == before + sub + after {
      assert OccursAt(s, sub, |before|);
    }
  }

  function Join(parts: seq<string>, sep: char): string
    requires |parts| >= 1
  {
    if |parts| == 1 then parts[0] else parts[0] + [sep] + Join(parts[1..], sep)
  }

  ghost predicate Free(parts: seq<string>, sep: char) {
    forall i | 0 <= i < |parts| :: sep !in parts[i]
  }

  /** The first separator of `head + [sep] + tail` is the one shown, when `head` has none. */
  lemma {:induction false} IndexOfFirst(head: string, sep: char, tail: string)
    requires sep !in head
    ensures Index(head + [sep] + tail, sep) == |head|
  {
    var s := head + [sep] + tail;
    assert s[|head|] == sep;
    assert forall k | 0 <= k < |head| :: s[k] == head[k] && head[k] in head;
    assert Index(s, sep) <= |head|;
  }

  lemma SplitAtFirst(head: string, sep: char, tail: string)
    requires sep !in head
    ensures Split(head + [sep] + tail, sep) == [head] + Split(tail, sep)
  {
    var s := head + [sep] + tail;
    IndexOfFirst(head, sep, tail);
    assert s[..|head|] == head && s[|head| + 1..] == tail;
  }

  lemma {:induction false} SplitOfJoin(parts: seq<string>, sep: char)
    requires |parts| >= 1 && Free(parts, sep)
    ensures Split(Join(parts, sep), sep) == parts
  {
    if |parts| > 1 {
      SplitAtFirst(parts[0], sep, Join(parts[1..], sep));
      SplitOfJoin(parts[1..], sep);
    }
  }

  lemma CutAtFirst(s: string, sep: char)
    requires Index(s, sep) >= 0
    ensures var i := Index(s, sep); s == s[..i] + [sep] + s[i + 1..] && sep !in s[..i]
  {
  }

  lemma {:induction false} JoinOfSplit(s: string, sep: char)
    ensures Join(Split(s, sep), sep) == s && Free(Split(s, sep), sep)
    decreases |s|
  {
    if Index(s, sep) >= 0 {
      var head, tail := s[..Index(s, sep)], s[Index(s, sep) + 1..];
      JoinOfSplit(tail, sep);
      CutAtFirst(s, sep);
      JoinCons(head, Split(tail, sep), sep);
    }
  }

  lemma JoinCons(head: string, rest: seq<string>, sep: char)
    requires |rest| >= 1
    ensures Join([head] + rest, sep) == head + [sep] + Join(rest, sep)
    ensures sep !in head && Free(rest, sep) ==> Free([head] + rest, sep)
  {
    assert ([head] + rest)[1..] == rest;
  }

  /** Appending one more separated part appends it to the split. */
  lemma {:induction false} SplitAppend(s: string, sep: char, part: string)
    requires sep !in part
    ensures Split(s + [sep] + part, sep) == Split(s, sep) + [part]
    decreases |s|
  {
    var i := Index(s, sep);
    if i < 0 {
      SplitAtFirst(s, sep, part);
    } else {
      var head, tail := s[..i], s[i + 1..];
      assert s == head + [sep] + tail;
      assert s + [sep] + part == head + [sep] + (tail + [sep] + part);
      assert sep !in head;
      SplitAtFirst(head, sep, tail);
      SplitAtFirst(head, sep, tail + [sep] + part);
      SplitAppend(tail, sep, part);
    }
  }

  /** `s` is three fields around two separators, the first two fields separator-free. */
  ghost predicate IsThree(s: string, sep: char, a: string, b: string, c: string) {
    s == a + [sep] + (b + [sep] + c) && sep !in a && sep !in b
  }

  /** The text before the first separator, between the first two, and after them. */
  function CutTwice(s: string, sep: char): Option<(string, string, string)> {
    var i := Index(s, sep);
    if i < 0 then None
    else
      var j := Index(s[i + 1..], sep);
      if j < 0 then None else Some((s[..i], s[i + 1..][..j], s[i + 1..][j + 1..]))
  }

  lemma SplitNIsCutTwice(s: string, sep: char)
    ensures var cut, parts := CutTwice(s, sep), SplitN(s, sep, 3);
            if cut.Some? then parts == [cut.value.0, cut.value.1, cut.value.2] else |parts| < 3
  {
    var i := Index(s, sep);
    if i >= 0 {
      var tail := s[i + 1..];
      var j := Index(tail, sep);
      if j >= 0 {
        assert SplitN(tail, sep, 2) == [tail[..j]] + SplitN(tail[j + 1..], sep, 1);
      }
    }
  }

  lemma CutTwiceOf(a: string, b: string, c: string, sep: char)
    requires sep !in a && sep !in b
    ensures CutTwice(a + [sep] + (b + [sep] + c), sep) == Some((a, b, c))
  {
    var tail := b + [sep] + c;
    var s := a + [sep] + tail;
    IndexOfFirst(a, sep, tail);
    assert s[..|a|] == a && s[|a| + 1..] == tail;
    IndexOfFirst(b, sep, c);
    assert tail[..|b|] == b && tail[|b| + 1..] == c;
  }

  lemma CutTwiceIsThree(s: string, sep: char)
    requires CutTwice(s, sep).Some?
    ensures var cut := CutTwice(s, sep).value; IsThree(s, sep, cut.0, cut.1, cut.2)
  {
    CutAtFirst(s, sep);
    CutAtFirst(s[Index(s, sep) + 1..], sep);
  }

  /** A split limited to three is the one way to cut at the first two separators. */
  lemma SplitNThree(s: string, sep: char)
    ensures forall a, b, c | IsThree(s, sep, a, b, c) ::
              CutTwice(s, sep) == Some((a, b, c)) && SplitN(s, sep, 3) == [a, b, c]
    ensures var p := SplitN(s, sep, 3); |p| == 3 ==> IsThree(s, sep, p[0], p[1], p[2])
  {
    SplitNIsCutTwice(s, sep);
    if CutTwice(s, sep).Some? {
      CutTwiceIsThree(s, sep);
    }
    forall a, b, c | IsThree(s, sep, a, b, c) ensures CutTwice(s, sep) == Some((a, b, c)) {
      CutTwiceOf(a, b, c, sep);
    }
  }
}
