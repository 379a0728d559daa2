/** The Python string operations the modelled code uses. */
module PyStr {

  /** `s.endswith(suffix)` */
  predicate EndsWith(s: string, suffix: string): (b: bool)
    ensures b <==> |suffix| <= |s| && forall i :: 0 <= i < |suffix| ==> s[|s| - |suffix| + i] == suffix[i]
  {
    |suffix| <= |s| && s[|s| - |suffix|..] == suffix
  }

  /** `s.split(sep)[-1]`: the text after the last `sep`, or all of `s` when it has none. */
  function LastSegment(s: string, sep: char): (r: string)
    ensures sep !in r
    ensures |r| <= |s| && r == s[|s| - |r|..]
    ensures |r| < |s| ==> s[|s| - |r| - 1] == sep
    decreases |s|
  {
    if |s| == 0 || s[|s| - 1] == sep then ""
    else LastSegment(s[..|s| - 1], sep) + [s[|s| - 1]]
  }

  /** `s.split(sep)[0]`: the text before the first `sep`, or all of `s` when it has none. */
  function FirstSegment(s: string, sep: char): (r: string)
    ensures sep !in r
    ensures |r| <= |s| && r == s[..|r|]
    ensures |r| < |s| ==> s[|r|] == sep
    decreases |s|
  {
    if |s| == 0 || s[0] == sep then ""
    else [s[0]] + FirstSegment(s[1..], sep)
  }

  /** The segment after the last separator is whatever follows it. */
  lemma {:induction false} LastSegmentOfJoin(d: string, b: string, sep: char)
    requires sep !in b
    ensures LastSegment(d + [sep] + b, sep) == b
    decreases |b|
  {
    var s := d + [sep] + b;
    if |b| == 0 {
      assert s[|s| - 1] == sep;
    } else {
      var b', c := b[..|b| - 1], b[|b| - 1];
      assert c in b && s[|s| - 1] == c;
      assert s[..|s| - 1] == d + [sep] + b';
      LastSegmentOfJoin(d, b', sep);
      assert LastSegment(s, sep) == LastSegment(d + [sep] + b', sep) + [c];
      assert b == b' + [c];
    }
  }

  /** Text without the separator is its own first segment. */
  lemma FirstSegmentWithout(s: string, sep: char)
    requires sep !in s
    ensures FirstSegment(s, sep) == s
  {
  }

  /** Only the text up to the first separator decides the first segment. */
  lemma FirstSegmentOfPrefix(a: string, b: string, sep: char)
    requires sep in a
    ensures FirstSegment(a + b, sep) == FirstSegment(a, sep)
  {
    assert forall i :: 0 <= i < |a| ==> (a + b)[i] == a[i];
  }

  /** The first segment of `a + sep + b` is `a` when `a` holds no separator. */
  lemma FirstSegmentOfJoin(a: string, b: string, sep: char)
    requires sep !in a
    ensures FirstSegment(a + [sep] + b, sep) == a
  {
    var s := a + [sep];
    assert s[|a|] == sep;
    FirstSegmentOfPrefix(s, b, sep);
    assert s + b == a + [sep] + b;
  }
}
