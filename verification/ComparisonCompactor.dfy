/**
 ComparisonCompactor: shortens two different strings to their differing middle parts with some context.
 The class is the one of junit.framework, and the one nested in org.junit.ComparisonFailure.
 */
module ComparisonCompactor {
  import opened Wrappers

  const ELLIPSIS := "..."
  const DELTA_END := "]"
  const DELTA_START := "["

  // ---------------------------------------------------------------- common prefix and suffix, by their meaning

  ghost predicate CommonPrefix(a: string, b: string, n: int) {
    0 <= n <= |a| && n <= |b| && a[..n] == b[..n]
  }

  ghost predicate LongestCommonPrefix(a: string, b: string, n: int) {
    CommonPrefix(a, b, n) && forall m :: CommonPrefix(a, b, m) ==> m <= n
  }

  // The last n characters agree, and they do not reach into the first `prefix` characters.
  ghost predicate CommonSuffix(a: string, b: string, prefix: int, n: int) {
    0 <= n <= |a| - prefix && n <= |b| - prefix && 0 <= prefix && a[|a| - n..] == b[|b| - n..]
  }

  ghost predicate LongestCommonSuffix(a: string, b: string, prefix: int, n: int) {
    CommonSuffix(a, b, prefix, n) && forall m :: CommonSuffix(a, b, prefix, m) ==> m <= n
  }

  lemma PrefixAgreesAt(a: string, b: string, m: int, n: int)
    requires CommonPrefix(a, b, m) && 0 <= n
    ensures m <= n || a[n] == b[n]
  {
    assert m <= n || a[..m][n] == b[..m][n];
  }

  lemma PrefixGrows(a: string, b: string, n: int)
    requires CommonPrefix(a, b, n)
    ensures n < |a| && n < |b| && a[n] == b[n] ==> CommonPrefix(a, b, n + 1)
  {
    if n < |a| && n < |b| {
      assert a[..n + 1] == a[..n] + [a[n]] && b[..n + 1] == b[..n] + [b[n]];
    }
  }

  lemma PrefixStopsAtDifference(a: string, b: string, n: int)
    requires CommonPrefix(a, b, n)
    requires n == |a| || n == |b| || a[n] != b[n]
    ensures LongestCommonPrefix(a, b, n)
  {
    forall m | CommonPrefix(a, b, m)
      ensures m <= n
    {
      PrefixAgreesAt(a, b, m, n);
    }
  }

  lemma SuffixAgreesAt(a: string, b: string, prefix: int, m: int, n: int)
    requires CommonSuffix(a, b, prefix, m) && 0 <= n
    ensures m <= n || a[|a| - n - 1] == b[|b| - n - 1]
  {
    assert m <= n || a[|a| - m..][m - n - 1] == b[|b| - m..][m - n - 1];
  }

  lemma SuffixGrows(a: string, b: string, prefix: int, n: int)
    requires CommonSuffix(a, b, prefix, n)
    ensures n < |a| - prefix && n < |b| - prefix && a[|a| - n - 1] == b[|b| - n - 1] ==> CommonSuffix(a, b, prefix, n + 1)
  {
    if n < |a| - prefix && n < |b| - prefix {
      var i, j := |a| - n - 1, |b| - n - 1;
      assert a[i..] == [a[i]] + a[i + 1..] && b[j..] == [b[j]] + b[j + 1..];
    }
  }

  lemma SuffixStopsAtDifference(a: string, b: string, prefix: int, n: int)
    requires CommonSuffix(a, b, prefix, n)
    requires n == |a| - prefix || n == |b| - prefix || a[|a| - n - 1] != b[|b| - n - 1]
    ensures LongestCommonSuffix(a, b, prefix, n)
  {
    forall m | CommonSuffix(a, b, prefix, m)
      ensures m <= n
    {
      SuffixAgreesAt(a, b, prefix, m, n);
    }
  }

  // What the backward scan has found when it stands at these two indices.
  ghost predicate SuffixFrom(a: string, b: string, prefix: int, i: int, j: int) {
    && 0 <= prefix && prefix - 1 <= i < |a| && prefix - 1 <= j < |b| && |a| - i == |b| - j
    && CommonSuffix(a, b, prefix, |a| - i - 1)
  }

  lemma NoSuffix(a: string, b: string, prefix: int)
    requires CommonPrefix(a, b, prefix)
    ensures SuffixFrom(a, b, prefix, |a| - 1, |b| - 1)
  {
  }

  lemma SuffixStep(a: string, b: string, prefix: int, i: int, j: int)
    requires SuffixFrom(a, b, prefix, i, j) && prefix <= i && prefix <= j
    ensures 0 <= i < |a| && 0 <= j < |b|
    ensures a[i] == b[j] ==> SuffixFrom(a, b, prefix, i - 1, j - 1)
    ensures a[i] != b[j] ==> LongestCommonSuffix(a, b, prefix, |a| - i - 1)
  {
    SuffixGrows(a, b, prefix, |a| - i - 1);
    if a[i] != b[j] {
      SuffixStopsAtDifference(a, b, prefix, |a| - i - 1);
    }
    hide CommonSuffix, LongestCommonSuffix;
  }

  lemma SuffixEnd(a: string, b: string, prefix: int, i: int, j: int)
    requires SuffixFrom(a, b, prefix, i, j) && (i < prefix || j < prefix)
    ensures LongestCommonSuffix(a, b, prefix, |a| - i - 1)
  {
    SuffixStopsAtDifference(a, b, prefix, |a| - i - 1);
  }

  // ---------------------------------------------------------------- the compacted string

  // The part of `source` between the common prefix and the common suffix.
  function Delta(source: string, prefix: nat, suffix: nat): string
    requires prefix + suffix <= |source|
  {
    source[prefix..|source| - suffix]
  }

  // The end of the common prefix that is shown.
  function Before(source: string, prefix: nat, context: nat): string
    requires prefix <= |source|
  {
    if prefix <= context then source[..prefix] else ELLIPSIS + source[prefix - context..prefix]
  }

  // The start of the common suffix that is shown.
  function After(source: string, suffix: nat, context: nat): string
    requires suffix <= |source|
  {
    if suffix <= context then source[|source| - suffix..]
    else source[|source| - suffix..|source| - suffix + context] + ELLIPSIS
  }

  function Compacted(source: string, prefix: nat, suffix: nat, context: nat): string
    requires prefix + suffix <= |source|
  {
    Before(source, prefix, context) + DELTA_START + Delta(source, prefix, suffix) + DELTA_END + After(source, suffix, context)
  }

  function Rendered(s: Option<string>): string {
    if s.Some? then s.value else "null"
  }

  // Assert.format
  function Format(message: Option<string>, expected: Option<string>, actual: Option<string>): string {
    (if message.Some? then message.value + " " else "")
    + "expected:<" + Rendered(expected) + "> but was:<" + Rendered(actual) + ">"
  }

  // The lengths the scans find: a longest common prefix and the longest common suffix behind it.
  ghost predicate Scanned(expected: string, actual: string, prefix: nat, suffix: nat) {
    LongestCommonPrefix(expected, actual, prefix) && LongestCommonSuffix(expected, actual, prefix, suffix)
  }

  lemma ScannedOnce(expected: string, actual: string, p: nat, s: nat, q: nat, u: nat)
    requires Scanned(expected, actual, p, s) && Scanned(expected, actual, q, u)
    ensures p == q && s == u
  {
  }

  // The result for strings that are scanned to these lengths.
  ghost predicate CompactedAt(message: Option<string>, expected: string, actual: string,
                              prefix: nat, suffix: nat, context: nat, r: Option<string>) {
    && Scanned(expected, actual, prefix, suffix)
    && prefix + suffix <= |expected| && prefix + suffix <= |actual|
    && r == Some(Format(message,
                        Some(Compacted(expected, prefix, suffix, context)),
                        Some(Compacted(actual, prefix, suffix, context))))
  }

  // ---------------------------------------------------------------- properties of the two outputs

  lemma SameContext(expected: string, actual: string, prefix: nat, suffix: nat, context: nat)
    requires Scanned(expected, actual, prefix, suffix)
    ensures Before(expected, prefix, context) == Before(actual, prefix, context)
    ensures After(expected, suffix, context) == After(actual, suffix, context)
    ensures prefix + suffix <= |expected| && prefix + suffix <= |actual|
  {
    if prefix > context {
      assert expected[..prefix][prefix - context..] == expected[prefix - context..prefix];
      assert actual[..prefix][prefix - context..] == actual[prefix - context..prefix];
    }
    if suffix > context {
      assert expected[|expected| - suffix..][..context] == expected[|expected| - suffix..|expected| - suffix + context];
      assert actual[|actual| - suffix..][..context] == actual[|actual| - suffix..|actual| - suffix + context];
    }
  }

  lemma CancelBoth(a: string, x: string, y: string, c: string)
    ensures a + x + c == a + y + c ==> x == y
  {
    assert |a + x + c| == |a| + |x| + |c| && |a + y + c| == |a| + |y| + |c|;
    assert (a + x + c)[|a|..|a| + |x|] == x && (a + y + c)[|a|..|a| + |y|] == y;
  }

  lemma Reassembles(source: string, prefix: nat, suffix: nat)
    requires prefix + suffix <= |source|
    ensures source == source[..prefix] + Delta(source, prefix, suffix) + source[|source| - suffix..]
  {
  }

  // Different strings stay different: the compaction never hides the difference, for any context length.
  lemma CompactedDiffer(expected: string, actual: string, prefix: nat, suffix: nat, context: nat)
    requires Scanned(expected, actual, prefix, suffix) && expected != actual
    ensures prefix + suffix <= |expected| && prefix + suffix <= |actual|
    ensures Compacted(expected, prefix, suffix, context) != Compacted(actual, prefix, suffix, context)
  {
    SameContext(expected, actual, prefix, suffix, context);
    Reassembles(expected, prefix, suffix);
    Reassembles(actual, prefix, suffix);
    var x, y := Delta(expected, prefix, suffix), Delta(actual, prefix, suffix);
    assert x != y;
    CompactedParts(expected, prefix, suffix, context);
    CompactedParts(actual, prefix, suffix, context);
    hide *;
    CancelBoth(Before(expected, prefix, context) + DELTA_START, x, y, DELTA_END + After(expected, suffix, context));
  }

  lemma CompactedParts(source: string, prefix: nat, suffix: nat, context: nat)
    requires prefix + suffix <= |source|
    ensures Compacted(source, prefix, suffix, context) ==
            (Before(source, prefix, context) + DELTA_START) + Delta(source, prefix, suffix)
            + (DELTA_END + After(source, suffix, context))
  {
    hide Before, After, Delta;
  }

  // The marked parts are as short as they can be: they start with different characters and end with
  // different characters, or one of them is empty.
  lemma DeltasDiffer(expected: string, actual: string, prefix: nat, suffix: nat)
    requires Scanned(expected, actual, prefix, suffix)
    ensures prefix + suffix <= |expected| && prefix + suffix <= |actual|
    ensures var x, y := Delta(expected, prefix, suffix), Delta(actual, prefix, suffix);
            x != [] && y != [] ==> x[0] != y[0] && x[|x| - 1] != y[|y| - 1]
  {
    PrefixGrows(expected, actual, prefix);
    SuffixGrows(expected, actual, prefix, suffix);
  }

  // Swapping expected and actual swaps the outputs.
  lemma ScannedSymmetric(expected: string, actual: string, prefix: nat, suffix: nat)
    ensures Scanned(expected, actual, prefix, suffix) <==> Scanned(actual, expected, prefix, suffix)
  {
    assert forall m :: CommonPrefix(expected, actual, m) <==> CommonPrefix(actual, expected, m);
    assert forall m :: CommonSuffix(expected, actual, prefix, m) <==> CommonSuffix(actual, expected, prefix, m);
  }

  lemma ShownBefore(source: string, prefix: nat, context: nat)
    requires prefix <= |source|
    ensures var shown := if prefix < context then prefix else context;
            Before(source, prefix, context) == (if shown < prefix then "..." else "") + source[prefix - shown..prefix]
  {
  }

  lemma ShownAfter(source: string, suffix: nat, context: nat)
    requires suffix <= |source|
    ensures var shown, start := if suffix < context then suffix else context, |source| - suffix;
            After(source, suffix, context) == source[start..start + shown] + if shown < suffix then "..." else ""
  {
  }

  // An output from left to right: up to `context` characters next to the marked part on either side, three dots at
  // the outer end of a side that is cut, and the marked part between brackets.
  lemma CompactedReads(source: string, prefix: nat, suffix: nat, context: nat)
    requires prefix + suffix <= |source|
    ensures var shown, tail, n := if prefix < context then prefix else context, if suffix < context then suffix else context, |source|;
            Compacted(source, prefix, suffix, context) ==
            (if shown < prefix then "..." else "") + source[prefix - shown..prefix]
            + "[" + source[prefix..n - suffix] + "]"
            + (source[n - suffix..n - suffix + tail] + if tail < suffix then "..." else "")
  {
    ShownBefore(source, prefix, context);
    ShownAfter(source, suffix, context);
    hide Before, After;
  }

  // Messages as users see them, null strings included.
  lemma MessageRead()
    ensures Format(Some("a"), Some("[b]"), Some("[c]")) == "a expected:<[b]> but was:<[c]>"
  {
    assert "a" + " " + "expected:<" == "a expected:<";
  }

  lemma NullRead()
    ensures Format(None, Some("a"), None) == "expected:<a> but was:<null>"
    ensures Format(None, None, Some("a")) == "expected:<null> but was:<a>"
  {
  }

  // A difference in the middle, without context and with enough of it.
  lemma DifferenceInTheMiddle(prefix: nat, suffix: nat, r: Option<string>)
    ensures CompactedAt(None, "abc", "adc", prefix, suffix, 0, r) ==> r == Some(Format(None, Some("...[b]..."), Some("...[d]...")))
    ensures CompactedAt(None, "abc", "adc", prefix, suffix, 1, r) ==> r == Some(Format(None, Some("a[b]c"), Some("a[d]c")))
  {
    var x, y := "abc", "adc";
    ScannedInTheMiddle();
    assert Compacted(x, 1, 1, 0) == "...[b]..." && Compacted(y, 1, 1, 0) == "...[d]...";
    assert Compacted(x, 1, 1, 1) == "a[b]c" && Compacted(y, 1, 1, 1) == "a[d]c";
    hide Scanned, Compacted, Format;
    if CompactedAt(None, x, y, prefix, suffix, 0, r) || CompactedAt(None, x, y, prefix, suffix, 1, r) {
      ScannedOnce(x, y, prefix, suffix, 1, 1);
    }
  }

  lemma ScannedInTheMiddle()
    ensures Scanned("abc", "adc", 1, 1)
  {
    var x, y := "abc", "adc";
    assert CommonPrefix(x, y, 1) by { assert x[..1] == y[..1]; }
    PrefixStopsAtDifference(x, y, 1);
    assert CommonSuffix(x, y, 1, 1) by { assert x[2..] == y[2..]; }
    SuffixStopsAtDifference(x, y, 1, 1);
  }

  // An output is never longer than its marked part, two contexts, two ellipses and two brackets.
  lemma CompactedLength(source: string, prefix: nat, suffix: nat, context: nat)
    requires prefix + suffix <= |source|
    ensures |Compacted(source, prefix, suffix, context)| <= |Delta(source, prefix, suffix)| + 2 * context + 8
  {
  }

  // With enough context nothing is lost: dropping the brackets gives the source back.
  lemma CompactedKeepsAll(source: string, prefix: nat, suffix: nat, context: nat)
    requires prefix + suffix <= |source| && prefix <= context && suffix <= context
    ensures Compacted(source, prefix, suffix, context) ==
            source[..prefix] + "[" + source[prefix..|source| - suffix] + "]" + source[|source| - suffix..]
  {
  }

  lemma NoContext(source: string, context: nat)
    ensures Before(source, 0, context) == ""
  {
  }

  lemma CompactedFrom(source: string, prefix: nat, suffix: nat, context: nat, delta: string, result: string)
    requires prefix + suffix <= |source|
    requires delta == DELTA_START + source[prefix..|source| - suffix] + DELTA_END
    requires result == Before(source, prefix, context) + delta + After(source, suffix, context)
    ensures result == Compacted(source, prefix, suffix, context)
  {
    hide Before, After;
  }

  // ---------------------------------------------------------------- the class

  class ComparisonCompactor {
    const fContextLength: int
    const fExpected: Option<string>
    const fActual: Option<string>
    var fPrefix: int
    var fSuffix: int

    constructor (contextLength: int, expected: Option<string>, actual: Option<string>)
      ensures fContextLength == contextLength && fExpected == expected && fActual == actual
    {
      fContextLength, fExpected, fActual := contextLength, expected, actual;
      fPrefix, fSuffix := 0, 0;
    }

    // The formatted message: null or equal strings are printed whole, others are compacted. None stands for
    // the exception of a substring call, which a negative context length causes exactly for the others.
    method Compact(message: Option<string>) returns (r: Option<string>)
      modifies this
      ensures fExpected.None? || fActual.None? || fExpected == fActual ==> r == Some(Format(message, fExpected, fActual))
      ensures fExpected.Some? && fActual.Some? && fExpected != fActual && fContextLength < 0 ==> r == None
      ensures fExpected.Some? && fActual.Some? && fExpected != fActual && fContextLength >= 0 ==>
                exists prefix: nat, suffix: nat :: CompactedAt(message, fExpected.value, fActual.value, prefix, suffix, fContextLength, r)
    {
      hide Compacted, Before, After, Format;
      if fExpected.None? || fActual.None? || fExpected.value == fActual.value {
        return Some(Format(message, fExpected, fActual));
      }
      FindCommonPrefix();
      FindCommonSuffix();
      assert Scanned(fExpected.value, fActual.value, fPrefix as nat, (fSuffix - 1) as nat);
      SameContext(fExpected.value, fActual.value, fPrefix, fSuffix - 1, if fContextLength < 0 then 0 else fContextLength);
      var expected := CompactString(fExpected.value);
      if expected.None? { return None; }
      var actual := CompactString(fActual.value);
      if actual.None? { return None; }
      r := Some(Format(message, expected, actual));
      assert CompactedAt(message, fExpected.value, fActual.value, fPrefix, fSuffix - 1, fContextLength, r);
    }

    method FindCommonPrefix()
      requires fExpected.Some? && fActual.Some?
      modifies this`fPrefix
      ensures LongestCommonPrefix(fExpected.value, fActual.value, fPrefix)
    {
      var expected, actual := fExpected.value, fActual.value;
      fPrefix := 0;
      var end := if |expected| < |actual| then |expected| else |actual|;
      while fPrefix < end
        invariant 0 <= fPrefix <= end && CommonPrefix(expected, actual, fPrefix)
      {
        if expected[fPrefix] != actual[fPrefix] { break; }
        PrefixGrows(expected, actual, fPrefix);
        fPrefix := fPrefix + 1;
      }
      PrefixStopsAtDifference(expected, actual, fPrefix);
    }

    // fSuffix is one more than the length of the common suffix.
    method FindCommonSuffix()
      requires fExpected.Some? && fActual.Some? && CommonPrefix(fExpected.value, fActual.value, fPrefix)
      modifies this`fSuffix
      ensures LongestCommonSuffix(fExpected.value, fActual.value, fPrefix, fSuffix - 1)
    {
      hide *;
      NoSuffix(fExpected.value, fActual.value, fPrefix);
      var expectedSuffix, actualSuffix := |fExpected.value| - 1, |fActual.value| - 1;
      while actualSuffix >= fPrefix && expectedSuffix >= fPrefix
        invariant |fExpected.value| - expectedSuffix == |fActual.value| - actualSuffix
        invariant SuffixFrom(fExpected.value, fActual.value, fPrefix, expectedSuffix, actualSuffix)
        decreases expectedSuffix - fPrefix + 1
      {
        SuffixStep(fExpected.value, fActual.value, fPrefix, expectedSuffix, actualSuffix);
        if fExpected.value[expectedSuffix] != fActual.value[actualSuffix] { break; }
        actualSuffix, expectedSuffix := actualSuffix - 1, expectedSuffix - 1;
      }
      if actualSuffix < fPrefix || expectedSuffix < fPrefix {
        SuffixEnd(fExpected.value, fActual.value, fPrefix, expectedSuffix, actualSuffix);
      }
      fSuffix := |fExpected.value| - expectedSuffix;
    }

    method CompactString(source: string) returns (r: Option<string>)
      requires fExpected.Some? && 0 <= fPrefix && 1 <= fSuffix
      requires fPrefix + fSuffix - 1 <= |source| && fPrefix + fSuffix - 1 <= |fExpected.value|
      requires fContextLength >= 0 ==>
                 && Before(fExpected.value, fPrefix, fContextLength) == Before(source, fPrefix, fContextLength)
                 && After(fExpected.value, fSuffix - 1, fContextLength) == After(source, fSuffix - 1, fContextLength)
      ensures r == if fContextLength < 0 then None else Some(Compacted(source, fPrefix, fSuffix - 1, fContextLength))
    {
      hide Before, After;
      var result := DELTA_START + source[fPrefix..|source| - fSuffix + 1] + DELTA_END;
      ghost var delta := result;
      NoContext(source, if fContextLength < 0 then 0 else fContextLength);
      if fPrefix > 0 {
        var before := ComputeCommonPrefix();
        if before.None? { return None; }
        result := before.value + result;
      }
      if fSuffix > 0 {
        var after := ComputeCommonSuffix();
        if after.None? { return None; }
        result := result + after.value;
      }
      CompactedFrom(source, fPrefix, fSuffix - 1, fContextLength, delta, result);
      return Some(result);
    }

    method ComputeCommonPrefix() returns (r: Option<string>)
      requires fExpected.Some? && 0 < fPrefix <= |fExpected.value|
      ensures r == if fContextLength < 0 then None else Some(Before(fExpected.value, fPrefix, fContextLength))
    {
      var from := if 0 < fPrefix - fContextLength then fPrefix - fContextLength else 0;
      if from > fPrefix { return None; }
      var text := (if fPrefix > fContextLength then ELLIPSIS else "") + fExpected.value[from..fPrefix];
      assert text == Before(fExpected.value, fPrefix, fContextLength);
      return Some(text);
    }

    method ComputeCommonSuffix() returns (r: Option<string>)
      requires fExpected.Some? && 1 <= fSuffix <= |fExpected.value| + 1
      ensures r == if fContextLength < 0 then None else Some(After(fExpected.value, fSuffix - 1, fContextLength))
    {
      var n := |fExpected.value|;
      var end := if n - fSuffix + 1 + fContextLength < n then n - fSuffix + 1 + fContextLength else n;
      if n - fSuffix + 1 > end { return None; }
      var text := fExpected.value[n - fSuffix + 1..end] + if n - fSuffix + 1 < n - fContextLength then ELLIPSIS else "";
      assert text == After(fExpected.value, fSuffix - 1, fContextLength);
      return Some(text);
    }
  }
}
