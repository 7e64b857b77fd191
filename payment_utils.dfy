/** The string helpers of the payment extension: middle truncation of an
    over-long string and removal of special characters from a field value. */
module PaymentUtils {
  import opened Outcomes

  // ---------------------------------------------------------------------
  // Python slicing
  // ---------------------------------------------------------------------

  /** The position Python uses for a slice bound `i` on a sequence of length
      `n`: a negative bound counts from the end, then it is clamped to
      `0..n`.  Note that `-0` is `0`, so `s[-0:]` is the whole of `s`. */
  function SliceBound(n: nat, i: int): (p: nat)
    ensures p <= n
    ensures 0 <= i <= n ==> p == i
    ensures -(n as int) <= i < 0 ==> p == n + i
    ensures i > n ==> p == n
    ensures i < -(n as int) ==> p == 0
  {
    if i < 0 then (if n + i < 0 then 0 else n + i)
    else if i > n then n else i
  }

  /** Python's `s[:stop]`. */
  function SliceTo(s: string, stop: int): (r: string)
    ensures r <= s && |r| == SliceBound(|s|, stop)
  {
    s[..SliceBound(|s|, stop)]
  }

  /** Python's `s[start:]`. */
  function SliceFrom(s: string, start: int): (r: string)
    ensures |r| == |s| - SliceBound(|s|, start) && s == s[..|s| - |r|] + r
  {
    s[SliceBound(|s|, start)..]
  }

  // ---------------------------------------------------------------------
  // middle_truncate
  // ---------------------------------------------------------------------

  /** The truncation indicator placed in the middle of a truncated string. */
  const Indicator: string := "..."

  /** The number of characters kept at each end when truncating to `chars`:
      `(chars - 3) // 2`, which for `chars >= 3` is Dafny's `/` as well. */
  function SliceSize(chars: int): (k: nat)
    requires chars >= |Indicator|
    ensures 2 * k + |Indicator| <= chars <= 2 * k + |Indicator| + 1
  {
    (chars - |Indicator|) / 2
  }

  /** `middle_truncate(string, chars)` as written: the string itself when it
      fits, a `ValueError` when the limit is below the indicator length, and
      otherwise `string[:k] + "..." + string[-k:]` with `k` the slice size. */
  function MiddleTruncate(s: string, chars: int): (r: Result<string>)
    ensures |s| <= chars ==> r == Ok(s)
    ensures r.Err? <==> |s| > chars && chars < |Indicator|
    ensures r.Err? ==> r.error == ValueError
  {
    if |s| <= chars then Ok(s)
    else if chars < |Indicator| then Err(ValueError)
    else
      var k := SliceSize(chars);
      Ok(SliceTo(s, k) + Indicator + SliceFrom(s, -(k as int)))
  }

  /** Whether `t` is `s` with its middle replaced by the indicator, keeping
      `k` characters from each end. */
  ghost predicate KeepsEnds(s: string, t: string, k: nat)
    requires k <= |s|
  {
    t == s[..k] + Indicator + s[|s| - k..]
  }

  /** A string that fits is returned unchanged, whatever the limit. */
  lemma MiddleTruncateFits(s: string, chars: int)
    requires |s| <= chars
    ensures MiddleTruncate(s, chars) == Ok(s)
  {
  }

  /** A string that does not fit, with a limit below the indicator length,
      raises `ValueError`. */
  lemma MiddleTruncateRaises(s: string, chars: int)
    requires chars < |s| && chars < |Indicator|
    ensures MiddleTruncate(s, chars) == Err(ValueError)
  {
  }

  /** With a limit of at least 5, a string that does not fit becomes its
      first `k` characters, the indicator and its last `k` characters, with
      `k >= 1`; its length is `2k + 3`, which is at most the limit. */
  lemma MiddleTruncateShape(s: string, chars: int)
    requires chars < |s| && chars >= 5
    ensures MiddleTruncate(s, chars).Ok?
    ensures var t, k := MiddleTruncate(s, chars).value, (chars - 3) / 2;
      1 <= k && 2 * k < |s| && KeepsEnds(s, t, k) &&
      |t| == 2 * ((chars - 3) / 2) + 3 && |t| <= chars &&
      t[..k] == s[..k] && t[k..k + 3] == Indicator && t[k + 3..] == s[|s| - k..]
  {
  }

  /** With a limit of 3 or 4, the slice size is 0 and `string[-0:]` is the
      whole string: a string that does not fit comes back as the indicator
      followed by the entire input, which is longer than the limit. */
  lemma MiddleTruncateSmallLimitOverflows(s: string, chars: int)
    requires chars < |s| && (chars == 3 || chars == 4)
    ensures MiddleTruncate(s, chars) == Ok(Indicator + s)
    ensures |MiddleTruncate(s, chars).value| > chars
  {
    assert SliceSize(chars) == 0;
    assert SliceTo(s, 0) == [] && SliceFrom(s, 0) == s;
    assert [] + Indicator + s == Indicator + s;
  }

  /** The example of the source's comment: "A Very Long Title" cut to 11
      characters is "A Ve...itle". */
  lemma MiddleTruncateExample()
    ensures MiddleTruncate("A Very Long Title", 11) == Ok("A Ve...itle")
  {
    var title := "A Very Long Title";
    assert |title| == 17 && SliceSize(11) == 4;
    assert SliceBound(17, 4) == 4 && SliceBound(17, -4) == 13;
    assert title[..4] == "A Ve";
    assert title[13..] == "itle";
    assert "A Ve" + Indicator + "itle" == "A Ve...itle";
  }

  /** With a limit of at least 5, truncating twice is truncating once. */
  lemma MiddleTruncateIdempotent(s: string, chars: int)
    requires chars >= 5
    ensures MiddleTruncate(s, chars).Ok?
    ensures MiddleTruncate(MiddleTruncate(s, chars).value, chars) == MiddleTruncate(s, chars)
  {
    if |s| > chars {
      MiddleTruncateShape(s, chars);
    }
  }

  /** With a limit of 3 or 4 it is not: truncating the over-long result
      again prepends a second indicator. */
  lemma MiddleTruncateSmallLimitNotIdempotent(s: string, chars: int)
    requires chars < |s| && (chars == 3 || chars == 4)
    ensures MiddleTruncate(MiddleTruncate(s, chars).value, chars) == Ok(Indicator + Indicator + s)
  {
    MiddleTruncateSmallLimitOverflows(s, chars);
    MiddleTruncateSmallLimitOverflows(Indicator + s, chars);
    assert Indicator + (Indicator + s) == Indicator + Indicator + s;
  }

  /** `middle_truncate` as its documentation describes it: the end slice is
      taken as `string[len(string) - k:]`, which is empty rather than the
      whole string when `k` is 0. */
  function MiddleTruncateFixed(s: string, chars: int): (r: Result<string>)
    ensures |s| <= chars ==> r == Ok(s)
    ensures r.Err? <==> |s| > chars && chars < |Indicator|
    ensures r.Err? ==> r.error == ValueError
    ensures r.Ok? ==> |r.value| <= chars || r.value == s
  {
    if |s| <= chars then Ok(s)
    else if chars < |Indicator| then Err(ValueError)
    else
      var k := SliceSize(chars);
      Ok(SliceTo(s, k) + Indicator + SliceFrom(s, |s| - k))
  }

  /** The corrected function keeps the documented promise for every limit
      it accepts: the result is never longer than the limit, it keeps `k`
      characters of each end, and truncating twice is truncating once. */
  lemma MiddleTruncateFixedWithinLimit(s: string, chars: int)
    requires chars >= |Indicator|
    ensures MiddleTruncateFixed(s, chars).Ok?
    ensures |MiddleTruncateFixed(s, chars).value| <= chars
    ensures chars < |s| ==> KeepsEnds(s, MiddleTruncateFixed(s, chars).value, SliceSize(chars))
    ensures MiddleTruncateFixed(MiddleTruncateFixed(s, chars).value, chars) == MiddleTruncateFixed(s, chars)
  {
  }

  /** For limits of at least 5 the corrected function and the function as
      written agree; they differ only at limits 3 and 4. */
  lemma MiddleTruncateFixedAgrees(s: string, chars: int)
    requires chars >= 5 || chars < |Indicator| || |s| <= chars
    ensures MiddleTruncateFixed(s, chars) == MiddleTruncate(s, chars)
  {
  }

  // ---------------------------------------------------------------------
  // clean_field_value
  // ---------------------------------------------------------------------

  /** The characters removed by `clean_field_value`: caret, colon, double
      and single quote. */
  const SpecialChars: set<char> := {'^', ':', '"', '\''}

  /** `clean_field_value(value)`: `value` with every special character
      deleted. */
  function CleanFieldValue(v: string): (r: string)
    ensures |r| <= |v|
    ensures forall i :: 0 <= i < |r| ==> r[i] !in SpecialChars
  {
    if v == [] then []
    else if v[0] in SpecialChars then CleanFieldValue(v[1..])
    else [v[0]] + CleanFieldValue(v[1..])
  }

  /** `a` is obtained from `b` by deleting characters, keeping order. */
  ghost predicate IsSubsequence(a: string, b: string)
    decreases |b|
  {
    if b == [] then a == []
    else (a != [] && a[0] == b[0] && IsSubsequence(a[1..], b[1..])) || IsSubsequence(a, b[1..])
  }

  /** Cleaning distributes over concatenation. */
  lemma {:induction false} CleanFieldValueAppend(a: string, b: string)
    ensures CleanFieldValue(a + b) == CleanFieldValue(a) + CleanFieldValue(b)
    decreases |a|
  {
    if a == [] {
      assert a + b == b;
    } else {
      assert (a + b)[0] == a[0];
      assert (a + b)[1..] == a[1..] + b;
      CleanFieldValueAppend(a[1..], b);
      if a[0] !in SpecialChars {
        assert CleanFieldValue(a + b) == [a[0]] + CleanFieldValue(a[1..] + b);
      }
    }
  }

  /** The cleaned value keeps the characters of the input in their original
      order. */
  lemma {:induction false} CleanFieldValueSubsequence(v: string)
    ensures IsSubsequence(CleanFieldValue(v), v)
    decreases |v|
  {
    if v != [] {
      CleanFieldValueSubsequence(v[1..]);
      if v[0] !in SpecialChars {
        var r := CleanFieldValue(v);
        assert r[0] == v[0] && r[1..] == CleanFieldValue(v[1..]);
      }
    }
  }

  /** Every special character is removed, every other character is kept as
      often as it occurs in the input. */
  lemma {:induction false} CleanFieldValueCounts(v: string)
    ensures forall c :: multiset(CleanFieldValue(v))[c] ==
                        (if c in SpecialChars then 0 else multiset(v)[c])
    decreases |v|
  {
    if v != [] {
      CleanFieldValueCounts(v[1..]);
      assert v == [v[0]] + v[1..];
      assert multiset(v) == multiset([v[0]]) + multiset(v[1..]);
    }
  }

  /** A value is left unchanged exactly when it holds no special character. */
  lemma {:induction false} CleanFieldValueUnchanged(v: string)
    ensures CleanFieldValue(v) == v <==> forall i :: 0 <= i < |v| ==> v[i] !in SpecialChars
    decreases |v|
  {
    if v != [] {
      CleanFieldValueUnchanged(v[1..]);
      if v[0] in SpecialChars {
        assert |CleanFieldValue(v)| < |v| by {
          assert |CleanFieldValue(v[1..])| <= |v[1..]|;
        }
      } else {
        assert forall i :: 1 <= i < |v| ==> v[i] == v[1..][i - 1];
      }
    }
  }

  /** Cleaning an already cleaned value changes nothing. */
  lemma CleanFieldValueIdempotent(v: string)
    ensures CleanFieldValue(CleanFieldValue(v)) == CleanFieldValue(v)
  {
    CleanFieldValueUnchanged(CleanFieldValue(v));
  }

  /** A concrete value: 'a^b:"c"\'d' cleans to "abcd". */
  lemma CleanFieldValueExample()
    ensures CleanFieldValue("a^b:\"c\"'d") == "abcd"
  {
  }
}
