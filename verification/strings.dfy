/**
 * Character-sequence helpers shared by the stemmer: prefix and suffix tests
 * (Python's `str.startswith` / `str.endswith`) and the two module-level
 * helpers `suffix_replace` and `prefix_replace` of the Snowball port.
 * Python slices clamp out-of-range bounds instead of failing; the helpers
 * below spell that clamping out.
 */
module Strings {

  datatype Option<T> = None | Some(value: T)

  predicate StartsWith(s: seq<char>, prefix: seq<char>)
  {
    |prefix| <= |s| && s[..|prefix|] == prefix
  }

  predicate EndsWith(s: seq<char>, suffix: seq<char>)
  {
    |suffix| <= |s| && s[|s| - |suffix|..] == suffix
  }

  lemma EndsWithLast(s: seq<char>, suffix: seq<char>)
    requires EndsWith(s, suffix) && |suffix| > 0
    ensures s[|s| - 1] == suffix[|suffix| - 1]
  {
    assert s[|s| - |suffix|..][|suffix| - 1] == s[|s| - 1];
  }

  /** Position `k` of a suffix sits at `|s| - |suffix| + k` in `s`. */
  lemma EndsWithAt(s: seq<char>, suffix: seq<char>, k: nat)
    ensures EndsWith(s, suffix) && k < |suffix| ==> s[|s| - |suffix| + k] == suffix[k]
  {
    if EndsWith(s, suffix) && k < |suffix| {
      assert s[|s| - |suffix|..][k] == s[|s| - |suffix| + k];
    }
  }

  /** Position `k` of a prefix sits at `k` in `s`. */
  lemma StartsWithAt(s: seq<char>, prefix: seq<char>, k: nat)
    ensures StartsWith(s, prefix) && k < |prefix| ==> s[k] == prefix[k]
  {
    if StartsWith(s, prefix) && k < |prefix| {
      assert s[..|prefix|][k] == s[k];
    }
  }

  lemma StartsWithFirst(s: seq<char>, prefix: seq<char>, k: nat)
    requires StartsWith(s, prefix) && k < |prefix|
    ensures s[k] == prefix[k]
  {
    assert s[..|prefix|][k] == s[k];
  }

  /**
   * `original[: -len(old)] + new`. With an empty `old` the slice
   * `original[:-0]` is empty, and with `old` longer than `original` it is
   * clamped to the empty string, so both cases yield `new` alone.
   */
  function SuffixReplace(original: seq<char>, oldAffix: seq<char>, newAffix: seq<char>): (r: seq<char>)
    ensures |oldAffix| == 0 || |oldAffix| > |original| ==> r == newAffix
    ensures 0 < |oldAffix| <= |original| ==> |r| == |original| - |oldAffix| + |newAffix|
    ensures EndsWith(r, newAffix)
    ensures 0 < |oldAffix| && EndsWith(original, oldAffix) ==> r[..|r| - |newAffix|] + oldAffix == original
  {
    (if 0 < |oldAffix| <= |original| then original[..|original| - |oldAffix|] else []) + newAffix
  }

  /** `new + original[len(old):]`, the slice clamped to the empty string. */
  function PrefixReplace(original: seq<char>, oldAffix: seq<char>, newAffix: seq<char>): (r: seq<char>)
    ensures |oldAffix| <= |original| ==> |r| == |original| - |oldAffix| + |newAffix|
    ensures |oldAffix| > |original| ==> r == newAffix
    ensures StartsWith(r, newAffix)
    ensures StartsWith(original, oldAffix) ==> oldAffix + r[|newAffix|..] == original
  {
    newAffix + (if |oldAffix| <= |original| then original[|oldAffix|..] else [])
  }

  /** Putting the old suffix back undoes `SuffixReplace`. */
  lemma SuffixReplaceRoundTrip(original: seq<char>, oldAffix: seq<char>, newAffix: seq<char>)
    requires 0 < |oldAffix| && 0 < |newAffix| && EndsWith(original, oldAffix)
    ensures SuffixReplace(SuffixReplace(original, oldAffix, newAffix), newAffix, oldAffix) == original
  {
    var r := SuffixReplace(original, oldAffix, newAffix);
    assert r[..|r| - |newAffix|] + oldAffix == original;
  }

  /** Putting the old prefix back undoes `PrefixReplace`. */
  lemma PrefixReplaceRoundTrip(original: seq<char>, oldAffix: seq<char>, newAffix: seq<char>)
    requires StartsWith(original, oldAffix)
    ensures PrefixReplace(PrefixReplace(original, oldAffix, newAffix), newAffix, oldAffix) == original
  {
    var r := PrefixReplace(original, oldAffix, newAffix);
    assert oldAffix + r[|newAffix|..] == original;
  }

  /**
   * Replacing a prefix by its own last character, as the prefix steps do
   * with `prefix_replace(token, prefix, prefix[1])`, drops the first
   * `|prefix| - 1` characters.
   */
  lemma PrefixReplaceByLast(original: seq<char>, prefix: seq<char>)
    requires StartsWith(original, prefix) && |prefix| > 0
    ensures PrefixReplace(original, prefix, [prefix[|prefix| - 1]]) == original[|prefix| - 1..]
  {
    StartsWithFirst(original, prefix, |prefix| - 1);
    assert original[|prefix| - 1..] == [original[|prefix| - 1]] + original[|prefix|..];
  }
}
