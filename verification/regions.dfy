/**
 * The Snowball region helpers `_StandardStemmer._r1r2_standard` and
 * `_StandardStemmer._rv_standard`. Both scan a word by index and return the
 * part of the word after a position chosen by which characters are vowels;
 * `vowels` is the language's vowel string.
 */
module Regions {

  predicate IsSuffix(r: seq<char>, w: seq<char>)
  {
    |r| <= |w| && w[|w| - |r|..] == r
  }

  /** Position `i` holds a non-vowel that follows a vowel. */
  predicate Boundary(w: seq<char>, vowels: seq<char>, i: int)
  {
    1 <= i < |w| && w[i] !in vowels && w[i - 1] in vowels
  }

  /**
   * `r` is the region after the first non-vowel following a vowel in `w`,
   * or empty when `w` has no such non-vowel.
   */
  ghost predicate IsStandardRegion(w: seq<char>, vowels: seq<char>, r: seq<char>)
  {
    || ((forall i :: 1 <= i < |w| ==> !Boundary(w, vowels, i)) && r == [])
    || (exists i :: Boundary(w, vowels, i) && (forall j :: 1 <= j < i ==> !Boundary(w, vowels, j)) && r == w[i + 1..])
  }

  /**
   * Position `i` (at or after 2) is the first one whose character is a vowel
   * (`wantVowel`) or a non-vowel (`!wantVowel`), and `r` is what follows it;
   * `r` is empty when there is no such position.
   */
  ghost predicate AfterFirstFrom2(w: seq<char>, vowels: seq<char>, wantVowel: bool, r: seq<char>)
  {
    || ((forall i :: 2 <= i < |w| ==> (w[i] in vowels) != wantVowel) && r == [])
    || (exists i :: 2 <= i < |w| && (w[i] in vowels) == wantVowel
                    && (forall j :: 2 <= j < i ==> (w[j] in vowels) != wantVowel) && r == w[i + 1..])
  }

  /** Python's `p in s` for two strings: `p` occurs contiguously in `s`. */
  predicate IsSubstring(p: seq<char>, s: seq<char>)
  {
    exists k :: 0 <= k <= |s| - |p| && OccursAt(p, s, k)
  }

  predicate OccursAt(p: seq<char>, s: seq<char>, k: nat)
    requires k + |p| <= |s|
  {
    s[k..k + |p|] == p
  }

  /** The first index from 1 on whose character is a non-vowel after a vowel; `r` is what follows it. */
  method StandardRegion(w: seq<char>, vowels: seq<char>) returns (r: seq<char>)
    ensures IsStandardRegion(w, vowels, r)
    ensures IsSuffix(r, w)
  {
    r := [];
    var i := 1;
    while i < |w|
      invariant 1 <= i
      invariant forall j :: 1 <= j < i ==> !Boundary(w, vowels, j)
      invariant r == []
      decreases |w| - i
    {
      if w[i] !in vowels && w[i - 1] in vowels {
        assert Boundary(w, vowels, i);
        r := w[i + 1..];
        break;
      }
      i := i + 1;
    }
  }

  /**
   * R1 is the region after the first non-vowel following a vowel, R2 the
   * same region taken inside R1; each is empty when there is no such
   * non-vowel.
   */
  method R1R2Standard(word: seq<char>, vowels: seq<char>) returns (r1: seq<char>, r2: seq<char>)
    ensures IsStandardRegion(word, vowels, r1)
    ensures IsStandardRegion(r1, vowels, r2)
    ensures IsSuffix(r1, word) && IsSuffix(r2, r1) && IsSuffix(r2, word)
  {
    r1 := StandardRegion(word, vowels);
    r2 := StandardRegion(r1, vowels);
  }

  /** The first index from 2 on whose character is (or, with `!wantVowel`, is not) a vowel; `r` is what follows it. */
  method AfterFirstFrom2Scan(w: seq<char>, vowels: seq<char>, wantVowel: bool) returns (r: seq<char>)
    ensures AfterFirstFrom2(w, vowels, wantVowel, r)
    ensures IsSuffix(r, w)
  {
    r := [];
    var i := 2;
    while i < |w|
      invariant 2 <= i && (i <= |w| || i == 2)
      invariant forall j :: 2 <= j < i ==> (w[j] in vowels) != wantVowel
      invariant r == []
      decreases |w| - i
    {
      if (w[i] in vowels) == wantVowel {
        r := w[i + 1..];
        break;
      }
      i := i + 1;
    }
  }

  /**
   * RV: empty for words shorter than 2. If the second letter is not a vowel,
   * the region after the next vowel from index 2 on; else, if the first two
   * letters occur together as a substring of `vowels`, the region after the
   * next non-vowel from index 2 on; otherwise the region after the third
   * letter (empty for a two-letter word).
   */
  method RvStandard(word: seq<char>, vowels: seq<char>) returns (rv: seq<char>)
    ensures |word| < 2 ==> rv == []
    ensures IsSuffix(rv, word)
    ensures |word| >= 2 && word[1] !in vowels ==> AfterFirstFrom2(word, vowels, true, rv)
    ensures (|word| >= 2 && word[1] in vowels && IsSubstring(word[..2], vowels))
              ==> AfterFirstFrom2(word, vowels, false, rv)
    ensures (|word| >= 2 && word[1] in vowels && !IsSubstring(word[..2], vowels))
              ==> rv == (if |word| >= 3 then word[3..] else [])
  {
    rv := [];
    if |word| >= 2 {
      if word[1] !in vowels {
        rv := AfterFirstFrom2Scan(word, vowels, true);
      } else if IsSubstring(word[..2], vowels) {
        rv := AfterFirstFrom2Scan(word, vowels, false);
      } else {
        rv := if |word| >= 3 then word[3..] else [];
      }
    }
  }
}
