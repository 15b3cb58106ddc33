/**
 * `clean_str`, the text normaliser in front of the similarity model. It
 * deletes the Arabic diacritics, shortens every run of a repeated character
 * to two, merges doubled و, ي and ا, applies 22 literal search/replace
 * pairs in list order, and strips surrounding whitespace.
 *
 * Each library call it makes (`re.sub`, `str.replace`, `str.strip`) is a
 * function here; `CleanStr` is the method that chains them, and the lemmas
 * say what the chain guarantees.
 */
module Similarity {
  import opened Strings
  import opened ArabicAffixes

  const Tatweel: char := '\U{0640}'        // ـ
  const ArabicComma: char := '\U{060C}'    // ،
  const ArabicQuestion: char := '\U{061F}' // ؟

  /** The class `[ؗ-ًؚ-ْ]` of `p_tashkeel`. */
  predicate IsTashkeel(c: char)
  {
    ('\U{0617}' <= c <= '\U{061A}') || ('\U{064B}' <= c <= '\U{0652}')
  }

  /** `re.sub(p_tashkeel, "", text)`. */
  function StripTashkeel(s: seq<char>): (r: seq<char>)
    ensures |r| <= |s|
    ensures forall c :: c in r <==> c in s && !IsTashkeel(c)
  {
    if |s| == 0 then []
    else if IsTashkeel(s[0]) then StripTashkeel(s[1..])
    else [s[0]] + StripTashkeel(s[1..])
  }

  /** The length of the run of `s[0]` that starts `s`. */
  function LeadingRun(s: seq<char>): (n: nat)
    requires |s| > 0
    ensures 1 <= n <= |s|
    ensures forall i :: 0 <= i < n ==> s[i] == s[0]
    ensures n < |s| ==> s[n] != s[0]
  {
    if |s| >= 2 && s[1] == s[0] then 1 + LeadingRun(s[1..]) else 1
  }

  lemma LongRun(s: seq<char>)
    requires |s| > 0
    ensures LeadingRun(s) >= 3 ==> s[1] == s[0] && s[2] == s[0]
  {
  }

  /**
   * `re.sub(r"(.)\1+", r"\1\1", text)`: scanning from the left, a run of two
   * or more copies of a character other than a newline (which `.` does not
   * match) becomes two copies, and the scan resumes after the run.
   */
  function Collapse(s: seq<char>): seq<char>
    decreases |s|
  {
    if |s| == 0 then []
    else
      var n := LeadingRun(s);
      if s[0] != '\n' && n >= 2 then [s[0], s[0]] + Collapse(s[n..])
      else [s[0]] + Collapse(s[1..])
  }

  /** No character other than a newline occurs three times in a row. */
  predicate NoTriples(s: seq<char>)
  {
    forall i :: 0 <= i < |s| - 2 && s[i] != '\n' ==> !(s[i] == s[i + 1] && s[i + 1] == s[i + 2])
  }

  /** `c` does not occur three times in a row. */
  predicate NoTriple(s: seq<char>, c: char)
  {
    forall i :: 0 <= i < |s| - 2 ==> !(s[i] == c && s[i + 1] == c && s[i + 2] == c)
  }

  /** `c` does not occur twice in a row. */
  predicate NoPair(s: seq<char>, c: char)
  {
    forall i :: 0 <= i < |s| - 1 ==> !(s[i] == c && s[i + 1] == c)
  }

  lemma {:induction false} CollapseFirst(s: seq<char>)
    requires |s| > 0
    ensures |Collapse(s)| > 0 && Collapse(s)[0] == s[0]
  {
  }

  /** The longation step keeps exactly the characters it was given. */
  lemma {:induction false} CollapseKeepsCharacters(s: seq<char>)
    ensures forall c :: c in Collapse(s) <==> c in s
    decreases |s|
  {
    if |s| > 0 {
      var n := LeadingRun(s);
      if s[0] != '\n' && n >= 2 {
        CollapseKeepsCharacters(s[n..]);
        assert s == s[..n] + s[n..];
        assert forall c :: c in s[..n] ==> c == s[0];
      } else {
        CollapseKeepsCharacters(s[1..]);
        assert s == [s[0]] + s[1..];
      }
    }
  }

  /** After the longation step no character other than a newline occurs three times in a row. */
  lemma {:induction false} CollapseLeavesNoTriples(s: seq<char>)
    ensures NoTriples(Collapse(s))
    decreases |s|
  {
    if |s| > 0 {
      var n := LeadingRun(s);
      var r := Collapse(s);
      if s[0] != '\n' && n >= 2 {
        var rest := Collapse(s[n..]);
        CollapseLeavesNoTriples(s[n..]);
        if n < |s| {
          CollapseFirst(s[n..]);
        }
        assert r == [s[0], s[0]] + rest;
        forall i | 0 <= i < |r| - 2 && r[i] != '\n' ensures !(r[i] == r[i + 1] && r[i + 1] == r[i + 2]) {
          if i >= 2 {
            assert r[i] == rest[i - 2] && r[i + 1] == rest[i - 1] && r[i + 2] == rest[i];
          }
        }
      } else {
        var rest := Collapse(s[1..]);
        CollapseLeavesNoTriples(s[1..]);
        if |s| > 1 {
          CollapseFirst(s[1..]);
        }
        assert r == [s[0]] + rest;
        forall i | 0 <= i < |r| - 2 && r[i] != '\n' ensures !(r[i] == r[i + 1] && r[i + 1] == r[i + 2]) {
          if i >= 1 {
            assert r[i] == rest[i - 1] && r[i + 1] == rest[i] && r[i + 2] == rest[i + 1];
          }
        }
      }
    }
  }

  /** A text without such runs passes the longation step unchanged, so the step is idempotent. */
  lemma {:induction false} CollapseKeepsTripleFree(s: seq<char>)
    requires NoTriples(s)
    ensures Collapse(s) == s
    decreases |s|
  {
    if |s| > 0 {
      var n := LeadingRun(s);
      if s[0] != '\n' && n >= 2 {
        LongRun(s);
        assert n == 2;
        assert NoTriples(s[2..]) by {
          forall i | 0 <= i < |s[2..]| - 2 && s[2..][i] != '\n'
            ensures !(s[2..][i] == s[2..][i + 1] && s[2..][i + 1] == s[2..][i + 2])
          {
            assert s[2..][i] == s[i + 2] && s[2..][i + 1] == s[i + 3] && s[2..][i + 2] == s[i + 4];
          }
        }
        CollapseKeepsTripleFree(s[2..]);
        assert s == [s[0], s[0]] + s[2..];
      } else {
        assert NoTriples(s[1..]) by {
          forall i | 0 <= i < |s[1..]| - 2 && s[1..][i] != '\n'
            ensures !(s[1..][i] == s[1..][i + 1] && s[1..][i + 1] == s[1..][i + 2])
          {
            assert s[1..][i] == s[i + 1] && s[1..][i + 1] == s[i + 2] && s[1..][i + 2] == s[i + 3];
          }
        }
        CollapseKeepsTripleFree(s[1..]);
        assert s == [s[0]] + s[1..];
      }
    }
  }

  lemma CollapseIdempotent(s: seq<char>)
    ensures Collapse(Collapse(s)) == Collapse(s)
  {
    CollapseLeavesNoTriples(s);
    CollapseKeepsTripleFree(Collapse(s));
  }

  /** `s.replace(pat, rep)`: every occurrence of `pat`, leftmost first and without overlap, becomes `rep`. */
  function ReplaceAll(s: seq<char>, pat: seq<char>, rep: seq<char>): seq<char>
    requires |pat| > 0
    decreases |s|
  {
    if |s| == 0 then []
    else if StartsWith(s, pat) then rep + ReplaceAll(s[|pat|..], pat, rep)
    else [s[0]] + ReplaceAll(s[1..], pat, rep)
  }

  /**
   * A character missing from the replacement text is missing from the
   * result if it was missing before, or if it is the one-character pattern.
   */
  lemma {:induction false} ReplaceAllAbsent(s: seq<char>, pat: seq<char>, rep: seq<char>, c: char)
    requires |pat| > 0
    requires c !in s || pat == [c]
    requires c !in rep
    ensures c !in ReplaceAll(s, pat, rep)
    decreases |s|
  {
    if |s| > 0 {
      if StartsWith(s, pat) {
        ReplaceAllAbsent(s[|pat|..], pat, rep, c);
      } else {
        assert pat == [c] ==> s[0] != c;
        ReplaceAllAbsent(s[1..], pat, rep, c);
      }
    }
  }

  /** Merging `cc` into `c` keeps the first character. */
  lemma {:induction false} MergeFirst(t: seq<char>, c: char)
    requires |t| > 0
    ensures |ReplaceAll(t, [c, c], [c])| > 0 && ReplaceAll(t, [c, c], [c])[0] == t[0]
  {
    if StartsWith(t, [c, c]) {
      StartsWithFirst(t, [c, c], 0);
    }
  }

  lemma NoTripleSuffix(t: seq<char>, c: char, k: nat)
    requires NoTriple(t, c) && k <= |t|
    ensures NoTriple(t[k..], c)
  {
    forall i | 0 <= i < |t[k..]| - 2 ensures !(t[k..][i] == c && t[k..][i + 1] == c && t[k..][i + 2] == c) {
      assert t[k..][i] == t[i + k] && t[k..][i + 1] == t[i + k + 1] && t[k..][i + 2] == t[i + k + 2];
    }
  }

  lemma NoPairSuffix(t: seq<char>, c: char, k: nat)
    requires NoPair(t, c) && k <= |t|
    ensures NoPair(t[k..], c)
  {
    forall i | 0 <= i < |t[k..]| - 1 ensures !(t[k..][i] == c && t[k..][i + 1] == c) {
      assert t[k..][i] == t[i + k] && t[k..][i + 1] == t[i + k + 1];
    }
  }

  /** Merging `cc` into `c` in a text without `ccc` leaves no `cc`. */
  lemma {:induction false} MergeLeavesNoPair(t: seq<char>, c: char)
    requires NoTriple(t, c)
    ensures NoPair(ReplaceAll(t, [c, c], [c]), c)
    decreases |t|
  {
    if |t| > 0 {
      var r := ReplaceAll(t, [c, c], [c]);
      if StartsWith(t, [c, c]) {
        StartsWithFirst(t, [c, c], 0);
        StartsWithFirst(t, [c, c], 1);
        var rest := ReplaceAll(t[2..], [c, c], [c]);
        NoTripleSuffix(t, c, 2);
        MergeLeavesNoPair(t[2..], c);
        if |t| > 2 {
          MergeFirst(t[2..], c);
          assert t[2] != c;
        }
        assert r == [c] + rest;
        forall i | 0 <= i < |r| - 1 ensures !(r[i] == c && r[i + 1] == c) {
          if i >= 1 {
            assert r[i] == rest[i - 1] && r[i + 1] == rest[i];
          }
        }
      } else {
        var rest := ReplaceAll(t[1..], [c, c], [c]);
        NoTripleSuffix(t, c, 1);
        MergeLeavesNoPair(t[1..], c);
        if |t| > 1 {
          MergeFirst(t[1..], c);
          assert !(t[0] == c && t[1] == c);
        }
        assert r == [t[0]] + rest;
        forall i | 0 <= i < |r| - 1 ensures !(r[i] == c && r[i + 1] == c) {
          if i >= 1 {
            assert r[i] == rest[i - 1] && r[i + 1] == rest[i];
          }
        }
      }
    }
  }

  /** Merging `cc` into `c` creates no pair of another character `d`. */
  lemma {:induction false} MergeKeepsNoPair(t: seq<char>, c: char, d: char)
    requires c != d && NoPair(t, d)
    ensures NoPair(ReplaceAll(t, [c, c], [c]), d)
    decreases |t|
  {
    if |t| > 0 {
      var r := ReplaceAll(t, [c, c], [c]);
      if StartsWith(t, [c, c]) {
        var rest := ReplaceAll(t[2..], [c, c], [c]);
        NoPairSuffix(t, d, 2);
        MergeKeepsNoPair(t[2..], c, d);
        assert r == [c] + rest;
        forall i | 0 <= i < |r| - 1 ensures !(r[i] == d && r[i + 1] == d) {
          if i >= 1 {
            assert r[i] == rest[i - 1] && r[i + 1] == rest[i];
          }
        }
      } else {
        var rest := ReplaceAll(t[1..], [c, c], [c]);
        NoPairSuffix(t, d, 1);
        MergeKeepsNoPair(t[1..], c, d);
        if |t| > 1 {
          MergeFirst(t[1..], c);
        }
        assert r == [t[0]] + rest;
        forall i | 0 <= i < |r| - 1 ensures !(r[i] == d && r[i + 1] == d) {
          if i >= 1 {
            assert r[i] == rest[i - 1] && r[i + 1] == rest[i];
          }
        }
      }
    }
  }

  /** Merging `cc` into `c` creates no run of three of another character `d`. */
  lemma {:induction false} MergeKeepsNoTriple(t: seq<char>, c: char, d: char)
    requires c != d && NoTriple(t, d)
    ensures NoTriple(ReplaceAll(t, [c, c], [c]), d)
    decreases |t|
  {
    if |t| > 0 {
      var r := ReplaceAll(t, [c, c], [c]);
      if StartsWith(t, [c, c]) {
        var rest := ReplaceAll(t[2..], [c, c], [c]);
        NoTripleSuffix(t, d, 2);
        MergeKeepsNoTriple(t[2..], c, d);
        assert r == [c] + rest;
        forall i | 0 <= i < |r| - 2 ensures !(r[i] == d && r[i + 1] == d && r[i + 2] == d) {
          if i >= 1 {
            assert r[i] == rest[i - 1] && r[i + 1] == rest[i] && r[i + 2] == rest[i + 1];
          }
        }
      } else {
        var rest := ReplaceAll(t[1..], [c, c], [c]);
        NoTripleSuffix(t, d, 1);
        MergeKeepsNoTriple(t[1..], c, d);
        if |t| > 1 {
          MergeFirst(t[1..], c);
          if |t| > 2 && !StartsWith(t[1..], [c, c]) {
            // then rest[1] is t[2]
            assert t[1..][1..] == t[2..];
            MergeFirst(t[2..], c);
          }
        }
        assert r == [t[0]] + rest;
        forall i | 0 <= i < |r| - 2 ensures !(r[i] == d && r[i + 1] == d && r[i + 2] == d) {
          if i >= 1 {
            assert r[i] == rest[i - 1] && r[i + 1] == rest[i] && r[i + 2] == rest[i + 1];
          }
        }
      }
    }
  }

  /** The three `replace` calls that merge doubled و, ي and ا, in source order. */
  function MergeDoubles(t: seq<char>): seq<char>
  {
    ReplaceAll(ReplaceAll(ReplaceAll(t, [Waw, Waw], [Waw]), [Yeh, Yeh], [Yeh]), [Alef, Alef], [Alef])
  }

  /** After the longation step, the three merges leave no وو, يي or اا. */
  lemma MergeDoublesLeavesNoPairs(t: seq<char>)
    requires NoTriples(t)
    ensures var m := MergeDoubles(t); NoPair(m, Waw) && NoPair(m, Yeh) && NoPair(m, Alef)
  {
    forall c | c != '\n' ensures NoTriple(t, c) {
      forall i | 0 <= i < |t| - 2 ensures !(t[i] == c && t[i + 1] == c && t[i + 2] == c) {
        if t[i] == c {
          assert t[i] != '\n';
        }
      }
    }
    var t1 := ReplaceAll(t, [Waw, Waw], [Waw]);
    MergeLeavesNoPair(t, Waw);
    MergeKeepsNoTriple(t, Waw, Yeh);
    MergeKeepsNoTriple(t, Waw, Alef);
    var t2 := ReplaceAll(t1, [Yeh, Yeh], [Yeh]);
    MergeLeavesNoPair(t1, Yeh);
    MergeKeepsNoPair(t1, Yeh, Waw);
    MergeKeepsNoTriple(t1, Yeh, Alef);
    MergeLeavesNoPair(t2, Alef);
    MergeKeepsNoPair(t2, Alef, Waw);
    MergeKeepsNoPair(t2, Alef, Yeh);
  }

  /** The `search` list, in source order. */
  const Searches: seq<seq<char>> := [
    [AlefHamzaAbove], [AlefHamzaBelow], [AlefMadda], [TehMarbuta], ['_'], ['-'], ['/'], ['.'],
    [ArabicComma], [' ', Waw, ' '], [' ', Yeh, Alef, ' '], ['"'], [Tatweel], ['\''], [AlefMaqsura],
    ['\\'], ['\n'], ['\t'], ['&', 'q', 'u', 'o', 't', ';'], ['?'], [ArabicQuestion], ['!']]

  /** The `replace` list, in source order. */
  const Replacements: seq<seq<char>> := [
    [Alef], [Alef], [Alef], [Heh], [' '], [' '], [], [],
    [], [' ', Waw], [' ', Yeh, Alef], [], [], [], [Yeh],
    [], [' '], [' '], [' '], [' ', '?', ' '], [' ', ArabicQuestion, ' '], [' ', '!', ' ']]

  /** Every character any replacement text contains. */
  const ReplacementCharacters: set<char> := {Alef, Heh, ' ', Waw, Yeh, '?', ArabicQuestion, '!'}

  lemma PairsShape()
    ensures |Searches| == |Replacements| == 22
    ensures forall k :: 0 <= k < |Searches| ==> |Searches[k]| > 0
    ensures forall k, x :: 0 <= k < |Replacements| && x in Replacements[k] ==> x in ReplacementCharacters
  {
  }

  /** The loop over the two lists: the first `n` pairs applied in order. */
  function ApplyPairs(s: seq<char>, n: nat): seq<char>
    requires n <= |Searches|
  {
    if n == 0 then s
    else
      PairsShape();
      ReplaceAll(ApplyPairs(s, n - 1), Searches[n - 1], Replacements[n - 1])
  }

  /** A character no replacement text contains stays out once it is out. */
  lemma {:induction false} ApplyPairsKeepsAbsent(s: seq<char>, n: nat, c: char)
    requires n <= |Searches| && c !in s && c !in ReplacementCharacters
    ensures c !in ApplyPairs(s, n)
  {
    PairsShape();
    if n > 0 {
      ApplyPairsKeepsAbsent(s, n - 1, c);
      ReplaceAllAbsent(ApplyPairs(s, n - 1), Searches[n - 1], Replacements[n - 1], c);
    }
  }

  /** A one-character search target that no replacement text contains is gone once its pair has been applied. */
  lemma {:induction false} ApplyPairsRemoves(s: seq<char>, n: nat, j: nat, c: char)
    requires j < n <= |Searches| && Searches[j] == [c] && c !in ReplacementCharacters
    ensures c !in ApplyPairs(s, n)
  {
    PairsShape();
    if n - 1 == j {
      ReplaceAllAbsent(ApplyPairs(s, n - 1), Searches[n - 1], Replacements[n - 1], c);
    } else {
      ApplyPairsRemoves(s, n - 1, j, c);
      ReplaceAllAbsent(ApplyPairs(s, n - 1), Searches[n - 1], Replacements[n - 1], c);
    }
  }

  /** After all 22 pairs, every one-character search target that no replacement text contains is gone. */
  lemma ApplyPairsRemovesTargets(s: seq<char>)
    ensures forall j :: (0 <= j < |Searches| && |Searches[j]| == 1 && Searches[j][0] !in ReplacementCharacters)
                        ==> Searches[j][0] !in ApplyPairs(s, |Searches|)
  {
    forall j | 0 <= j < |Searches| && |Searches[j]| == 1 && Searches[j][0] !in ReplacementCharacters
      ensures Searches[j][0] !in ApplyPairs(s, |Searches|)
    {
      assert Searches[j] == [Searches[j][0]];
      ApplyPairsRemoves(s, |Searches|, j, Searches[j][0]);
    }
  }

  /** The Arabic letters and marks the pairs remove for good: أ إ آ ة ى ـ ، */
  const RemovedArabic: set<char> := {
    AlefHamzaAbove, AlefHamzaBelow, AlefMadda, TehMarbuta, AlefMaqsura, Tatweel, ArabicComma}

  /** The ASCII characters the pairs remove for good: _ - / . " ' \ tab newline. */
  const RemovedAscii: set<char> := {'_', '-', '/', '.', '"', '\'', '\\', '\t', '\n'}

  const Removed: set<char> := RemovedArabic + RemovedAscii

  lemma RemovedArabicAreTargets(c: char)
    requires c in RemovedArabic
    ensures exists j :: 0 <= j < |Searches| && Searches[j] == [c]
    ensures c !in ReplacementCharacters
  {
    if c == AlefHamzaAbove { assert Searches[0] == [c]; }
    else if c == AlefHamzaBelow { assert Searches[1] == [c]; }
    else if c == AlefMadda { assert Searches[2] == [c]; }
    else if c == TehMarbuta { assert Searches[3] == [c]; }
    else if c == ArabicComma { assert Searches[8] == [c]; }
    else if c == Tatweel { assert Searches[12] == [c]; }
    else { assert Searches[14] == [c]; }
  }

  lemma RemovedAsciiAreTargets(c: char)
    requires c in RemovedAscii
    ensures exists j :: 0 <= j < |Searches| && Searches[j] == [c]
    ensures c !in ReplacementCharacters
  {
    if c == '_' { assert Searches[4] == [c]; }
    else if c == '-' { assert Searches[5] == [c]; }
    else if c == '/' { assert Searches[6] == [c]; }
    else if c == '.' { assert Searches[7] == [c]; }
    else if c == '"' { assert Searches[11] == [c]; }
    else if c == '\'' { assert Searches[13] == [c]; }
    else if c == '\\' { assert Searches[15] == [c]; }
    else if c == '\n' { assert Searches[16] == [c]; }
    else { assert Searches[17] == [c]; }
  }

  /** After all 22 pairs none of the `Removed` characters is left. */
  lemma ApplyPairsRemovesAll(s: seq<char>)
    ensures forall c :: c in Removed ==> c !in ApplyPairs(s, |Searches|)
  {
    forall c | c in Removed ensures c !in ApplyPairs(s, |Searches|) {
      if c in RemovedArabic {
        RemovedArabicAreTargets(c);
      } else {
        RemovedAsciiAreTargets(c);
      }
      var j :| 0 <= j < |Searches| && Searches[j] == [c];
      ApplyPairsRemoves(s, |Searches|, j, c);
    }
  }

  /** `str.isspace()` for one character: the characters `str.strip()` removes by default. */
  predicate IsSpace(c: char)
  {
    || c == ' ' || ('\t' <= c <= '\r') || ('\U{001C}' <= c <= '\U{001F}')
    || c == '\U{0085}' || c == '\U{00A0}' || c == '\U{1680}' || ('\U{2000}' <= c <= '\U{200A}')
    || c == '\U{2028}' || c == '\U{2029}' || c == '\U{202F}' || c == '\U{205F}' || c == '\U{3000}'
  }

  /** How much whitespace `s.lstrip()` cuts off the front. */
  function LeadingSpaces(s: seq<char>): (n: nat)
    ensures n <= |s|
    ensures forall j :: 0 <= j < n ==> IsSpace(s[j])
    ensures n == |s| || !IsSpace(s[n])
  {
    if |s| > 0 && IsSpace(s[0]) then 1 + LeadingSpaces(s[1..]) else 0
  }

  /** How much whitespace `s.rstrip()` cuts off the end. */
  function TrailingSpaces(s: seq<char>): (n: nat)
    ensures n <= |s|
    ensures forall j :: |s| - n <= j < |s| ==> IsSpace(s[j])
    ensures n == |s| || !IsSpace(s[|s| - n - 1])
  {
    if |s| > 0 && IsSpace(s[|s| - 1]) then 1 + TrailingSpaces(s[..|s| - 1]) else 0
  }

  /** `s.strip()`: `lstrip`, then `rstrip`; what is left neither starts nor ends with whitespace. */
  function Strip(s: seq<char>): (r: seq<char>)
    ensures |r| == 0 || (!IsSpace(r[0]) && !IsSpace(r[|r| - 1]))
    ensures forall c :: c in r ==> c in s
  {
    var lead := s[LeadingSpaces(s)..];
    lead[..|lead| - TrailingSpaces(lead)]
  }

  /** What `strip` keeps is one slice of the text, and what it cuts off on either side is whitespace. */
  lemma StripKeepsSlice(s: seq<char>)
    ensures LeadingSpaces(s) + |Strip(s)| <= |s|
    ensures Strip(s) == s[LeadingSpaces(s)..LeadingSpaces(s) + |Strip(s)|]
    ensures forall j :: 0 <= j < LeadingSpaces(s) ==> IsSpace(s[j])
    ensures forall j :: LeadingSpaces(s) + |Strip(s)| <= j < |s| ==> IsSpace(s[j])
  {
    StripIsSlice(s);
    StripCutsTrailingSpace(s);
  }

  lemma StripIsSlice(s: seq<char>)
    ensures LeadingSpaces(s) + |Strip(s)| <= |s|
    ensures Strip(s) == s[LeadingSpaces(s)..LeadingSpaces(s) + |Strip(s)|]
  {
    TakeOfDrop(s, LeadingSpaces(s), |Strip(s)|);
  }

  lemma StripCutsTrailingSpace(s: seq<char>)
    ensures forall j :: LeadingSpaces(s) + |Strip(s)| <= j < |s| ==> IsSpace(s[j])
  {
    var i := LeadingSpaces(s);
    var lead := s[i..];
    forall j | i + |Strip(s)| <= j < |s| ensures IsSpace(s[j]) {
      assert s[j] == lead[j - i];
    }
  }

  lemma TakeOfDrop<T>(s: seq<T>, i: nat, n: nat)
    requires i + n <= |s|
    ensures s[i..][..n] == s[i..i + n]
  {
  }

  /** What `clean_str` returns. */
  function CleanText(text: seq<char>): seq<char>
  {
    Strip(ApplyPairs(MergeDoubles(Collapse(StripTashkeel(text))), |Searches|))
  }

  lemma MergeDoublesKeepsAbsent(t: seq<char>, c: char)
    requires c !in t && c != Waw && c != Yeh && c != Alef
    ensures c !in MergeDoubles(t)
  {
    var m1 := ReplaceAll(t, [Waw, Waw], [Waw]);
    ReplaceAllAbsent(t, [Waw, Waw], [Waw], c);
    ReplaceAllAbsent(m1, [Yeh, Yeh], [Yeh], c);
    ReplaceAllAbsent(ReplaceAll(m1, [Yeh, Yeh], [Yeh]), [Alef, Alef], [Alef], c);
  }

  /** The diacritics are gone after the first step, and no later step brings one back. */
  lemma CleanTextHasNoTashkeel(text: seq<char>)
    ensures forall c :: c in CleanText(text) ==> !IsTashkeel(c)
  {
    var t1 := Collapse(StripTashkeel(text));
    CollapseKeepsCharacters(StripTashkeel(text));
    forall c | IsTashkeel(c) ensures c !in CleanText(text) {
      MergeDoublesKeepsAbsent(t1, c);
      ApplyPairsKeepsAbsent(MergeDoubles(t1), |Searches|, c);
    }
  }

  /** `clean_str` removes every character of `Removed`. */
  lemma CleanTextRemoves(text: seq<char>)
    ensures forall c :: c in Removed ==> c !in CleanText(text)
  {
    ApplyPairsRemovesAll(MergeDoubles(Collapse(StripTashkeel(text))));
  }

  /** Right after the three merges, the text holds no وو, يي or اا. */
  lemma MergedTextHasNoDoubles(text: seq<char>)
    ensures var m := MergeDoubles(Collapse(StripTashkeel(text)));
      NoPair(m, Waw) && NoPair(m, Yeh) && NoPair(m, Alef)
  {
    CollapseLeavesNoTriples(StripTashkeel(text));
    MergeDoublesLeavesNoPairs(Collapse(StripTashkeel(text)));
  }

  /** The pairs run after the merges, so أ next to ا still yields اا in the result. */
  lemma PairsMayRestoreDoubleAlef(w: seq<char>)
    requires w == [AlefHamzaAbove, Alef]
    ensures CleanText(w) == [Alef, Alef]
  {
    assert w[1..] == [Alef] && [Alef][1..] == [];
    assert StripTashkeel([Alef]) == [Alef];
    assert StripTashkeel(w) == w;
    assert Collapse([Alef]) == [Alef];
    assert Collapse(w) == w;
    assert MergeDoubles(w) == w by {
      ReplaceAllMissing(w, [Waw, Waw], [Waw]);
      ReplaceAllMissing(w, [Yeh, Yeh], [Yeh]);
      ReplaceAllShort([Alef], [Alef, Alef], [Alef]);
      assert !StartsWith(w, [Alef, Alef]);
    }
    LaterPairsMiss(w, |Searches|);
  }

  /** `replace` changes nothing when the pattern's first character does not occur. */
  lemma {:induction false} ReplaceAllMissing(s: seq<char>, pat: seq<char>, rep: seq<char>)
    requires |pat| > 0 && pat[0] !in s
    ensures ReplaceAll(s, pat, rep) == s
    decreases |s|
  {
    if |s| > 0 {
      assert !StartsWith(s, pat) by {
        StartsWithAt(s, pat, 0);
      }
      ReplaceAllMissing(s[1..], pat, rep);
      assert s == [s[0]] + s[1..];
    }
  }

  /** `replace` changes nothing in a text shorter than the pattern. */
  lemma {:induction false} ReplaceAllShort(s: seq<char>, pat: seq<char>, rep: seq<char>)
    requires 0 < |pat| && |s| < |pat|
    ensures ReplaceAll(s, pat, rep) == s
    decreases |s|
  {
    if |s| > 0 {
      ReplaceAllShort(s[1..], pat, rep);
      assert s == [s[0]] + s[1..];
    }
  }

  lemma PatternsAfterFirstAvoidAlef()
    ensures forall k :: 1 <= k < |Searches| ==> Searches[k][0] != Alef
  {
  }

  /** The first pair turns أا into اا, and no later pair touches it. */
  lemma {:induction false} LaterPairsMiss(w: seq<char>, n: nat)
    requires w == [AlefHamzaAbove, Alef] && 1 <= n <= |Searches|
    ensures ApplyPairs(w, n) == [Alef, Alef]
  {
    PairsShape();
    if n == 1 {
      var tail := ReplaceAll([Alef], [AlefHamzaAbove], [Alef]);
      ReplaceAllMissing([Alef], [AlefHamzaAbove], [Alef]);
      assert w[1..] == [Alef];
      assert StartsWith(w, [AlefHamzaAbove]);
    } else {
      LaterPairsMiss(w, n - 1);
      PatternsAfterFirstAvoidAlef();
      ReplaceAllMissing([Alef, Alef], Searches[n - 1], Replacements[n - 1]);
    }
  }

  /** `clean_str`: each library call in turn, the pairs in a loop over their index. */
  method CleanStr(input: seq<char>) returns (text: seq<char>)
    ensures text == CleanText(input)
    ensures forall c :: c in text ==> !IsTashkeel(c)
    ensures forall c :: c in Removed ==> c !in text
    ensures |text| == 0 || (!IsSpace(text[0]) && !IsSpace(text[|text| - 1]))
  {
    text := StripTashkeel(input);
    text := Collapse(text);
    text := ReplaceAll(text, [Waw, Waw], [Waw]);
    text := ReplaceAll(text, [Yeh, Yeh], [Yeh]);
    text := ReplaceAll(text, [Alef, Alef], [Alef]);
    ghost var merged := text;
    PairsShape();
    for i := 0 to |Searches|
      invariant text == ApplyPairs(merged, i)
    {
      text := ReplaceAll(text, Searches[i], Replacements[i]);
    }
    text := Strip(text);
    CleanTextHasNoTashkeel(input);
    CleanTextRemoves(input);
  }
}
