/**
 * The two character-level normalisations of the Arabic stemmer.
 *
 * `__normalize_pre` deletes three regex character classes one after the
 * other. Their bracket expressions contain hyphens between the listed code
 * points, so each is read as ranges: the vowel-mark class deletes
 * U+064B..U+0652 and `-`, the kasheeda class deletes U+0640, and the
 * punctuation class deletes U+060C..U+061B, `-` and U+061F.
 *
 * `__normalize_post` turns a final hamza-seated letter into a bare hamza,
 * then rewrites the remaining seated forms by four substitutions.
 */
module ArabicNormalize {
  import opened Strings
  import opened ArabicAffixes
  import opened AffixLaws

  /** The three deleted classes, in the order `__normalize_pre` applies them. */
  datatype MarkClass = Vocalization | Kasheeda | PunctuationMarks

  predicate InClass(k: MarkClass, c: char)
  {
    match k
    case Vocalization => ('\U{064B}' <= c <= '\U{0652}') || c == '-'
    case Kasheeda => c == '\U{0640}'
    case PunctuationMarks => ('\U{060C}' <= c <= '\U{061B}') || c == '-' || c == '\U{061F}'
  }

  /** Everything `__normalize_pre` deletes. */
  predicate PreRemoved(c: char)
  {
    InClass(Vocalization, c) || InClass(Kasheeda, c) || InClass(PunctuationMarks, c)
  }

  /** `re.sub(class, '', s)`: keep the characters outside class `k`, in order. */
  function Delete(s: seq<char>, k: MarkClass): (r: seq<char>)
    ensures |r| <= |s|
    ensures forall c :: c in r <==> c in s && !InClass(k, c)
    ensures (forall i :: 0 <= i < |s| ==> !InClass(k, s[i])) ==> r == s
  {
    if |s| == 0 then []
    else if InClass(k, s[0]) then Delete(s[1..], k)
    else [s[0]] + Delete(s[1..], k)
  }

  /** Single-pass reading of `__normalize_pre`: keep each character that none of the classes holds. */
  function KeepUnmarked(s: seq<char>): seq<char>
  {
    if |s| == 0 then []
    else if PreRemoved(s[0]) then KeepUnmarked(s[1..])
    else [s[0]] + KeepUnmarked(s[1..])
  }

  /** `__normalize_pre`: strip vowel marks, then kasheeda, then punctuation. */
  function NormalizePre(token: seq<char>): (r: seq<char>)
    ensures |r| <= |token|
    ensures forall c :: c in r <==> c in token && !PreRemoved(c)
  {
    Delete(Delete(Delete(token, Vocalization), Kasheeda), PunctuationMarks)
  }

  /** Filtering twice by two classes is filtering once by their union. */
  lemma {:induction false} DeleteThreeIsKeepUnmarked(s: seq<char>)
    ensures NormalizePre(s) == KeepUnmarked(s)
  {
    if |s| > 0 {
      DeleteThreeIsKeepUnmarked(s[1..]);
    }
  }

  /** `__normalize_pre` keeps exactly the unmarked characters, in order, and applying it again changes nothing. */
  lemma NormalizePreIsFilter(s: seq<char>)
    ensures NormalizePre(s) == KeepUnmarked(s)
    ensures NormalizePre(NormalizePre(s)) == NormalizePre(s)
  {
    DeleteThreeIsKeepUnmarked(s);
    var r := NormalizePre(s);
    forall i | 0 <= i < |r| ensures !PreRemoved(r[i]) {
      assert r[i] in r;
    }
    KeepUnmarkedOfClean(r);
    DeleteThreeIsKeepUnmarked(r);
  }

  lemma {:induction false} KeepUnmarkedOfClean(s: seq<char>)
    requires forall i :: 0 <= i < |s| ==> !PreRemoved(s[i])
    ensures KeepUnmarked(s) == s
  {
    if |s| > 0 {
      KeepUnmarkedOfClean(s[1..]);
    }
  }

  /** A word with nothing to strip passes `__normalize_pre` unchanged. */
  lemma NormalizePreKeepsClean(s: seq<char>)
    requires forall i :: 0 <= i < |s| ==> !PreRemoved(s[i])
    ensures NormalizePre(s) == s
  {
  }

  /** `re.sub(class, replacement, s)` for a class of single characters: each member of `targets` becomes `replacement`. */
  function Substitute(s: seq<char>, targets: seq<char>, replacement: char): (r: seq<char>)
    ensures |r| == |s|
    ensures forall i :: 0 <= i < |s| ==> r[i] == if s[i] in targets then replacement else s[i]
  {
    if |s| == 0 then [] else [if s[0] in targets then replacement else s[0]] + Substitute(s[1..], targets, replacement)
  }

  /** `re.sub('^[آأإ]', 'ا', s)`: only the first character is rewritten. */
  function InitialHamzat(s: seq<char>): (r: seq<char>)
    ensures |r| == |s|
    ensures |s| > 0 ==> r[0] == if s[0] in Alefat then Alef else s[0]
    ensures |s| == 0 || r[1..] == s[1..]
  {
    if |s| > 0 && s[0] in Alefat then [Alef] + s[1..] else s
  }

  const Alefat: seq<char> := [AlefHamzaAbove, AlefMadda, AlefHamzaBelow]

  /** The four substitutions of `__normalize_post` after its final-hamza loop. */
  function OtherHamzat(s: seq<char>): seq<char>
  {
    Substitute(Substitute(Substitute(InitialHamzat(s), [WawHamza], Waw), [YehHamza], Yeh), Alefat, Alef)
  }

  /** What `__normalize_post` does to one character after the final-hamza loop. */
  function PostChar(c: char): char
  {
    if c in Alefat then Alef else if c == WawHamza then Waw else if c == YehHamza then Yeh else c
  }

  /** The four substitutions act character by character, and the initial-alef one is subsumed by the last. */
  lemma OtherHamzatPointwise(s: seq<char>)
    ensures |OtherHamzat(s)| == |s|
    ensures forall i :: 0 <= i < |s| ==> OtherHamzat(s)[i] == PostChar(s[i])
  {
    var a := InitialHamzat(s);
    var b := Substitute(a, [WawHamza], Waw);
    var c := Substitute(b, [YehHamza], Yeh);
    assert OtherHamzat(s) == Substitute(c, Alefat, Alef);
    forall i | 0 <= i < |s| ensures OtherHamzat(s)[i] == PostChar(s[i]) {
      if i > 0 {
        assert a[i] == a[1..][i - 1] == s[1..][i - 1] == s[i];
      }
    }
  }

  /** `__normalize_post`, as a function: the final-hamza loop, then the substitutions. */
  function PostNormalized(token: seq<char>): seq<char>
  {
    OtherHamzat(Apply(LastHamza, token).token)
  }

  /** `__normalize_post`: its loop tries the five seated forms in order and rewrites the first that ends the token. */
  method NormalizePost(token: seq<char>) returns (r: seq<char>)
    ensures r == PostNormalized(token)
    ensures |r| == |token|
  {
    r := token;
    var hit := Scan(LastHamza, token);
    if hit.Some? {
      r := hit.value.token;
    }
    r := InitialHamzat(r);
    r := Substitute(r, [WawHamza], Waw);
    r := Substitute(r, [YehHamza], Yeh);
    r := Substitute(r, Alefat, Alef);
    LastHamzaBecomesHamza(token);
  }

  /** No seated hamza survives the substitutions. */
  lemma PostCharUnseated(c: char)
    ensures PostChar(c) !in LastHamzat
  {
  }

  /** The final-hamza loop changes at most the last character, and only into ء. */
  lemma LastHamzaTouchesOnlyLast(t: seq<char>)
    ensures var u := Apply(LastHamza, t).token;
            && |u| == |t|
            && (forall i :: 0 <= i < |t| - 1 ==> u[i] == t[i])
            && (|t| > 0 ==> u[|t| - 1] == if t[|t| - 1] in LastHamzat then Hamza else t[|t| - 1])
  {
    LastHamzaBecomesHamza(t);
  }

  /**
   * `__normalize_post` keeps the length, leaves none of آ أ إ ؤ ئ, turns a
   * final seated hamza into ء, and otherwise rewrites each character on its own.
   */
  lemma PostNormalizedShape(t: seq<char>)
    ensures |PostNormalized(t)| == |t|
    ensures forall i :: 0 <= i < |t| ==> PostNormalized(t)[i] !in LastHamzat
    ensures |t| > 0 && t[|t| - 1] in LastHamzat ==> PostNormalized(t)[|t| - 1] == Hamza
    ensures forall i :: 0 <= i < |t| - 1 ==> PostNormalized(t)[i] == PostChar(t[i])
    ensures |t| > 0 && t[|t| - 1] !in LastHamzat ==> PostNormalized(t)[|t| - 1] == PostChar(t[|t| - 1])
  {
    var u := Apply(LastHamza, t).token;
    LastHamzaTouchesOnlyLast(t);
    OtherHamzatPointwise(u);
    forall i | 0 <= i < |t| ensures PostNormalized(t)[i] !in LastHamzat {
      PostCharUnseated(u[i]);
    }
  }

  /** A word with no seated hamza passes `__normalize_post` unchanged. */
  lemma PostNormalizedKeepsPlain(t: seq<char>)
    requires forall i :: 0 <= i < |t| ==> t[i] !in LastHamzat
    ensures PostNormalized(t) == t
  {
    PostNormalizedShape(t);
    assert forall i :: 0 <= i < |t| ==> PostChar(t[i]) == t[i];
  }
}
