/**
 * `ArabicStemmer`: the object whose boolean fields steer the stemming
 * cascade. `stem` resets all of them except `suffixes_verb_step1_success`,
 * classifies the raw word, strips marks, runs the suffix cascades chosen by
 * the fields, then the prefix cascade, and normalises hamza forms.
 *
 * The pure functions below (`Stemmed` and the cascades) say what one call
 * does to the fields and the word; the class runs the same cascade by
 * updating its fields, and its methods are proved against those functions.
 */
module ArabicStemming {
  import opened Strings
  import opened ArabicAffixes
  import opened AffixLaws
  import opened ArabicNormalize

  /** The values of the stemmer's fields. */
  datatype Flags = Flags(
    isVerb: bool,
    isNoun: bool,
    isDefined: bool,
    suffixesVerbStep1Success: bool,
    suffixVerbStep2aSuccess: bool,
    suffixVerbStep2bSuccess: bool,
    suffixNounStep2c2Success: bool,
    suffixNounStep1aSuccess: bool,
    suffixNounStep2aSuccess: bool,
    suffixNounStep2bSuccess: bool,
    suffixeNounStep1bSuccess: bool,
    prefixStep2aSuccess: bool,
    prefixStep3aNounSuccess: bool,
    prefixStep3bNounSuccess: bool)

  /** The class-level defaults every new stemmer starts from. */
  const InitialFlags := Flags(true, true, false, false, false, false, false, false, false, false, false, false, false, false)

  /** The fields and the word being stemmed, between two steps. */
  datatype Run = Run(flags: Flags, token: seq<char>)

  /** The fields a step sets when it fires (only the flagged branches of each step). */
  function Mark(f: Flags, rule: Rule): Flags
  {
    match rule
    case Checks1 => f.(isNoun := true, isVerb := false, isDefined := true)
    case Checks2 => f.(isNoun := true, isVerb := false)
    case SuffixVerbStep1 => f.(suffixesVerbStep1Success := true)
    case SuffixVerbStep2a => f.(suffixVerbStep2aSuccess := true)
    case SuffixVerbStep2b => f.(suffixVerbStep2bSuccess := true)
    case SuffixNounStep2c2 => f.(suffixNounStep2c2Success := true)
    case SuffixNounStep1a => f.(suffixNounStep1aSuccess := true)
    case SuffixNounStep2a => f.(suffixNounStep2aSuccess := true)
    case SuffixNounStep2b => f.(suffixNounStep2bSuccess := true)
    case SuffixNounStep1b => f.(suffixeNounStep1bSuccess := true)
    case PrefixStep2a => f.(prefixStep2aSuccess := true)
    case PrefixStep3aNoun => f.(prefixStep3aNounSuccess := true)
    case PrefixStep3bNoun => f.(prefixStep3bNounSuccess := true)
    case PrefixStep4Verb => f.(isVerb := true, isNoun := false)
    case LastHamza | SuffixVerbStep2c | SuffixNounStep2c1 | SuffixNounStep3 | SuffixAllAlefMaqsura
         | PrefixStep1 | PrefixStep2b | PrefixStep3Verb => f
  }

  /** One step of the cascade: the step's token, and its fields set when a flagged branch fired. */
  function Step(rule: Rule, run: Run): Run
  {
    var h := Apply(rule, run.token);
    Run(if h.marks then Mark(run.flags, rule) else run.flags, h.token)
  }

  /** The assignments at the top of `stem`: every field but `suffixesVerbStep1Success` gets its default. */
  function Reset(f: Flags): Flags
  {
    InitialFlags.(suffixesVerbStep1Success := f.suffixesVerbStep1Success)
  }

  /** The fields after the two checks, which look at the raw word. */
  function Classified(f: Flags, word: seq<char>): Flags
  {
    Step(Checks2, Step(Checks1, Run(Reset(f), word))).flags
  }

  /** The block run when `is_verb` holds. */
  function VerbSuffixes(r: Run): Run
  {
    var r1 := Step(SuffixVerbStep1, r);
    if r1.flags.suffixesVerbStep1Success then
      var r2 := Step(SuffixVerbStep2a, r1);
      if !r2.flags.suffixVerbStep2aSuccess then Step(SuffixVerbStep2c, r2) else r2
    else
      var r2 := Step(SuffixVerbStep2b, r1);
      if !r2.flags.suffixVerbStep2bSuccess then Step(SuffixVerbStep2a, r2) else r2
  }

  /** Noun Step2a, then Step2b unless 2a succeeded, then Step2c1 unless either did. */
  function NounStep2(r: Run): Run
  {
    var r1 := Step(SuffixNounStep2a, r);
    var r2 := if !r1.flags.suffixNounStep2aSuccess then Step(SuffixNounStep2b, r1) else r1;
    if !r2.flags.suffixNounStep2bSuccess && !r2.flags.suffixNounStep2aSuccess then Step(SuffixNounStep2c1, r2) else r2
  }

  /** The block run when `is_noun` holds. */
  function NounSuffixes(r: Run): Run
  {
    var r1 := Step(SuffixNounStep2c2, r);
    var r2 :=
      if r1.flags.suffixNounStep2c2Success then r1
      else if !r1.flags.isDefined then NounStep2(Step(SuffixNounStep1a, r1))
      else
        var r3 := Step(SuffixNounStep1b, r1);
        if r3.flags.suffixeNounStep1bSuccess then NounStep2(r3)
        else
          var r4 := if !r3.flags.isDefined then Step(SuffixNounStep2a, r3) else r3;
          Step(SuffixNounStep2b, r4);
    Step(SuffixNounStep3, r2)
  }

  /** The three suffix blocks of `stem`, each under its field test. */
  function SuffixPhase(r: Run): Run
  {
    var r1 := if r.flags.isVerb then VerbSuffixes(r) else r;
    var r2 := if r1.flags.isNoun then NounSuffixes(r1) else r1;
    if !r2.flags.isNoun && r2.flags.isVerb then Step(SuffixAllAlefMaqsura, r2) else r2
  }

  /** The prefix block of `stem`. */
  function PrefixPhase(r: Run): Run
  {
    var r1 := Step(PrefixStep1, r);
    var r2 := Step(PrefixStep2a, r1);
    var r3 := if !r2.flags.prefixStep2aSuccess then Step(PrefixStep2b, r2) else r2;
    var r4 := Step(PrefixStep3aNoun, r3);
    if !r4.flags.prefixStep3aNounSuccess && r4.flags.isNoun then Step(PrefixStep3bNoun, r4)
    else if !r4.flags.prefixStep3bNounSuccess && r4.flags.isVerb then Step(PrefixStep4Verb, Step(PrefixStep3Verb, r4))
    else r4
  }

  /** One call of `stem` on a stemmer whose fields hold `f`: the fields afterwards and the stem. */
  function Stemmed(f: Flags, word: seq<char>): Run
  {
    var r := PrefixPhase(SuffixPhase(Run(Classified(f, word), NormalizePre(word))));
    Run(r.flags, PostNormalized(r.token))
  }

  /** Successive calls of `stem` on one stemmer, as a list comprehension over the tokens does. */
  function StemmedAll(f: Flags, words: seq<seq<char>>): (r: (Flags, seq<seq<char>>))
    ensures |r.1| == |words|
    decreases |words|
  {
    if |words| == 0 then (f, [])
    else
      var first := Stemmed(f, words[0]);
      var rest := StemmedAll(first.flags, words[1..]);
      (rest.0, [first.token] + rest.1)
  }

  /**
   * `StemmedAll` from position `i` on, after the stems `done`: the stem of
   * `words[i]` joins them, and the rest runs from the fields it left.
   */
  lemma StemmedAllFront(f: Flags, words: seq<seq<char>>, i: nat, done: seq<seq<char>>)
    requires i < |words|
    ensures var first := Stemmed(f, words[i]);
            var rest := StemmedAll(first.flags, words[i + 1..]);
            && StemmedAll(f, words[i..]).0 == rest.0
            && done + StemmedAll(f, words[i..]).1 == (done + [first.token]) + rest.1
  {
    assert words[i..][1..] == words[i + 1..];
  }

  class ArabicStemmer {
    /**
     * The attributes `is_verb`, `is_noun`, `is_defined` and the eleven
     * `*_success` flags, one record component each.
     */
    var flags: Flags

    /** A new stemmer holds the class-level defaults. */
    constructor()
      ensures flags == InitialFlags
    {
      flags := InitialFlags;
    }

    /** The field assignments of the branch of `rule` that fired. */
    method SetFlags(rule: Rule)
      modifies this
      ensures flags == Mark(old(flags), rule)
    {
      match rule
      case Checks1 => flags := flags.(isNoun := true, isVerb := false, isDefined := true);
      case Checks2 => flags := flags.(isNoun := true, isVerb := false);
      case SuffixVerbStep1 => flags := flags.(suffixesVerbStep1Success := true);
      case SuffixVerbStep2a => flags := flags.(suffixVerbStep2aSuccess := true);
      case SuffixVerbStep2b => flags := flags.(suffixVerbStep2bSuccess := true);
      case SuffixNounStep2c2 => flags := flags.(suffixNounStep2c2Success := true);
      case SuffixNounStep1a => flags := flags.(suffixNounStep1aSuccess := true);
      case SuffixNounStep2a => flags := flags.(suffixNounStep2aSuccess := true);
      case SuffixNounStep2b => flags := flags.(suffixNounStep2bSuccess := true);
      case SuffixNounStep1b => flags := flags.(suffixeNounStep1bSuccess := true);
      case PrefixStep2a => flags := flags.(prefixStep2aSuccess := true);
      case PrefixStep3aNoun => flags := flags.(prefixStep3aNounSuccess := true);
      case PrefixStep3bNoun => flags := flags.(prefixStep3bNounSuccess := true);
      case PrefixStep4Verb => flags := flags.(isVerb := true, isNoun := false);
      case _ =>
    }

    /** One step method (`__Suffix_Verb_Step1` and the rest): scan the table, rewrite the token, set the flags. */
    method RunStep(rule: Rule, token: seq<char>) returns (r: seq<char>)
      modifies this
      ensures Run(flags, r) == Step(rule, Run(old(flags), token))
    {
      r := token;
      var hit := Scan(rule, token);
      if hit.Some? {
        r := hit.value.token;
        if hit.value.marks {
          SetFlags(rule);
        }
      }
    }

    /** `__checks_1` and `__checks_2`: they only set fields. */
    method Check(rule: Rule, token: seq<char>)
      requires rule == Checks1 || rule == Checks2
      modifies this
      ensures flags == Step(rule, Run(old(flags), token)).flags
    {
      var sameToken := RunStep(rule, token);
    }

    /** `stem`: reset the fields, classify, strip, run the cascades the fields select, normalise. */
    method Stem(word: seq<char>) returns (stemmed: seq<char>)
      modifies this
      ensures Run(flags, stemmed) == Stemmed(old(flags), word)
    {
      flags := flags.(
        isVerb := true, isNoun := true, isDefined := false,
        suffixVerbStep2aSuccess := false, suffixVerbStep2bSuccess := false,
        suffixNounStep2c2Success := false, suffixNounStep1aSuccess := false, suffixNounStep2aSuccess := false,
        suffixNounStep2bSuccess := false, suffixeNounStep1bSuccess := false,
        prefixStep2aSuccess := false, prefixStep3aNounSuccess := false, prefixStep3bNounSuccess := false);
      assert flags == Reset(old(flags));

      var modifiedWord := word;
      Check(Checks1, modifiedWord);
      Checks1Fires(word);
      Check(Checks2, modifiedWord);
      modifiedWord := NormalizePre(modifiedWord);
      ghost var r0 := Run(flags, modifiedWord);

      if flags.isVerb {
        modifiedWord := VerbSuffixSteps(modifiedWord);
      }
      if flags.isNoun {
        modifiedWord := NounSuffixSteps(modifiedWord);
      }
      if !flags.isNoun && flags.isVerb {
        modifiedWord := RunStep(SuffixAllAlefMaqsura, modifiedWord);
      }
      assert Run(flags, modifiedWord) == SuffixPhase(r0);

      modifiedWord := PrefixSteps(modifiedWord);
      modifiedWord := NormalizePost(modifiedWord);
      stemmed := modifiedWord;
    }

    /** The verb suffix block of `stem`. */
    method VerbSuffixSteps(token: seq<char>) returns (r: seq<char>)
      modifies this
      ensures Run(flags, r) == VerbSuffixes(Run(old(flags), token))
    {
      r := RunStep(SuffixVerbStep1, token);
      if flags.suffixesVerbStep1Success {
        r := RunStep(SuffixVerbStep2a, r);
        if !flags.suffixVerbStep2aSuccess {
          r := RunStep(SuffixVerbStep2c, r);
        }
      } else {
        r := RunStep(SuffixVerbStep2b, r);
        if !flags.suffixVerbStep2bSuccess {
          r := RunStep(SuffixVerbStep2a, r);
        }
      }
    }

    /** The noun suffix block of `stem`. */
    method NounSuffixSteps(token: seq<char>) returns (r: seq<char>)
      modifies this
      ensures Run(flags, r) == NounSuffixes(Run(old(flags), token))
    {
      r := RunStep(SuffixNounStep2c2, token);
      if !flags.suffixNounStep2c2Success {
        if !flags.isDefined {
          r := RunStep(SuffixNounStep1a, r);
          r := NounStep2Steps(r);
        } else {
          r := RunStep(SuffixNounStep1b, r);
          if flags.suffixeNounStep1bSuccess {
            r := NounStep2Steps(r);
          } else {
            if !flags.isDefined {
              r := RunStep(SuffixNounStep2a, r);
            }
            r := RunStep(SuffixNounStep2b, r);
          }
        }
      }
      r := RunStep(SuffixNounStep3, r);
    }

    /** The prefix block of `stem`. */
    method PrefixSteps(token: seq<char>) returns (r: seq<char>)
      modifies this
      ensures Run(flags, r) == PrefixPhase(Run(old(flags), token))
    {
      r := RunStep(PrefixStep1, token);
      r := RunStep(PrefixStep2a, r);
      if !flags.prefixStep2aSuccess {
        r := RunStep(PrefixStep2b, r);
      }
      r := RunStep(PrefixStep3aNoun, r);
      if !flags.prefixStep3aNounSuccess && flags.isNoun {
        r := RunStep(PrefixStep3bNoun, r);
      } else {
        if !flags.prefixStep3bNounSuccess && flags.isVerb {
          r := RunStep(PrefixStep3Verb, r);
          r := RunStep(PrefixStep4Verb, r);
        }
      }
    }

    /**
     * The noun Step2a / Step2b / Step2c1 sequence, which `stem` writes out
     * twice in the same form.
     */
    method NounStep2Steps(token: seq<char>) returns (r: seq<char>)
      modifies this
      ensures Run(flags, r) == NounStep2(Run(old(flags), token))
    {
      r := RunStep(SuffixNounStep2a, token);
      if !flags.suffixNounStep2aSuccess {
        r := RunStep(SuffixNounStep2b, r);
      }
      if !flags.suffixNounStep2bSuccess && !flags.suffixNounStep2aSuccess {
        r := RunStep(SuffixNounStep2c1, r);
      }
    }

    /** Stemming a list of tokens in order with this one stemmer. */
    method StemEach(words: seq<seq<char>>) returns (stems: seq<seq<char>>)
      modifies this
      ensures stems == StemmedAll(old(flags), words).1
      ensures flags == StemmedAll(old(flags), words).0
    {
      stems := [];
      var i := 0;
      assert words[i..] == words;
      while i < |words|
        invariant 0 <= i <= |words|
        invariant StemmedAll(old(flags), words).0 == StemmedAll(flags, words[i..]).0
        invariant StemmedAll(old(flags), words).1 == stems + StemmedAll(flags, words[i..]).1
        decreases |words| - i
      {
        ghost var before := flags;
        var s := Stem(words[i]);
        StemmedAllFront(before, words, i, stems);
        stems := stems + [s];
        i := i + 1;
      }
      assert words[i..] == [];
    }
  }
}
