/**
 * What one call of `stem`, and a run of calls on one stemmer, amount to:
 * how the checks classify a word, which suffix blocks can run, that the
 * stem is never longer than the word, and how `suffixesVerbStep1Success`
 * carries over from one call to the next.
 */
module StemmerLaws {
  import opened Strings
  import opened ArabicAffixes
  import opened AffixLaws
  import opened ArabicNormalize
  import opened ArabicStemming

  /** No step makes the token longer. */
  lemma StepNoLonger(rule: Rule, r: Run)
    ensures |Step(rule, r).token| <= |r.token|
  {
    ApplyNoLonger(rule, r.token);
  }

  /**
   * The checks only ever set `is_noun` together with clearing `is_verb`, and
   * `is_defined` only with the definite-article check: after them the word is
   * a noun, a verb exactly when neither check fired, defined exactly when
   * the first did, and every success flag but the leaked one is cleared.
   */
  lemma ClassifiedShape(f: Flags, word: seq<char>)
    ensures var g := Classified(f, word);
            && g.isNoun
            && (g.isDefined ==> !g.isVerb)
            && (g.isDefined <==> Apply(Checks1, word).marks)
            && (g.isVerb <==> !Apply(Checks1, word).marks && !Apply(Checks2, word).marks)
            && g == InitialFlags.(isVerb := g.isVerb, isDefined := g.isDefined,
                                  suffixesVerbStep1Success := f.suffixesVerbStep1Success)
  {
    Checks1Fires(word);
    Checks2Fires(word);
  }

  /** A step's outcome in terms of `Apply` and `Mark`. */
  lemma StepCases(rule: Rule, r: Run)
    ensures Step(rule, r).token == Apply(rule, r.token).token
    ensures Step(rule, r).flags == r.flags || Step(rule, r).flags == Mark(r.flags, rule)
  {
  }

  /**
   * Only the checks and Prefix Step4 (verbs) touch the word's class, and only
   * Suffix Verb Step1 touches the flag `stem` does not reset.
   */
  lemma MarkTouches(f: Flags, rule: Rule)
    ensures Mark(f, rule).suffixesVerbStep1Success == (f.suffixesVerbStep1Success || rule == SuffixVerbStep1)
    ensures rule != Checks1 && rule != Checks2 && rule != PrefixStep4Verb ==>
              var g := Mark(f, rule); g.isVerb == f.isVerb && g.isNoun == f.isNoun && g.isDefined == f.isDefined
  {
    MarkLeakedFlag(f, rule);
    MarkKeepsClass(f, rule);
  }

  lemma MarkLeakedFlag(f: Flags, rule: Rule)
    ensures Mark(f, rule).suffixesVerbStep1Success == (f.suffixesVerbStep1Success || rule == SuffixVerbStep1)
  {
    match rule
    case Checks1 => assert Mark(f, rule) == f.(isNoun := true, isVerb := false, isDefined := true);
    case Checks2 => assert Mark(f, rule) == f.(isNoun := true, isVerb := false);
    case PrefixStep4Verb => assert Mark(f, rule) == f.(isVerb := true, isNoun := false);
    case SuffixVerbStep1 => assert Mark(f, rule) == f.(suffixesVerbStep1Success := true);
    case SuffixVerbStep2a => assert Mark(f, rule) == f.(suffixVerbStep2aSuccess := true);
    case SuffixVerbStep2b => assert Mark(f, rule) == f.(suffixVerbStep2bSuccess := true);
    case SuffixNounStep2c2 => assert Mark(f, rule) == f.(suffixNounStep2c2Success := true);
    case SuffixNounStep1a => assert Mark(f, rule) == f.(suffixNounStep1aSuccess := true);
    case SuffixNounStep2a => assert Mark(f, rule) == f.(suffixNounStep2aSuccess := true);
    case SuffixNounStep2b => assert Mark(f, rule) == f.(suffixNounStep2bSuccess := true);
    case SuffixNounStep1b => assert Mark(f, rule) == f.(suffixeNounStep1bSuccess := true);
    case PrefixStep2a => assert Mark(f, rule) == f.(prefixStep2aSuccess := true);
    case PrefixStep3aNoun => assert Mark(f, rule) == f.(prefixStep3aNounSuccess := true);
    case PrefixStep3bNoun => assert Mark(f, rule) == f.(prefixStep3bNounSuccess := true);
    case LastHamza | SuffixVerbStep2c | SuffixNounStep2c1 | SuffixNounStep3 | SuffixAllAlefMaqsura
         | PrefixStep1 | PrefixStep2b | PrefixStep3Verb =>
      assert Mark(f, rule) == f;
  }

  lemma MarkKeepsClass(f: Flags, rule: Rule)
    ensures rule != Checks1 && rule != Checks2 && rule != PrefixStep4Verb ==>
              var g := Mark(f, rule); g.isVerb == f.isVerb && g.isNoun == f.isNoun && g.isDefined == f.isDefined
  {
    match rule
    case Checks1 => assert Mark(f, rule) == f.(isNoun := true, isVerb := false, isDefined := true);
    case Checks2 => assert Mark(f, rule) == f.(isNoun := true, isVerb := false);
    case PrefixStep4Verb => assert Mark(f, rule) == f.(isVerb := true, isNoun := false);
    case SuffixVerbStep1 => assert Mark(f, rule) == f.(suffixesVerbStep1Success := true);
    case SuffixVerbStep2a => assert Mark(f, rule) == f.(suffixVerbStep2aSuccess := true);
    case SuffixVerbStep2b => assert Mark(f, rule) == f.(suffixVerbStep2bSuccess := true);
    case SuffixNounStep2c2 => assert Mark(f, rule) == f.(suffixNounStep2c2Success := true);
    case SuffixNounStep1a => assert Mark(f, rule) == f.(suffixNounStep1aSuccess := true);
    case SuffixNounStep2a => assert Mark(f, rule) == f.(suffixNounStep2aSuccess := true);
    case SuffixNounStep2b => assert Mark(f, rule) == f.(suffixNounStep2bSuccess := true);
    case SuffixNounStep1b => assert Mark(f, rule) == f.(suffixeNounStep1bSuccess := true);
    case PrefixStep2a => assert Mark(f, rule) == f.(prefixStep2aSuccess := true);
    case PrefixStep3aNoun => assert Mark(f, rule) == f.(prefixStep3aNounSuccess := true);
    case PrefixStep3bNoun => assert Mark(f, rule) == f.(prefixStep3bNounSuccess := true);
    case LastHamza | SuffixVerbStep2c | SuffixNounStep2c1 | SuffixNounStep3 | SuffixAllAlefMaqsura
         | PrefixStep1 | PrefixStep2b | PrefixStep3Verb =>
      assert Mark(f, rule) == f;
  }

  /** The suffix steps set only success flags: the word's class is what the checks made it. */
  lemma SuffixStepKeepsClass(rule: Rule, r: Run)
    requires IsSuffixStep(rule)
    ensures var g := Step(rule, r).flags;
            g.isVerb == r.flags.isVerb && g.isNoun == r.flags.isNoun && g.isDefined == r.flags.isDefined
  {
    StepCases(rule, r);
    MarkTouches(r.flags, rule);
  }

  lemma VerbSuffixesKeepClass(r: Run)
    ensures var g := VerbSuffixes(r).flags;
            g.isVerb == r.flags.isVerb && g.isNoun == r.flags.isNoun && g.isDefined == r.flags.isDefined
  {
    forall rule: Rule, q: Run | IsSuffixStep(rule)
      ensures var g := Step(rule, q).flags;
              g.isVerb == q.flags.isVerb && g.isNoun == q.flags.isNoun && g.isDefined == q.flags.isDefined
    {
      SuffixStepKeepsClass(rule, q);
    }
  }

  lemma NounSuffixesKeepClass(r: Run)
    ensures var g := NounSuffixes(r).flags;
            g.isVerb == r.flags.isVerb && g.isNoun == r.flags.isNoun && g.isDefined == r.flags.isDefined
  {
    forall rule: Rule, q: Run | IsSuffixStep(rule)
      ensures var g := Step(rule, q).flags;
              g.isVerb == q.flags.isVerb && g.isNoun == q.flags.isNoun && g.isDefined == q.flags.isDefined
    {
      SuffixStepKeepsClass(rule, q);
    }
  }

  /**
   * Since `is_noun` is still true when the suffix blocks are reached, the
   * noun block always runs and the alef-maqsura step is never taken.
   */
  lemma NounCascadeAlwaysRuns(f: Flags, word: seq<char>)
    ensures var r0 := Run(Classified(f, word), NormalizePre(word));
            SuffixPhase(r0) == NounSuffixes(if r0.flags.isVerb then VerbSuffixes(r0) else r0)
  {
    var r0 := Run(Classified(f, word), NormalizePre(word));
    ClassifiedShape(f, word);
    VerbSuffixesKeepClass(r0);
    var r1 := if r0.flags.isVerb then VerbSuffixes(r0) else r0;
    NounSuffixesKeepClass(r1);
  }

  lemma VerbSuffixesNoLonger(r: Run)
    ensures |VerbSuffixes(r).token| <= |r.token|
  {
    forall rule: Rule, q: Run ensures |Step(rule, q).token| <= |q.token| {
      StepNoLonger(rule, q);
    }
  }

  lemma NounSuffixesNoLonger(r: Run)
    ensures |NounSuffixes(r).token| <= |r.token|
  {
    forall rule: Rule, q: Run ensures |Step(rule, q).token| <= |q.token| {
      StepNoLonger(rule, q);
    }
  }

  lemma PrefixPhaseNoLonger(r: Run)
    ensures |PrefixPhase(r).token| <= |r.token|
  {
    forall rule: Rule, q: Run ensures |Step(rule, q).token| <= |q.token| {
      StepNoLonger(rule, q);
    }
  }

  /** The stem is never longer than the word it came from. */
  lemma StemmedNoLonger(f: Flags, word: seq<char>)
    ensures |Stemmed(f, word).token| <= |word|
  {
    var r0 := Run(Classified(f, word), NormalizePre(word));
    VerbSuffixesNoLonger(r0);
    var r1 := if r0.flags.isVerb then VerbSuffixes(r0) else r0;
    NounSuffixesNoLonger(r1);
    var r2 := if r1.flags.isNoun then NounSuffixes(r1) else r1;
    StepNoLonger(SuffixAllAlefMaqsura, r2);
    var r3 := SuffixPhase(r0);
    PrefixPhaseNoLonger(r3);
    PostNormalizedShape(PrefixPhase(r3).token);
  }

  /**
   * Only `suffixesVerbStep1Success` carries over into a call: two stemmers
   * that agree on it give the same stem and end in the same state.
   */
  lemma OnlyLeakedFlagCarriesOver(f: Flags, g: Flags, word: seq<char>)
    requires f.suffixesVerbStep1Success == g.suffixesVerbStep1Success
    ensures Stemmed(f, word) == Stemmed(g, word)
  {
    assert Reset(f) == Reset(g);
  }

  /**
   * Prefix Step4 (verbs) keeps the length, and turns the word into a verb
   * that is not a noun exactly when it rewrites the token.
   */
  lemma PrefixStep4VerbReclassifies(r: Run)
    ensures var s := Step(PrefixStep4Verb, r);
            && |s.token| == |r.token|
            && s.flags == if s.token != r.token then r.flags.(isVerb := true, isNoun := false) else r.flags
  {
    var t := r.token;
    PrefixStep4VerbRewritesIst(t);
    if |t| > 4 && t[..3] in Table(PrefixStep4Verb) {
      assert t[0] == t[..3][0];
      assert ([Alef, Seen, Teh] + t[3..])[0] == Alef;
    }
  }

  /** No step clears `suffixesVerbStep1Success`. */
  lemma StepKeepsLeak(rule: Rule, q: Run)
    requires q.flags.suffixesVerbStep1Success
    ensures Step(rule, q).flags.suffixesVerbStep1Success
  {
    StepCases(rule, q);
    MarkTouches(q.flags, rule);
  }

  /** The verb block leaves `suffixesVerbStep1Success` set exactly when it was set before or its Step1 fires. */
  lemma VerbSuffixesLeak(r: Run)
    ensures VerbSuffixes(r).flags.suffixesVerbStep1Success
            == (r.flags.suffixesVerbStep1Success || Apply(SuffixVerbStep1, r.token).marks)
  {
    forall rule: Rule, q: Run ensures Step(rule, q).flags.suffixesVerbStep1Success
                                    == (q.flags.suffixesVerbStep1Success || (rule == SuffixVerbStep1 && Apply(rule, q.token).marks))
    {
      StepCases(rule, q);
      MarkTouches(q.flags, rule);
    }
  }

  lemma NounSuffixesKeepLeak(r: Run)
    requires r.flags.suffixesVerbStep1Success
    ensures NounSuffixes(r).flags.suffixesVerbStep1Success
  {
    forall rule: Rule, q: Run | q.flags.suffixesVerbStep1Success
      ensures Step(rule, q).flags.suffixesVerbStep1Success
    {
      StepKeepsLeak(rule, q);
    }
  }

  lemma SuffixPhaseKeepsLeak(r: Run)
    requires r.flags.suffixesVerbStep1Success
    ensures SuffixPhase(r).flags.suffixesVerbStep1Success
  {
    forall rule: Rule, q: Run | q.flags.suffixesVerbStep1Success
      ensures Step(rule, q).flags.suffixesVerbStep1Success
    {
      StepKeepsLeak(rule, q);
    }
  }

  lemma PrefixPhaseKeepsLeak(r: Run)
    requires r.flags.suffixesVerbStep1Success
    ensures PrefixPhase(r).flags.suffixesVerbStep1Success
  {
    forall rule: Rule, q: Run | q.flags.suffixesVerbStep1Success
      ensures Step(rule, q).flags.suffixesVerbStep1Success
    {
      StepKeepsLeak(rule, q);
    }
  }

  /** Once set, `suffixesVerbStep1Success` stays set: no step clears it. */
  lemma LeakedFlagSticks(f: Flags, word: seq<char>)
    requires f.suffixesVerbStep1Success
    ensures Stemmed(f, word).flags.suffixesVerbStep1Success
  {
    ClassifiedShape(f, word);
    var r0 := Run(Classified(f, word), NormalizePre(word));
    SuffixPhaseKeepsLeak(r0);
    PrefixPhaseKeepsLeak(SuffixPhase(r0));
  }

  /** Over a run of calls on one stemmer, the leaked flag is never cleared either. */
  lemma {:induction false} LeakedFlagSticksAcrossCalls(f: Flags, words: seq<seq<char>>)
    requires f.suffixesVerbStep1Success
    ensures StemmedAll(f, words).0.suffixesVerbStep1Success
    decreases |words|
  {
    if |words| > 0 {
      LeakedFlagSticks(f, words[0]);
      LeakedFlagSticksAcrossCalls(Stemmed(f, words[0]).flags, words[1..]);
    }
  }

  /**
   * What verb Step2a and, failing it, Step2c do together: drop a final
   * ت, ا, ن or ي from a token longer than 3, else a final و from a token of
   * at least 4.
   */
  function VerbTail(t: seq<char>): seq<char>
  {
    if |t| > 3 && t[|t| - 1] in [Teh, Alef, Noon, Yeh] then DropLast(t, 1)
    else if |t| >= 4 && t[|t| - 1] == Waw then DropLast(t, 1)
    else t
  }

  /**
   * With the leaked flag set, the verb block always takes the Step2a/Step2c
   * branch, whether or not Step1 fired in this call: Step2b is never tried.
   */
  lemma LeakForcesStep2aBranch(r: Run)
    requires r.flags.suffixesVerbStep1Success && !r.flags.suffixVerbStep2aSuccess
    ensures VerbSuffixes(r).token == VerbTail(Apply(SuffixVerbStep1, r.token).token)
  {
    var r1 := Step(SuffixVerbStep1, r);
    StepKeepsLeak(SuffixVerbStep1, r);
    assert !r1.flags.suffixVerbStep2aSuccess;
    SuffixVerbStep2aDropsLastLetter(r1.token);
    var r2 := Step(SuffixVerbStep2a, r1);
    assert r2.flags.suffixVerbStep2aSuccess <==> r2.token != r1.token;
    SuffixVerbStep2cDropsWaw(r1.token);
  }

  /**
   * How the flag leaks: stemming a word classified as a verb whose
   * Step1 fires (a final ه or ك, or a longer pronoun suffix) leaves
   * `suffixesVerbStep1Success` set for every later call.
   */
  lemma Step1FiringLeaks(f: Flags, word: seq<char>)
    requires Classified(f, word).isVerb
    requires Apply(SuffixVerbStep1, NormalizePre(word)).marks
    ensures Stemmed(f, word).flags.suffixesVerbStep1Success
  {
    var r0 := Run(Classified(f, word), NormalizePre(word));
    VerbSuffixesLeak(r0);
    var r1 := VerbSuffixes(r0);
    NounSuffixesKeepLeak(r1);
    var r2 := if r1.flags.isNoun then NounSuffixes(r1) else r1;
    StepKeepsLeak(SuffixAllAlefMaqsura, r2);
    assert SuffixPhase(r0).flags.suffixesVerbStep1Success;
    PrefixPhaseKeepsLeak(SuffixPhase(r0));
  }
}
