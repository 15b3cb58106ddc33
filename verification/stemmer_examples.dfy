/**
 * A worked case of the state that `stem` carries between calls: a fresh
 * stemmer reduces كتبوا ("they wrote") to كتب, but after stemming كتبه
 * ("he wrote it") the same stemmer reduces كتبوا to كتبو.
 *
 * Each lemma takes its word as a parameter equal to the literal, so that
 * the solver works from the facts stated here instead of unfolding the
 * whole cascade on the literal.
 */
module StemmerExamples {
  import opened Strings
  import opened ArabicAffixes
  import opened AffixLaws
  import opened ArabicNormalize
  import opened ArabicStemming
  import opened StemmerLaws

  /** كتبوا carries no article, no feminine ending and no marks. */
  lemma KatabuChecks(w: seq<char>)
    requires w == "كتبوا"
    ensures Apply(Checks1, w) == Hit(w, false) && Apply(Checks2, w) == Hit(w, false)
  {
    assert w[0] == Kaf && w[1] == Teh && w[3] == Waw && w[4] == Alef;
    StartsWithAt(w, [Kaf, Alef, Lam], 1);
    Checks1Fires(w);
    Checks2Fires(w);
  }

  lemma KatabuClean()
    ensures NormalizePre("كتبوا") == "كتبوا"
  {
    NormalizePreKeepsClean("كتبوا");
  }

  /** Verb Step1 finds no pronoun suffix on كتبوا: its entries ending in ا are نا, ها, هما and كما. */
  lemma KatabuStep1(w: seq<char>)
    requires w == "كتبوا"
    ensures Apply(SuffixVerbStep1, w) == Hit(w, false)
  {
    assert w[3] == Waw && w[4] == Alef;
    forall e | e in Table(SuffixVerbStep1) ensures !EndsWith(w, e) {
      if |e| > 1 {
        EndsWithAt(w, e, |e| - 2);
      }
      if |e| > 0 {
        EndsWithAt(w, e, |e| - 1);
      }
    }
    SuffixStepMisses(SuffixVerbStep1, w);
  }

  /** Step2b would strip وا; Step2a would strip only the ا. */
  lemma KatabuStep2(w: seq<char>)
    requires w == "كتبوا"
    ensures Apply(SuffixVerbStep2b, w) == Hit(w[..3], true)
    ensures Apply(SuffixVerbStep2a, w) == Hit(w[..4], true)
  {
    assert w[3] == Waw && w[4] == Alef;
    SuffixVerbStep2aDropsLastLetter(w);
    assert EndsWith(w, [Waw, Alef]);
    FiresNoLaterThan(SuffixVerbStep2b, w, 0);
  }

  /** Without the leaked flag the verb block takes Step2b. */
  lemma FreshKatabuVerb(f: Flags, w: seq<char>)
    requires w == "كتبوا" && !f.suffixesVerbStep1Success
    ensures VerbSuffixes(Run(f, w)) == Run(f.(suffixVerbStep2bSuccess := true), w[..3])
  {
    KatabuStep1(w);
    KatabuStep2(w);
    var r1 := Step(SuffixVerbStep1, Run(f, w));
    assert r1 == Run(f, w);
    var r2 := Step(SuffixVerbStep2b, r1);
    assert r2 == Run(f.(suffixVerbStep2bSuccess := true), w[..3]);
  }

  /** With the leaked flag the verb block takes Step2a. */
  lemma LeakedKatabuVerb(f: Flags, w: seq<char>)
    requires w == "كتبوا" && f.suffixesVerbStep1Success && !f.suffixVerbStep2aSuccess
    ensures VerbSuffixes(Run(f, w)) == Run(f.(suffixVerbStep2aSuccess := true), w[..4])
  {
    KatabuStep1(w);
    KatabuStep2(w);
  }

  /** Every noun and prefix step leaves كتب alone, and so does `__normalize_post`. */
  lemma KatabQuiet(t: seq<char>)
    requires t == "كتب"
    ensures forall rule :: rule in {SuffixNounStep2c2, SuffixNounStep1a, SuffixNounStep2a, SuffixNounStep2b,
                                    SuffixNounStep2c1, SuffixNounStep1b, SuffixNounStep3, PrefixStep1, PrefixStep2a,
                                    PrefixStep2b, PrefixStep3aNoun, PrefixStep3bNoun, PrefixStep3Verb, PrefixStep4Verb}
                          ==> Apply(rule, t) == Hit(t, false)
    ensures PostNormalized(t) == t
  {
    assert t[0] == Kaf && t[1] == Teh && t[2] == Beh;
    forall rule | rule in {SuffixNounStep2c2, SuffixNounStep1a, SuffixNounStep2a, SuffixNounStep2b,
                           SuffixNounStep2c1, SuffixNounStep1b, SuffixNounStep3, PrefixStep1, PrefixStep2a,
                           PrefixStep2b, PrefixStep3aNoun, PrefixStep3bNoun, PrefixStep3Verb, PrefixStep4Verb}
      ensures Apply(rule, t) == Hit(t, false)
    {
      if rule in {SuffixNounStep2c2, SuffixNounStep3} {
        SuffixStepQuiet(rule, t);
      } else {
        ShortTokenQuiet(rule, t);
      }
    }
    PostNormalizedKeepsPlain(t);
  }

  /** Every noun and prefix step leaves كتبو alone, and so does `__normalize_post`. */
  lemma KatabuwQuiet(t: seq<char>)
    requires t == "كتبو"
    ensures forall rule :: rule in {SuffixNounStep2c2, SuffixNounStep1a, SuffixNounStep2a, SuffixNounStep2b,
                                    SuffixNounStep2c1, SuffixNounStep1b, SuffixNounStep3, PrefixStep1, PrefixStep2a,
                                    PrefixStep2b, PrefixStep3aNoun, PrefixStep3bNoun, PrefixStep3Verb, PrefixStep4Verb}
                          ==> Apply(rule, t) == Hit(t, false)
    ensures PostNormalized(t) == t
  {
    assert t[0] == Kaf && t[1] == Teh && t[2] == Beh && t[3] == Waw;
    KatabuwNounSuffixesQuiet(t);
    KatabuwPrefixesQuiet(t);
    PostNormalizedKeepsPlain(t);
  }

  lemma KatabuwNounSuffixesQuiet(t: seq<char>)
    requires |t| == 4 && t[0] == Kaf && t[1] == Teh && t[2] == Beh && t[3] == Waw
    ensures forall rule :: rule in {SuffixNounStep2c2, SuffixNounStep1a, SuffixNounStep2a, SuffixNounStep2b,
                                    SuffixNounStep2c1, SuffixNounStep1b, SuffixNounStep3}
                          ==> Apply(rule, t) == Hit(t, false)
  {
    forall rule | rule in {SuffixNounStep2c2, SuffixNounStep1a, SuffixNounStep2a, SuffixNounStep2b,
                           SuffixNounStep2c1, SuffixNounStep1b, SuffixNounStep3}
      ensures Apply(rule, t) == Hit(t, false)
    {
      if rule in {SuffixNounStep2c2, SuffixNounStep1a, SuffixNounStep2c1, SuffixNounStep3} {
        SuffixStepQuiet(rule, t);
      } else {
        ShortTokenQuiet(rule, t);
      }
    }
  }

  lemma KatabuwPrefixesQuiet(t: seq<char>)
    requires |t| == 4 && t[0] == Kaf && t[1] == Teh && t[2] == Beh && t[3] == Waw
    ensures forall rule :: rule in {PrefixStep1, PrefixStep2a, PrefixStep2b, PrefixStep3aNoun, PrefixStep3bNoun,
                                    PrefixStep3Verb, PrefixStep4Verb}
                          ==> Apply(rule, t) == Hit(t, false)
  {
    forall rule | rule in {PrefixStep1, PrefixStep2a, PrefixStep2b, PrefixStep3aNoun, PrefixStep3bNoun,
                           PrefixStep3Verb, PrefixStep4Verb}
      ensures Apply(rule, t) == Hit(t, false)
    {
      if rule == PrefixStep1 {
        PrefixStep1DropsAlefHamza(t);
      } else if rule == PrefixStep2b {
        PrefixStep2bDropsConjunction(t);
      } else if rule == PrefixStep3bNoun {
        PrefixStep3bNounDropsPreposition(t);
      } else {
        ShortTokenQuiet(rule, t);
      }
    }
  }

  lemma KatabRest(f: Flags, t: seq<char>)
    requires t == "كتب"
    ensures NounSuffixes(Run(f, t)) == Run(f, t)
    ensures PrefixPhase(Run(f, t)) == Run(f, t)
  {
    KatabQuiet(t);
  }

  lemma KatabuwRest(f: Flags, t: seq<char>)
    requires t == "كتبو"
    ensures NounSuffixes(Run(f, t)) == Run(f, t)
    ensures PrefixPhase(Run(f, t)) == Run(f, t)
  {
    KatabuwQuiet(t);
  }

  /**
   * A clean word the checks leave alone is stemmed as a verb: when the verb
   * block yields `r` and nothing later changes it, `stem` returns `r`.
   */
  lemma StemmedAsVerb(f: Flags, w: seq<char>, r: Run)
    requires Apply(Checks1, w) == Hit(w, false) && Apply(Checks2, w) == Hit(w, false)
    requires NormalizePre(w) == w
    requires VerbSuffixes(Run(Reset(f), w)) == r && r.flags.isNoun
    requires NounSuffixes(r) == r && PrefixPhase(r) == r && PostNormalized(r.token) == r.token
    ensures Stemmed(f, w) == r
  {
    assert Classified(f, w) == Reset(f);
    assert SuffixPhase(Run(Reset(f), w)) == r;
  }

  /** After the verb block has cut كتبوا to كتب, nothing else changes the run. */
  lemma KatabFinishes(g: Flags, w: seq<char>)
    requires w == "كتبوا"
    ensures var r := Run(g, w[..3]);
            && r.token == "كتب"
            && NounSuffixes(r) == r && PrefixPhase(r) == r && PostNormalized(r.token) == r.token
  {
    var t := w[..3];
    assert t == "كتب";
    KatabRest(g, t);
    KatabQuiet(t);
  }

  /** After the verb block has cut كتبوا to كتبو, nothing else changes the run. */
  lemma KatabuwFinishes(g: Flags, w: seq<char>)
    requires w == "كتبوا"
    ensures var r := Run(g, w[..4]);
            && r.token == "كتبو"
            && NounSuffixes(r) == r && PrefixPhase(r) == r && PostNormalized(r.token) == r.token
  {
    var t := w[..4];
    assert t == "كتبو";
    KatabuwRest(g, t);
    KatabuwQuiet(t);
  }

  /** Without the leaked flag, كتبوا stems to كتب. */
  lemma StemKatabuFresh(f: Flags, w: seq<char>)
    requires w == "كتبوا" && !f.suffixesVerbStep1Success
    ensures Stemmed(f, w).token == "كتب"
  {
    KatabuChecks(w);
    KatabuClean();
    var g := Reset(f).(suffixVerbStep2bSuccess := true);
    FreshKatabuVerb(Reset(f), w);
    KatabFinishes(g, w);
    StemmedAsVerb(f, w, Run(g, w[..3]));
  }

  /** With the leaked flag, كتبوا stems to كتبو. */
  lemma StemKatabuLeaked(f: Flags, w: seq<char>)
    requires w == "كتبوا" && f.suffixesVerbStep1Success
    ensures Stemmed(f, w).token == "كتبو"
  {
    KatabuChecks(w);
    KatabuClean();
    var g := Reset(f).(suffixVerbStep2aSuccess := true);
    LeakedKatabuVerb(Reset(f), w);
    KatabuwFinishes(g, w);
    StemmedAsVerb(f, w, Run(g, w[..4]));
  }

  /** كتبه is a verb whose Step1 fires on the final ه. */
  lemma KatabahSteps(w: seq<char>)
    requires w == "كتبه"
    ensures Apply(Checks1, w) == Hit(w, false) && Apply(Checks2, w) == Hit(w, false)
    ensures Apply(SuffixVerbStep1, w).marks
  {
    assert w[0] == Kaf && w[1] == Teh && w[3] == Heh;
    StartsWithAt(w, [Kaf, Alef, Lam], 1);
    Checks1Fires(w);
    Checks2Fires(w);
    assert EndsWith(w, [Heh]);
    FiresNoLaterThan(SuffixVerbStep1, w, 0);
  }

  lemma KatabahClean()
    ensures NormalizePre("كتبه") == "كتبه"
  {
    NormalizePreKeepsClean("كتبه");
  }

  /** Stemming كتبه leaves the flag set, whatever the stemmer held before. */
  lemma StemKatabahLeaks(f: Flags, w: seq<char>)
    requires w == "كتبه"
    ensures Stemmed(f, w).flags.suffixesVerbStep1Success
  {
    KatabahSteps(w);
    KatabahClean();
    assert Classified(f, w) == Reset(f);
    Step1FiringLeaks(f, w);
  }

  lemma FreshListKatabu(b: seq<char>)
    requires b == "كتبوا"
    ensures StemmedAll(InitialFlags, [b]).1 == ["كتب"]
  {
    StemKatabuFresh(InitialFlags, b);
    assert [b][1..] == [];
  }

  /** A two-word list: the second word is stemmed from the fields the first left. */
  lemma StemmedPair(f: Flags, a: seq<char>, b: seq<char>)
    ensures StemmedAll(f, [a, b]).1[1] == Stemmed(Stemmed(f, a).flags, b).token
  {
    assert [a, b][1..] == [b];
    assert [b][1..] == [];
  }

  lemma ListKatabahKatabu(a: seq<char>, b: seq<char>)
    requires a == "كتبه" && b == "كتبوا"
    ensures StemmedAll(InitialFlags, [a, b]).1[1] == "كتبو"
  {
    StemKatabahLeaks(InitialFlags, a);
    StemKatabuLeaked(Stemmed(InitialFlags, a).flags, b);
    StemmedPair(InitialFlags, a, b);
  }

  /**
   * On a fresh stemmer, stemming the list [كتبوا] gives [كتب], but stemming
   * [كتبه, كتبوا] gives كتبو for the second word.
   */
  lemma HistoryChangesStem(a: seq<char>, b: seq<char>)
    requires a == "كتبه" && b == "كتبوا"
    ensures StemmedAll(InitialFlags, [b]).1 == ["كتب"]
    ensures StemmedAll(InitialFlags, [a, b]).1[1] == "كتبو"
  {
    FreshListKatabu(b);
    ListKatabahKatabu(a, b);
  }
}
