/**
 * What the stemmer's table scans amount to: the length discipline every
 * affix step obeys, and closed forms for the steps whose tables are
 * shadowed by their own earlier entries or are iterated character by
 * character.
 */
module AffixLaws {
  import opened Strings
  import opened ArabicAffixes

  predicate IsSuffixStep(rule: Rule)
  {
    rule in {SuffixVerbStep1, SuffixVerbStep2a, SuffixVerbStep2b, SuffixVerbStep2c,
             SuffixNounStep2c2, SuffixNounStep1a, SuffixNounStep2a, SuffixNounStep2b,
             SuffixNounStep2c1, SuffixNounStep1b, SuffixNounStep3}
  }

  predicate IsPrefixStep(rule: Rule)
  {
    rule in {PrefixStep1, PrefixStep2a, PrefixStep2b, PrefixStep3aNoun, PrefixStep3bNoun, PrefixStep3Verb}
  }

  /** `r` is `t` with one to three characters cut from its end; `t` had at least 3 and `r` keeps at least 2. */
  predicate CutsBack(t: seq<char>, r: seq<char>)
  {
    |t| >= 3 && |r| >= 2 && |t| - 3 <= |r| < |t| && r == t[..|r|]
  }

  /** `r` is `t` with one to three characters cut from its start; `t` had at least 3 and `r` keeps at least 2. */
  predicate CutsFront(t: seq<char>, r: seq<char>)
  {
    |t| >= 3 && |r| >= 2 && |t| - 3 <= |r| < |t| && r == t[|t| - |r|..]
  }

  /** A step that fires produces the action of one of its entries; one that does not leaves the token alone. */
  lemma ApplyCases(rule: Rule, t: seq<char>)
    ensures || (Apply(rule, t) == Hit(t, false) && forall k :: 0 <= k < |Table(rule)| ==> Fire(rule, t, Table(rule)[k]).None?)
            || exists k :: 0 <= k < |Table(rule)| && Fire(rule, t, Table(rule)[k]) == Some(Apply(rule, t))
  {
    FirstFireIsFirstMatch(rule, t, 0);
  }

  /** A firing suffix-step entry cuts 1 to 3 characters off the end. */
  lemma FireCutsBack(rule: Rule, t: seq<char>, e: seq<char>)
    requires IsSuffixStep(rule) && e in Table(rule) && Fire(rule, t, e).Some?
    ensures CutsBack(t, Fire(rule, t, e).value.token)
  {
    DropLastCutsBack(t, 1);
    DropLastCutsBack(t, 2);
    DropLastCutsBack(t, 3);
    match rule
    case SuffixVerbStep1 =>
    case SuffixVerbStep2a =>
    case SuffixVerbStep2b =>
    case SuffixVerbStep2c =>
    case SuffixNounStep2c2 =>
    case SuffixNounStep1a =>
    case SuffixNounStep2a =>
    case SuffixNounStep2b =>
    case SuffixNounStep2c1 =>
    case SuffixNounStep1b =>
    case SuffixNounStep3 =>
  }

  /** Dropping the last `n` characters, 1 to 3 of them, and keeping at least 2 is a back cut. */
  lemma DropLastCutsBack(t: seq<char>, n: nat)
    ensures 1 <= n <= 3 && |t| >= 3 && |t| - n >= 2 ==> CutsBack(t, DropLast(t, n))
  {
  }

  /** A firing prefix-step entry cuts 1 to 3 characters off the start. */
  lemma FireCutsFront(rule: Rule, t: seq<char>, e: seq<char>)
    requires IsPrefixStep(rule) && e in Table(rule) && Fire(rule, t, e).Some?
    ensures CutsFront(t, Fire(rule, t, e).value.token)
  {
    match rule
    case PrefixStep1 => Step1CutsFront(t, e);
    case PrefixStep2a => Step2aCutsFront(t, e);
    case PrefixStep2b => Step2bCutsFront(t, e);
    case PrefixStep3aNoun => Step3aNounCutsFront(t, e);
    case PrefixStep3bNoun => Step3bNounCutsFront(t, e);
    case PrefixStep3Verb => Step3VerbCutsFront(t, e);
  }

  lemma Step1CutsFront(t: seq<char>, e: seq<char>)
    requires e in Table(PrefixStep1) && Fire(PrefixStep1, t, e).Some?
    ensures CutsFront(t, Fire(PrefixStep1, t, e).value.token)
  {
    assert |e| == 2;
    PrefixReplaceByLast(t, e);
    DropCutsFront(t, 1);
  }

  lemma Step2aCutsFront(t: seq<char>, e: seq<char>)
    requires e in Table(PrefixStep2a) && Fire(PrefixStep2a, t, e).Some?
    ensures CutsFront(t, Fire(PrefixStep2a, t, e).value.token)
  {
    assert |e| == 3;
    DropCutsFront(t, 3);
  }

  lemma Step2bCutsFront(t: seq<char>, e: seq<char>)
    requires e in Table(PrefixStep2b) && Fire(PrefixStep2b, t, e).Some?
    ensures CutsFront(t, Fire(PrefixStep2b, t, e).value.token)
  {
    assert |e| == 1;
    DropCutsFront(t, 1);
  }

  lemma Step3aNounCutsFront(t: seq<char>, e: seq<char>)
    requires e in Table(PrefixStep3aNoun) && Fire(PrefixStep3aNoun, t, e).Some?
    ensures CutsFront(t, Fire(PrefixStep3aNoun, t, e).value.token)
  {
    assert e in Articles2Len || e in Articles3Len;
    DropCutsFront(t, |e|);
  }

  lemma Step3bNounCutsFront(t: seq<char>, e: seq<char>)
    requires e in Table(PrefixStep3bNoun) && Fire(PrefixStep3bNoun, t, e).Some?
    ensures CutsFront(t, Fire(PrefixStep3bNoun, t, e).value.token)
  {
    if e in Prepositions2 {
      PrefixReplaceByLast(t, e);
      DropCutsFront(t, 1);
    } else {
      assert |e| == 1;
      DropCutsFront(t, 1);
    }
  }

  lemma Step3VerbCutsFront(t: seq<char>, e: seq<char>)
    requires e in Table(PrefixStep3Verb) && Fire(PrefixStep3Verb, t, e).Some?
    ensures CutsFront(t, Fire(PrefixStep3Verb, t, e).value.token)
  {
    assert |e| == 2;
    PrefixReplaceByLast(t, e);
    DropCutsFront(t, 1);
  }

  /** Dropping the first `n` characters, 1 to 3 of them, and keeping at least 2 is a front cut. */
  lemma DropCutsFront(t: seq<char>, n: nat)
    ensures 1 <= n <= 3 && |t| >= 3 && |t| - n >= 2 ==> CutsFront(t, t[n..])
  {
  }

  /** Every suffix step leaves its input unchanged or cuts 1 to 3 characters off its end. */
  lemma SuffixStepCuts(rule: Rule, t: seq<char>)
    requires IsSuffixStep(rule)
    ensures var h := Apply(rule, t); (h == Hit(t, false)) || CutsBack(t, h.token)
  {
    ApplyCases(rule, t);
    if Apply(rule, t) != Hit(t, false) {
      var k :| 0 <= k < |Table(rule)| && Fire(rule, t, Table(rule)[k]) == Some(Apply(rule, t));
      FireCutsBack(rule, t, Table(rule)[k]);
    }
  }

  /** Every prefix-stripping step leaves its input unchanged or cuts 1 to 3 characters off its start. */
  lemma PrefixStepCuts(rule: Rule, t: seq<char>)
    requires IsPrefixStep(rule)
    ensures var h := Apply(rule, t); (h == Hit(t, false)) || CutsFront(t, h.token)
  {
    ApplyCases(rule, t);
    if Apply(rule, t) != Hit(t, false) {
      var k :| 0 <= k < |Table(rule)| && Fire(rule, t, Table(rule)[k]) == Some(Apply(rule, t));
      FireCutsFront(rule, t, Table(rule)[k]);
    }
  }

  /** The longest token each affix step leaves alone whatever its letters: every entry test demands a longer one. */
  function QuietLength(rule: Rule): nat
  {
    match rule
    case SuffixVerbStep1 => 3
    case SuffixVerbStep2a => 3
    case SuffixVerbStep2b => 4
    case SuffixVerbStep2c => 3
    case SuffixNounStep2c2 => 2
    case SuffixNounStep1a => 3
    case SuffixNounStep2a => 4
    case SuffixNounStep2b => 4
    case SuffixNounStep2c1 => 3
    case SuffixNounStep1b => 5
    case SuffixNounStep3 => 2
    case PrefixStep1 => 3
    case PrefixStep2a => 5
    case PrefixStep2b => 3
    case PrefixStep3aNoun => 4
    case PrefixStep3bNoun => 3
    case PrefixStep3Verb => 4
    case PrefixStep4Verb => 4
    case _ => 0
  }

  /** An affix step does nothing to a token no longer than its `QuietLength`. */
  lemma ShortTokenQuiet(rule: Rule, t: seq<char>)
    requires IsSuffixStep(rule) || IsPrefixStep(rule) || rule == PrefixStep4Verb
    requires |t| <= QuietLength(rule)
    ensures Apply(rule, t) == Hit(t, false)
  {
    ApplyCases(rule, t);
    forall k | 0 <= k < |Table(rule)| ensures Fire(rule, t, Table(rule)[k]).None? {
      var e := Table(rule)[k];
      match rule
      case SuffixVerbStep1 =>
      case SuffixVerbStep2a =>
      case SuffixVerbStep2b =>
      case SuffixVerbStep2c =>
      case SuffixNounStep2c2 =>
      case SuffixNounStep1a =>
      case SuffixNounStep2a =>
      case SuffixNounStep2b =>
      case SuffixNounStep2c1 =>
      case SuffixNounStep1b =>
      case SuffixNounStep3 =>
      case PrefixStep1 =>
      case PrefixStep2a =>
      case PrefixStep2b =>
      case PrefixStep3aNoun =>
      case PrefixStep3bNoun =>
      case PrefixStep3Verb =>
      case PrefixStep4Verb =>
    }
  }

  /** A suffix step does nothing to a token that ends with none of its entries. */
  lemma SuffixStepMisses(rule: Rule, t: seq<char>)
    requires IsSuffixStep(rule)
    requires forall e :: e in Table(rule) ==> !EndsWith(t, e)
    ensures Apply(rule, t) == Hit(t, false)
  {
    ApplyCases(rule, t);
    assert forall k :: 0 <= k < |Table(rule)| ==> !EndsWith(t, Table(rule)[k]);
  }

  /** In particular, a suffix step does nothing to a token whose last letter ends none of its entries. */
  lemma SuffixStepQuiet(rule: Rule, t: seq<char>)
    requires IsSuffixStep(rule) && |t| > 0
    requires forall e :: e in Table(rule) ==> |e| > 0 && e[|e| - 1] != t[|t| - 1]
    ensures Apply(rule, t) == Hit(t, false)
  {
    forall e | e in Table(rule) ensures !EndsWith(t, e) {
      if EndsWith(t, e) {
        EndsWithLast(t, e);
      }
    }
    SuffixStepMisses(rule, t);
  }

  /** A step none of whose entries fires leaves the token alone and records nothing. */
  lemma NothingFires(rule: Rule, t: seq<char>)
    requires forall k :: 0 <= k < |Table(rule)| ==> Fire(rule, t, Table(rule)[k]).None?
    ensures Apply(rule, t) == Hit(t, false)
  {
    FirstFireIsFirstMatch(rule, t, 0);
  }

  /** If entry `m` fires, the step's outcome is the action of an entry at or before `m`. */
  lemma FiresNoLaterThan(rule: Rule, t: seq<char>, m: nat)
    requires m < |Table(rule)| && Fire(rule, t, Table(rule)[m]).Some?
    ensures exists k :: 0 <= k <= m && Fire(rule, t, Table(rule)[k]) == Some(Apply(rule, t))
  {
    FirstFireIsFirstMatch(rule, t, 0);
  }

  /**
   * Verb Step2a: its one-letter entries come first, and every longer entry
   * ends in one of those letters, so the step just drops a final ت, ا, ن or
   * ي from a token longer than 3.
   */
  lemma SuffixVerbStep2aDropsLastLetter(t: seq<char>)
    ensures Apply(SuffixVerbStep2a, t)
            == if |t| > 3 && t[|t| - 1] in [Teh, Alef, Noon, Yeh] then Hit(DropLast(t, 1), true) else Hit(t, false)
  {
    var table := Table(SuffixVerbStep2a);
    if |t| > 3 && t[|t| - 1] in [Teh, Alef, Noon, Yeh] {
      var last := t[|t| - 1];
      var m := if last == Teh then 0 else if last == Alef then 1 else if last == Noon then 2 else 3;
      assert EndsWith(t, table[m]);
      FiresNoLaterThan(SuffixVerbStep2a, t, m);
    } else {
      forall k | 0 <= k < |table| ensures Fire(SuffixVerbStep2a, t, table[k]).None? {
        if EndsWith(t, table[k]) && |t| > 3 {
          EndsWithLast(t, table[k]);
        }
      }
      NothingFires(SuffixVerbStep2a, t);
    }
  }

  /**
   * Verb Step2c: the entry و comes before تمو, and تمو ends in و with a
   * stricter length guard, so the step just drops a final و from a token of
   * at least 4 characters. It never records success.
   */
  lemma SuffixVerbStep2cDropsWaw(t: seq<char>)
    ensures Apply(SuffixVerbStep2c, t)
            == if |t| >= 4 && t[|t| - 1] == Waw then Hit(DropLast(t, 1), false) else Hit(t, false)
  {
    var table := Table(SuffixVerbStep2c);
    if |t| >= 4 && t[|t| - 1] == Waw {
      assert EndsWith(t, table[0]);
      FiresNoLaterThan(SuffixVerbStep2c, t, 0);
    } else {
      forall k | 0 <= k < |table| ensures Fire(SuffixVerbStep2c, t, table[k]).None? {
        if EndsWith(t, table[k]) {
          EndsWithLast(t, table[k]);
        }
      }
      NothingFires(SuffixVerbStep2c, t);
    }
  }

  /**
   * Noun Step2b iterates over the characters of "ات": it strips two
   * characters from a token of at least 5 that ends in ا or in ت, and
   * records success exactly then.
   */
  lemma SuffixNounStep2bCharwise(t: seq<char>)
    ensures Apply(SuffixNounStep2b, t)
            == if |t| >= 5 && t[|t| - 1] in [Alef, Teh] then Hit(DropLast(t, 2), true) else Hit(t, false)
  {
    var table := Table(SuffixNounStep2b);
    if |t| >= 5 && t[|t| - 1] in [Alef, Teh] {
      var m := if t[|t| - 1] == Alef then 0 else 1;
      assert EndsWith(t, table[m]);
      FiresNoLaterThan(SuffixNounStep2b, t, m);
    } else {
      forall k | 0 <= k < |table| ensures Fire(SuffixNounStep2b, t, table[k]).None? {
        if EndsWith(t, table[k]) {
          EndsWithLast(t, table[k]);
        }
      }
      NothingFires(SuffixNounStep2b, t);
    }
  }

  /**
   * Prefix Step1: its first entry, a lone أ, satisfies none of the entry
   * tests, and each two-letter entry أX is replaced by X. So the step drops a
   * leading أ that is followed by أ, آ, ؤ, ا or إ, in a token longer than 3.
   */
  lemma PrefixStep1DropsAlefHamza(t: seq<char>)
    ensures Fire(PrefixStep1, t, [AlefHamzaAbove]).None?
    ensures Apply(PrefixStep1, t)
            == if |t| > 3 && t[0] == AlefHamzaAbove && t[1] in [AlefHamzaAbove, AlefMadda, WawHamza, Alef, AlefHamzaBelow]
               then Hit(t[1..], false) else Hit(t, false)
  {
    if |t| > 3 && t[0] == AlefHamzaAbove && t[1] in [AlefHamzaAbove, AlefMadda, WawHamza, Alef, AlefHamzaBelow] {
      PrefixStep1DropsDoubled(t);
    } else {
      PrefixStep1QuietOtherwise(t);
    }
  }

  /** Every two-letter entry of Prefix Step1 that fires drops the first letter. */
  lemma PrefixStep1PairFires(t: seq<char>, k: nat)
    requires 1 <= k < |Table(PrefixStep1)| && Fire(PrefixStep1, t, Table(PrefixStep1)[k]).Some?
    ensures Fire(PrefixStep1, t, Table(PrefixStep1)[k]) == Some(Hit(t[1..], false))
  {
    var e := Table(PrefixStep1)[k];
    assert |e| == 2;
    PrefixReplaceByLast(t, e);
  }

  lemma PrefixStep1DropsDoubled(t: seq<char>)
    requires |t| > 3 && t[0] == AlefHamzaAbove && t[1] in [AlefHamzaAbove, AlefMadda, WawHamza, Alef, AlefHamzaBelow]
    ensures Apply(PrefixStep1, t) == Hit(t[1..], false)
  {
    var table := Table(PrefixStep1);
    var second := t[1];
    var m := if second == AlefHamzaAbove then 1 else if second == AlefMadda then 2
             else if second == WawHamza then 3 else if second == Alef then 4 else 5;
    assert t[..2] == table[m];
    assert StartsWith(t, table[m]);
    FiresNoLaterThan(PrefixStep1, t, m);
    var k :| 0 <= k <= m && Fire(PrefixStep1, t, table[k]) == Some(Apply(PrefixStep1, t));
    assert k != 0;
    PrefixStep1PairFires(t, k);
  }

  lemma PrefixStep1QuietOtherwise(t: seq<char>)
    requires !(|t| > 3 && t[0] == AlefHamzaAbove && t[1] in [AlefHamzaAbove, AlefMadda, WawHamza, Alef, AlefHamzaBelow])
    ensures Apply(PrefixStep1, t) == Hit(t, false)
  {
    var table := Table(PrefixStep1);
    forall k | 0 <= k < |table| ensures Fire(PrefixStep1, t, table[k]).None? {
      if StartsWith(t, table[k]) && |t| > 3 && k > 0 {
        StartsWithFirst(t, table[k], 0);
        StartsWithFirst(t, table[k], 1);
      }
    }
    NothingFires(PrefixStep1, t);
  }

  /** Prefix Step2b drops a leading ف or و from a token longer than 3 unless it begins with وا or فا. */
  lemma PrefixStep2bDropsConjunction(t: seq<char>)
    ensures Apply(PrefixStep2b, t)
            == if |t| > 3 && t[0] in [Feh, Waw] && t[..2] !in Prefixes1 then Hit(t[1..], false) else Hit(t, false)
  {
    var table := Table(PrefixStep2b);
    if |t| > 3 && t[0] in [Feh, Waw] && t[..2] !in Prefixes1 {
      var m := if t[0] == Feh then 0 else 1;
      assert StartsWith(t, table[m]);
      FiresNoLaterThan(PrefixStep2b, t, m);
    } else {
      forall k | 0 <= k < |table| ensures Fire(PrefixStep2b, t, table[k]).None? {
        if StartsWith(t, table[k]) {
          StartsWithFirst(t, table[k], 0);
        }
      }
      NothingFires(PrefixStep2b, t);
    }
  }

  /** Every entry of Prefix Step3b (nouns) that fires drops the first character and records success. */
  lemma PrefixStep3bNounEntry(t: seq<char>, k: nat)
    requires k < |Table(PrefixStep3bNoun)|
    ensures Fire(PrefixStep3bNoun, t, Table(PrefixStep3bNoun)[k]).Some?
            ==> Fire(PrefixStep3bNoun, t, Table(PrefixStep3bNoun)[k]) == Some(Hit(t[1..], true))
  {
    var e := Table(PrefixStep3bNoun)[k];
    if StartsWith(t, e) && |t| > 3 && e in Prepositions2 {
      PrefixReplaceByLast(t, e);
    }
  }

  /** Prefix Step3b (nouns) fires on nothing but a leading ب (length over 3), ك or ل (over 4), or كك (exactly 4). */
  lemma PrefixStep3bNounQuiet(t: seq<char>)
    requires !(|t| > 3 && t[0] == Beh) && !(|t| > 4 && t[0] in [Kaf, Lam]) && !(|t| == 4 && t[0] == Kaf && t[1] == Kaf)
    ensures forall k :: 0 <= k < |Table(PrefixStep3bNoun)| ==> Fire(PrefixStep3bNoun, t, Table(PrefixStep3bNoun)[k]).None?
  {
    var table := Table(PrefixStep3bNoun);
    forall k | 0 <= k < |table| ensures Fire(PrefixStep3bNoun, t, table[k]).None? {
      if StartsWith(t, table[k]) {
        StartsWithFirst(t, table[k], 0);
        if |table[k]| == 2 {
          StartsWithFirst(t, table[k], 1);
        }
      }
    }
  }

  /**
   * Prefix Step3b (nouns): بب is shadowed by ب, and كك is shadowed by ك
   * except in a token of exactly 4 characters; every branch drops the first
   * character and records success.
   */
  lemma PrefixStep3bNounDropsPreposition(t: seq<char>)
    ensures Apply(PrefixStep3bNoun, t)
            == if || (|t| > 3 && t[0] == Beh)
                  || (|t| > 4 && t[0] in [Kaf, Lam])
                  || (|t| == 4 && t[0] == Kaf && t[1] == Kaf)
               then Hit(t[1..], true) else Hit(t, false)
  {
    var table := Table(PrefixStep3bNoun);
    if || (|t| > 3 && t[0] == Beh) || (|t| > 4 && t[0] in [Kaf, Lam]) || (|t| == 4 && t[0] == Kaf && t[1] == Kaf) {
      var m := if t[0] == Beh then 0 else if |t| > 4 && t[0] == Kaf then 1 else if t[0] == Lam then 2 else 4;
      if m == 4 {
        assert t[..2] == table[4];
      }
      assert StartsWith(t, table[m]);
      FiresNoLaterThan(PrefixStep3bNoun, t, m);
      var k :| 0 <= k <= m && Fire(PrefixStep3bNoun, t, table[k]) == Some(Apply(PrefixStep3bNoun, t));
      PrefixStep3bNounEntry(t, k);
    } else {
      PrefixStep3bNounQuiet(t);
      NothingFires(PrefixStep3bNoun, t);
    }
  }

  /** Every entry of Prefix Step3 (verbs) that fires drops the س. */
  lemma PrefixStep3VerbEntry(t: seq<char>, k: nat)
    requires k < |Table(PrefixStep3Verb)|
    ensures Fire(PrefixStep3Verb, t, Table(PrefixStep3Verb)[k]).Some?
            ==> Fire(PrefixStep3Verb, t, Table(PrefixStep3Verb)[k]) == Some(Hit(t[1..], false))
  {
    var e := Table(PrefixStep3Verb)[k];
    if StartsWith(t, e) {
      PrefixReplaceByLast(t, e);
    }
  }

  /** Prefix Step3 (verbs) fires on nothing but سي, ست, سن or سأ leading a token longer than 4. */
  lemma PrefixStep3VerbQuiet(t: seq<char>)
    requires !(|t| > 4 && t[0] == Seen && t[1] in [Yeh, Teh, Noon, AlefHamzaAbove])
    ensures forall k :: 0 <= k < |Table(PrefixStep3Verb)| ==> Fire(PrefixStep3Verb, t, Table(PrefixStep3Verb)[k]).None?
  {
    var table := Table(PrefixStep3Verb);
    forall k | 0 <= k < |table| ensures Fire(PrefixStep3Verb, t, table[k]).None? {
      StartsWithAt(t, table[k], 0);
      StartsWithAt(t, table[k], 1);
    }
  }

  /** Prefix Step3 (verbs) drops the س of سي, ست, سن or سأ from a token longer than 4. */
  lemma PrefixStep3VerbDropsSeen(t: seq<char>)
    ensures Apply(PrefixStep3Verb, t)
            == if |t| > 4 && t[0] == Seen && t[1] in [Yeh, Teh, Noon, AlefHamzaAbove] then Hit(t[1..], false) else Hit(t, false)
  {
    var table := Table(PrefixStep3Verb);
    if |t| > 4 && t[0] == Seen && t[1] in [Yeh, Teh, Noon, AlefHamzaAbove] {
      var m := if t[1] == Yeh then 0 else if t[1] == Teh then 1 else if t[1] == Noon then 2 else 3;
      assert t[..2] == table[m];
      assert StartsWith(t, table[m]);
      FiresNoLaterThan(PrefixStep3Verb, t, m);
      var k :| 0 <= k <= m && Fire(PrefixStep3Verb, t, table[k]) == Some(Apply(PrefixStep3Verb, t));
      PrefixStep3VerbEntry(t, k);
    } else {
      PrefixStep3VerbQuiet(t);
      ApplyCases(PrefixStep3Verb, t);
    }
  }

  /** Prefix Step4 (verbs) rewrites a leading يست, نست or تست as است: the length is kept and success recorded. */
  lemma PrefixStep4VerbRewritesIst(t: seq<char>)
    ensures Apply(PrefixStep4Verb, t)
            == if |t| > 4 && t[..3] in Table(PrefixStep4Verb) then Hit([Alef, Seen, Teh] + t[3..], true) else Hit(t, false)
    ensures |Apply(PrefixStep4Verb, t).token| == |t|
  {
    var table := Table(PrefixStep4Verb);
    if |t| > 4 && t[..3] in table {
      var m :| 0 <= m < |table| && table[m] == t[..3];
      assert StartsWith(t, table[m]);
      FiresNoLaterThan(PrefixStep4Verb, t, m);
    } else {
      forall k | 0 <= k < |table| ensures Fire(PrefixStep4Verb, t, table[k]).None? {
        if StartsWith(t, table[k]) {
          assert t[..3] == table[k];
        }
      }
      NothingFires(PrefixStep4Verb, t);
    }
  }

  /** Checks1 leaves the token alone and fires exactly on a definite article with enough letters after it. */
  lemma Checks1Fires(t: seq<char>)
    ensures Apply(Checks1, t).token == t
    ensures Apply(Checks1, t).marks
            <==> || (|t| > 4 && (StartsWith(t, [Kaf, Alef, Lam]) || StartsWith(t, [Beh, Alef, Lam])))
                 || (|t| > 3 && (StartsWith(t, [Alef, Lam]) || StartsWith(t, [Lam, Lam])))
  {
    var table := Table(Checks1);
    ApplyCases(Checks1, t);
    if |t| > 4 && StartsWith(t, [Kaf, Alef, Lam]) {
      FiresNoLaterThan(Checks1, t, 0);
    } else if |t| > 4 && StartsWith(t, [Beh, Alef, Lam]) {
      FiresNoLaterThan(Checks1, t, 1);
    } else if |t| > 3 && StartsWith(t, [Alef, Lam]) {
      FiresNoLaterThan(Checks1, t, 2);
    } else if |t| > 3 && StartsWith(t, [Lam, Lam]) {
      FiresNoLaterThan(Checks1, t, 3);
    }
  }

  /** Checks2 leaves the token alone and fires exactly on a final ة (length over 2) or ات (length over 3). */
  lemma Checks2Fires(t: seq<char>)
    ensures Apply(Checks2, t).token == t
    ensures Apply(Checks2, t).marks
            <==> (|t| > 2 && EndsWith(t, [TehMarbuta])) || (|t| > 3 && EndsWith(t, [Alef, Teh]))
  {
    ApplyCases(Checks2, t);
    if |t| > 2 && EndsWith(t, [TehMarbuta]) {
      FiresNoLaterThan(Checks2, t, 0);
    } else if |t| > 3 && EndsWith(t, [Alef, Teh]) {
      FiresNoLaterThan(Checks2, t, 1);
    }
  }

  /** The final-hamza loop of `__normalize_post` turns a final أ, إ, آ, ؤ or ئ into ء. */
  lemma LastHamzaBecomesHamza(t: seq<char>)
    ensures Apply(LastHamza, t)
            == if |t| > 0 && t[|t| - 1] in LastHamzat then Hit(t[..|t| - 1] + [Hamza], false) else Hit(t, false)
  {
    if |t| > 0 && t[|t| - 1] in LastHamzat {
      LastHamzaFires(t);
    } else {
      LastHamzaQuiet(t);
    }
  }

  lemma LastHamzaFires(t: seq<char>)
    requires |t| > 0 && t[|t| - 1] in LastHamzat
    ensures Apply(LastHamza, t) == Hit(t[..|t| - 1] + [Hamza], false)
  {
    var table := Table(LastHamza);
    var last := t[|t| - 1];
    var m := if last == AlefHamzaAbove then 0 else if last == AlefHamzaBelow then 1
             else if last == AlefMadda then 2 else if last == WawHamza then 3 else 4;
    assert EndsWith(t, table[m]);
    FiresNoLaterThan(LastHamza, t, m);
    var k :| 0 <= k <= m && Fire(LastHamza, t, table[k]) == Some(Apply(LastHamza, t));
    LastHamzaEntryFires(t, k);
  }

  /** Each entry of the final-hamza table is one letter, so a firing entry replaces the last letter. */
  lemma LastHamzaEntryFires(t: seq<char>, k: nat)
    requires k < |Table(LastHamza)| && Fire(LastHamza, t, Table(LastHamza)[k]).Some?
    ensures |t| > 0 && Fire(LastHamza, t, Table(LastHamza)[k]) == Some(Hit(t[..|t| - 1] + [Hamza], false))
  {
    var e := Table(LastHamza)[k];
    assert |e| == 1;
  }

  lemma LastHamzaQuiet(t: seq<char>)
    requires !(|t| > 0 && t[|t| - 1] in LastHamzat)
    ensures Apply(LastHamza, t) == Hit(t, false)
  {
    var table := Table(LastHamza);
    forall k | 0 <= k < |table| ensures Fire(LastHamza, t, table[k]).None? {
      EndsWithAt(t, table[k], 0);
    }
    NothingFires(LastHamza, t);
  }

  /** The alef-maqsura step turns a final ى into ي. */
  lemma AlefMaqsuraBecomesYeh(t: seq<char>)
    ensures Apply(SuffixAllAlefMaqsura, t)
            == if |t| > 0 && t[|t| - 1] == AlefMaqsura then Hit(t[..|t| - 1] + [Yeh], false) else Hit(t, false)
  {
    var table := Table(SuffixAllAlefMaqsura);
    if |t| > 0 && t[|t| - 1] == AlefMaqsura {
      assert EndsWith(t, table[0]);
      FiresNoLaterThan(SuffixAllAlefMaqsura, t, 0);
    } else {
      forall k | 0 <= k < |table| ensures Fire(SuffixAllAlefMaqsura, t, table[k]).None? {
        EndsWithAt(t, table[k], 0);
      }
      NothingFires(SuffixAllAlefMaqsura, t);
    }
  }

  /**
   * No step lengthens the token; the checks, the two hamza/alef rewrites
   * and Prefix Step4 (verbs) keep its length.
   */
  lemma ApplyNoLonger(rule: Rule, t: seq<char>)
    ensures |Apply(rule, t).token| <= |t|
    ensures rule in {Checks1, Checks2, LastHamza, SuffixAllAlefMaqsura, PrefixStep4Verb} ==> |Apply(rule, t).token| == |t|
  {
    if IsSuffixStep(rule) {
      SuffixStepCuts(rule, t);
    } else if IsPrefixStep(rule) {
      PrefixStepCuts(rule, t);
    } else {
      match rule
      case Checks1 => Checks1Fires(t);
      case Checks2 => Checks2Fires(t);
      case LastHamza => LastHamzaBecomesHamza(t);
      case SuffixAllAlefMaqsura => AlefMaqsuraBecomesYeh(t);
      case PrefixStep4Verb => PrefixStep4VerbRewritesIst(t);
    }
  }
}
