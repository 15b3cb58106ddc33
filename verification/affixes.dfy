/**
 * The affix tables of `ArabicStemmer` and the per-entry action of every
 * step that scans one of them.
 *
 * Each step of the stemmer is a `for` loop over an ordered table that stops
 * at the first entry whose test succeeds. Here a step is a `Rule`; `Table`
 * gives its entries in source order, `Fire` says what one entry does to a
 * token (nothing, or a new token and whether the step records success), and
 * `FirstFire` is the first-match-wins scan. `Scan` is the loop itself.
 */
module ArabicAffixes {
  import opened Strings

  // Letters, named as in the Unicode character names.
  const Hamza: char := '\U{0621}'            // ء
  const AlefMadda: char := '\U{0622}'        // آ
  const AlefHamzaAbove: char := '\U{0623}'   // أ
  const WawHamza: char := '\U{0624}'         // ؤ
  const AlefHamzaBelow: char := '\U{0625}'   // إ
  const YehHamza: char := '\U{0626}'         // ئ
  const Alef: char := '\U{0627}'             // ا
  const Beh: char := '\U{0628}'              // ب
  const TehMarbuta: char := '\U{0629}'       // ة
  const Teh: char := '\U{062A}'              // ت
  const Seen: char := '\U{0633}'             // س
  const Feh: char := '\U{0641}'              // ف
  const Kaf: char := '\U{0643}'              // ك
  const Lam: char := '\U{0644}'              // ل
  const Meem: char := '\U{0645}'             // م
  const Noon: char := '\U{0646}'             // ن
  const Heh: char := '\U{0647}'              // ه
  const Waw: char := '\U{0648}'              // و
  const AlefMaqsura: char := '\U{0649}'      // ى
  const Yeh: char := '\U{064A}'              // ي

  // Auxiliary tables that the step actions test membership in.
  const Articles3Len: seq<seq<char>> := [[Kaf, Alef, Lam], [Beh, Alef, Lam]]
  const Articles2Len: seq<seq<char>> := [[Alef, Lam], [Lam, Lam]]
  const ConjugationSuffixVerb1: seq<seq<char>> := [[Heh], [Kaf]]
  const ConjugationSuffixVerb2: seq<seq<char>> :=
    [[Noon, Yeh], [Noon, Alef], [Heh, Alef], [Heh, Meem], [Heh, Noon], [Kaf, Meem], [Kaf, Noon]]
  const ConjugationSuffixVerb3: seq<seq<char>> := [[Heh, Meem, Alef], [Kaf, Meem, Alef], [Kaf, Meem, Waw]]
  const ConjugationSuffixVerb4: seq<seq<char>> := [[Alef], [Noon], [Yeh]]
  const ConjugationSuffixVerbPast: seq<seq<char>> := [[Noon, Alef], [Teh, Alef], [Teh, Noon]]
  const ConjugationSuffixVerbPresent: seq<seq<char>> := [[Alef, Noon], [Waw, Noon], [Yeh, Noon]]
  const ConjugationSuffixNoun1: seq<seq<char>> := [[Yeh], [Kaf], [Heh]]
  const ConjugationSuffixNoun2: seq<seq<char>> := [[Noon, Alef], [Kaf, Meem], [Heh, Alef], [Heh, Noon], [Heh, Meem]]
  const ConjugationSuffixNoun3: seq<seq<char>> := [[Kaf, Meem, Alef], [Heh, Meem, Alef]]
  const Prefixes1: seq<seq<char>> := [[Waw, Alef], [Feh, Alef]]
  const Prepositions1: seq<seq<char>> := [[Kaf], [Lam]]
  const Prepositions2: seq<seq<char>> := [[Beh, Beh], [Kaf, Kaf]]

  /** The final hamza forms that `__normalize_post` turns into a bare hamza. */
  const LastHamzat: seq<char> := [AlefHamzaAbove, AlefHamzaBelow, AlefMadda, WawHamza, YehHamza]

  /** One constructor per table-scanning step of the stemmer. */
  datatype Rule =
    | Checks1 | Checks2 | LastHamza
    | SuffixVerbStep1 | SuffixVerbStep2a | SuffixVerbStep2b | SuffixVerbStep2c
    | SuffixNounStep2c2 | SuffixNounStep1a | SuffixNounStep2a | SuffixNounStep2b
    | SuffixNounStep2c1 | SuffixNounStep1b | SuffixNounStep3 | SuffixAllAlefMaqsura
    | PrefixStep1 | PrefixStep2a | PrefixStep2b | PrefixStep3aNoun | PrefixStep3bNoun
    | PrefixStep3Verb | PrefixStep4Verb

  /**
   * The table each step iterates over, in source order. Where the source
   * iterates over a plain string, the table holds its characters one by one.
   */
  function Table(rule: Rule): seq<seq<char>>
  {
    match rule
    case Checks1 => [[Kaf, Alef, Lam], [Beh, Alef, Lam], [Alef, Lam], [Lam, Lam]]
    case Checks2 => [[TehMarbuta], [Alef, Teh]]
    case LastHamza => [[AlefHamzaAbove], [AlefHamzaBelow], [AlefMadda], [WawHamza], [YehHamza]]
    case SuffixVerbStep1 =>
      [[Heh], [Kaf], [Noon, Yeh], [Noon, Alef], [Heh, Alef], [Heh, Meem], [Heh, Noon],
       [Kaf, Meem], [Kaf, Noon], [Heh, Meem, Alef], [Kaf, Meem, Alef], [Kaf, Meem, Waw]]
    case SuffixVerbStep2a =>
      [[Teh], [Alef], [Noon], [Yeh], [Noon, Alef], [Teh, Alef], [Teh, Noon],
       [Alef, Noon], [Waw, Noon], [Yeh, Noon], [Teh, Meem, Alef]]
    case SuffixVerbStep2b => [[Waw, Alef], [Teh, Meem]]
    case SuffixVerbStep2c => [[Waw], [Teh, Meem, Waw]]
    case SuffixNounStep2c2 => [[TehMarbuta]]
    case SuffixNounStep1a =>
      [[Yeh], [Kaf], [Heh], [Noon, Alef], [Kaf, Meem], [Heh, Alef], [Heh, Noon], [Heh, Meem],
       [Kaf, Meem, Alef], [Heh, Meem, Alef]]
    case SuffixNounStep2a => [[Alef], [Yeh], [Waw]]
    case SuffixNounStep2b => [[Alef], [Teh]]
    case SuffixNounStep2c1 => [[Teh]]
    case SuffixNounStep1b => [[Noon]]
    case SuffixNounStep3 => [[Yeh]]
    case SuffixAllAlefMaqsura => [[AlefMaqsura]]
    case PrefixStep1 =>
      [[AlefHamzaAbove], [AlefHamzaAbove, AlefHamzaAbove], [AlefHamzaAbove, AlefMadda],
       [AlefHamzaAbove, WawHamza], [AlefHamzaAbove, Alef], [AlefHamzaAbove, AlefHamzaBelow]]
    case PrefixStep2a => [[Feh, Alef, Lam], [Waw, Alef, Lam]]
    case PrefixStep2b => [[Feh], [Waw]]
    case PrefixStep3aNoun => [[Alef, Lam], [Lam, Lam], [Kaf, Alef, Lam], [Beh, Alef, Lam]]
    case PrefixStep3bNoun => [[Beh], [Kaf], [Lam], [Beh, Beh], [Kaf, Kaf]]
    case PrefixStep3Verb => [[Seen, Yeh], [Seen, Teh], [Seen, Noon], [Seen, AlefHamzaAbove]]
    case PrefixStep4Verb => [[Yeh, Seen, Teh], [Noon, Seen, Teh], [Teh, Seen, Teh]]
  }

  /** What a firing entry leaves: the new token, and whether the step's success flag is set. */
  datatype Hit = Hit(token: seq<char>, marks: bool)

  /** `token[:-k]`. */
  function DropLast(t: seq<char>, k: nat): seq<char>
    requires k <= |t|
  {
    t[..|t| - k]
  }

  /**
   * The body of one iteration of a step's loop for table entry `e`: `None`
   * when the loop goes on to the next entry, `Some(hit)` when it breaks.
   */
  function Fire(rule: Rule, t: seq<char>, e: seq<char>): Option<Hit>
    requires e in Table(rule)
  {
    match rule
    case Checks1 =>
      if !StartsWith(t, e) then None
      else if e in Articles3Len && |t| > 4 then Some(Hit(t, true))
      else if e in Articles2Len && |t| > 3 then Some(Hit(t, true))
      else None
    case Checks2 =>
      if !EndsWith(t, e) then None
      else if e == [TehMarbuta] && |t| > 2 then Some(Hit(t, true))
      else if e == [Alef, Teh] && |t| > 3 then Some(Hit(t, true))
      else None
    case LastHamza =>
      if EndsWith(t, e) then Some(Hit(SuffixReplace(t, e, [Hamza]), false)) else None
    case SuffixVerbStep1 =>
      if !EndsWith(t, e) then None
      else if e in ConjugationSuffixVerb1 && |t| >= 4 then Some(Hit(DropLast(t, 1), true))
      else if e in ConjugationSuffixVerb2 && |t| >= 5 then Some(Hit(DropLast(t, 2), true))
      else if e in ConjugationSuffixVerb3 && |t| >= 6 then Some(Hit(DropLast(t, 3), true))
      else None
    case SuffixVerbStep2a =>
      if !(EndsWith(t, e) && |t| > 3) then None
      else if e == [Teh] && |t| >= 4 then Some(Hit(DropLast(t, 1), true))
      else if e in ConjugationSuffixVerb4 && |t| >= 4 then Some(Hit(DropLast(t, 1), true))
      else if e in ConjugationSuffixVerbPast && |t| >= 5 then Some(Hit(DropLast(t, 2), true))
      else if e in ConjugationSuffixVerbPresent && |t| > 5 then Some(Hit(DropLast(t, 2), true))
      else if e == [Teh, Meem, Alef] && |t| >= 6 then Some(Hit(DropLast(t, 3), true))
      else None
    case SuffixVerbStep2b =>
      if EndsWith(t, e) && |t| >= 5 then Some(Hit(DropLast(t, 2), true)) else None
    case SuffixVerbStep2c =>
      if !EndsWith(t, e) then None
      else if e == [Teh, Meem, Waw] && |t| >= 6 then Some(Hit(DropLast(t, 3), false))
      else if e == [Waw] && |t| >= 4 then Some(Hit(DropLast(t, 1), false))
      else None
    case SuffixNounStep2c2 =>
      if EndsWith(t, e) && |t| >= 3 then Some(Hit(DropLast(t, 1), true)) else None
    case SuffixNounStep1a =>
      if !EndsWith(t, e) then None
      else if e in ConjugationSuffixNoun1 && |t| >= 4 then Some(Hit(DropLast(t, 1), true))
      else if e in ConjugationSuffixNoun2 && |t| >= 5 then Some(Hit(DropLast(t, 2), true))
      else if e in ConjugationSuffixNoun3 && |t| >= 6 then Some(Hit(DropLast(t, 3), true))
      else None
    case SuffixNounStep2a =>
      if EndsWith(t, e) && |t| > 4 then Some(Hit(DropLast(t, 1), true)) else None
    case SuffixNounStep2b =>
      if EndsWith(t, e) && |t| >= 5 then Some(Hit(DropLast(t, 2), true)) else None
    case SuffixNounStep2c1 =>
      if EndsWith(t, e) && |t| >= 4 then Some(Hit(DropLast(t, 1), false)) else None
    case SuffixNounStep1b =>
      if EndsWith(t, e) && |t| > 5 then Some(Hit(DropLast(t, 1), true)) else None
    case SuffixNounStep3 =>
      if EndsWith(t, e) && |t| >= 3 then Some(Hit(DropLast(t, 1), false)) else None
    case SuffixAllAlefMaqsura =>
      if EndsWith(t, e) then Some(Hit(SuffixReplace(t, e, [Yeh]), false)) else None
    case PrefixStep1 =>
      if !(StartsWith(t, e) && |t| > 3) then None
      else if e == [AlefHamzaAbove, AlefHamzaAbove] then Some(Hit(PrefixReplace(t, e, [AlefHamzaAbove]), false))
      else if e == [AlefHamzaAbove, AlefMadda] then Some(Hit(PrefixReplace(t, e, [AlefMadda]), false))
      else if e == [AlefHamzaAbove, WawHamza] then Some(Hit(PrefixReplace(t, e, [WawHamza]), false))
      else if e == [AlefHamzaAbove, Alef] then Some(Hit(PrefixReplace(t, e, [Alef]), false))
      else if e == [AlefHamzaAbove, AlefHamzaBelow] then Some(Hit(PrefixReplace(t, e, [AlefHamzaBelow]), false))
      else None
    case PrefixStep2a =>
      if StartsWith(t, e) && |t| > 5 then Some(Hit(t[|e|..], true)) else None
    case PrefixStep2b =>
      if StartsWith(t, e) && |t| > 3 && t[..2] !in Prefixes1 then Some(Hit(t[|e|..], false)) else None
    case PrefixStep3aNoun =>
      if !StartsWith(t, e) then None
      else if e in Articles2Len && |t| > 4 then Some(Hit(t[|e|..], true))
      else if e in Articles3Len && |t| > 5 then Some(Hit(t[|e|..], false))
      else None
    case PrefixStep3bNoun =>
      if !StartsWith(t, e) then None
      else if |t| > 3 && e == [Beh] then Some(Hit(t[|e|..], true))
      else if |t| > 3 && e in Prepositions2 then Some(Hit(PrefixReplace(t, e, [e[1]]), true))
      else if e in Prepositions1 && |t| > 4 then Some(Hit(t[|e|..], true))
      else None
    case PrefixStep3Verb =>
      if StartsWith(t, e) && |t| > 4 then Some(Hit(PrefixReplace(t, e, [e[1]]), false)) else None
    case PrefixStep4Verb =>
      if StartsWith(t, e) && |t| > 4 then Some(Hit(PrefixReplace(t, e, [Alef, Seen, Teh]), true)) else None
  }

  /** The outcome of each entry of the table, in table order. */
  function Attempts(rule: Rule, t: seq<char>): (r: seq<Option<Hit>>)
    ensures |r| == |Table(rule)|
  {
    seq(|Table(rule)|, k requires 0 <= k < |Table(rule)| => Fire(rule, t, Table(rule)[k]))
  }

  /** The first `Some` of `xs` from index `start` on, or `None`. */
  function FirstSome(xs: seq<Option<Hit>>, start: nat): Option<Hit>
    requires start <= |xs|
    decreases |xs| - start
  {
    if start == |xs| then None
    else if xs[start].Some? then xs[start]
    else FirstSome(xs, start + 1)
  }

  /** `FirstSome` is `None` exactly when every element is, and otherwise the earliest `Some`. */
  lemma {:induction false} FirstSomeIsEarliest(xs: seq<Option<Hit>>, start: nat)
    requires start <= |xs|
    ensures FirstSome(xs, start).None? <==> forall k :: start <= k < |xs| ==> xs[k].None?
    ensures FirstSome(xs, start).Some? ==>
              exists k :: start <= k < |xs| && xs[k] == FirstSome(xs, start) && forall j :: start <= j < k ==> xs[j].None?
    decreases |xs| - start
  {
    if start < |xs| && xs[start].None? {
      FirstSomeIsEarliest(xs, start + 1);
      if FirstSome(xs, start).Some? {
        var k :| start + 1 <= k < |xs| && xs[k] == FirstSome(xs, start) && forall j :: start + 1 <= j < k ==> xs[j].None?;
        assert forall j :: start <= j < k ==> xs[j].None?;
      }
    }
  }

  /**
   * First match wins: the action of the first entry from index `start` on
   * that fires, or `None` when none does.
   */
  function FirstFire(rule: Rule, t: seq<char>, start: nat): Option<Hit>
    requires start <= |Table(rule)|
    decreases |Table(rule)| - start
  {
    if start == |Table(rule)| then None
    else
      var h := Fire(rule, t, Table(rule)[start]);
      if h.Some? then h else FirstFire(rule, t, start + 1)
  }

  /** The scan over the table is the first `Some` among the entries' outcomes. */
  lemma {:induction false} FirstFireIsFirstSome(rule: Rule, t: seq<char>, start: nat)
    requires start <= |Table(rule)|
    ensures FirstFire(rule, t, start) == FirstSome(Attempts(rule, t), start)
    decreases |Table(rule)| - start
  {
    if start < |Table(rule)| {
      assert Attempts(rule, t)[start] == Fire(rule, t, Table(rule)[start]);
      FirstFireIsFirstSome(rule, t, start + 1);
    }
  }

  /** `FirstFire` is `None` exactly when no entry fires, and otherwise the action of the earliest entry that fires. */
  lemma FirstFireIsFirstMatch(rule: Rule, t: seq<char>, start: nat)
    requires start <= |Table(rule)|
    ensures FirstFire(rule, t, start).None? <==> forall k :: start <= k < |Table(rule)| ==> Fire(rule, t, Table(rule)[k]).None?
    ensures FirstFire(rule, t, start).Some? ==>
              exists k :: start <= k < |Table(rule)| && Fire(rule, t, Table(rule)[k]) == FirstFire(rule, t, start)
                          && forall j :: start <= j < k ==> Fire(rule, t, Table(rule)[j]).None?
  {
    var xs := Attempts(rule, t);
    FirstFireIsFirstSome(rule, t, start);
    FirstSomeIsEarliest(xs, start);
    assert forall k :: 0 <= k < |xs| ==> xs[k] == Fire(rule, t, Table(rule)[k]);
  }

  /** The outcome of one step: the firing entry's hit, or the token unchanged and no success. */
  function Apply(rule: Rule, t: seq<char>): Hit
  {
    match FirstFire(rule, t, 0)
    case Some(h) => h
    case None => Hit(t, false)
  }

  /** The step's loop: try each entry in order and stop at the first that fires. */
  method Scan(rule: Rule, token: seq<char>) returns (hit: Option<Hit>)
    ensures hit == FirstFire(rule, token, 0)
  {
    var table := Table(rule);
    hit := None;
    for i := 0 to |table|
      invariant FirstFire(rule, token, i) == FirstFire(rule, token, 0)
      invariant hit == None
    {
      var h := Fire(rule, token, table[i]);
      if h.Some? {
        hit := h;
        break;
      }
    }
  }
}
