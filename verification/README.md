# Arabic stemmer, spelling candidates and text cleaner — a Dafny model

This project models three parts of the `arabicnlp` package:

- **The rule-based Arabic stemmer `ArabicStemmer`.** It:
  - classifies a token as noun, verb and/or defined, using two checks on the raw word;
  - deletes diacritics, kasheeda and punctuation;
  - runs a verb suffix cascade, a noun suffix cascade and a prefix cascade;
  - finally unifies the hamza forms.

  Each step scans a constant table in order: the first entry that matches and passes its length guard fires. The steps record their success in fields of the stemmer object, and those fields choose the later branches. The model also covers the two affix helpers `suffix_replace`/`prefix_replace` and the Snowball region helpers `_r1r2_standard`/`_rv_standard` defined in the same file.
- **The Norvig-style spelling candidates of `TextCorrection`.** This covers `edits1`, `edits2`, `known` and `candidates` over the fixed 28-letter alphabet. The dictionary `WORDS` is a parameter.
- **`clean_str`, the text normaliser of the similarity module.**

## Layout

| file | module | contents |
|---|---|---|
| `strings.dfy` | `Strings` | `startswith`/`endswith`, `suffix_replace`, `prefix_replace` |
| `regions.dfy` | `Regions` | R1/R2 and RV region scans |
| `affixes.dfy` | `ArabicAffixes` | the affix tables, one `Rule` per step, each entry's action (`Fire`), the first-match scan |
| `affix_laws.dfy` | `AffixLaws` | what each step does, in closed form |
| `normalizer.dfy` | `ArabicNormalize` | `__normalize_pre` and `__normalize_post` |
| `stemmer.dfy` | `ArabicStemming` | the stemmer's fields, `stem` as a specification function, and the class `ArabicStemmer` |
| `stemmer_laws.dfy` | `StemmerLaws` | classification, lengths, the carried-over flag |
| `stemmer_examples.dfy` | `StemmerExamples` | a worked case of call history changing a stem |
| `correction.dfy` | `Correction` | `edits1`, `edits2`, `known`, `candidates` |
| `similarity.dfy` | `Similarity` | `clean_str` |

## The stemmer's fields

Each step method writes the stemmer's fields. The class `ArabicStemmer` holds them as one record value `flags` of type `Flags`, with one component per Python attribute:

- `is_verb`, `is_noun` and `is_defined`;
- the eleven `*_success` flags, with the `suffixe_noun_step1b_success` spelling kept.

The methods (`SetFlags`, `RunStep`, `Check`, `Stem` and its blocks, `StemEach`) reassign that field. Each is proved against a specification function on `Run(flags, token)` values:

- `Step` for one step;
- `VerbSuffixes`, `NounSuffixes`, `NounStep2`, `PrefixPhase` for the blocks of `stem`;
- `Stemmed` for one call;
- `StemmedAll` for a run of calls.

`stem` (stemmer.py:752-761) resets ten of the eleven success flags but never `suffixes_verb_step1_success`. The model keeps this:

- Once a call sets that flag, it stays set for the life of the object.
- Every later call on a verb then takes the Step2a/Step2c branch instead of Step2b.
- The package shares one stemmer for all tokens (core.py:10, 16-17).

So stemming كتبوا gives كتب on a fresh stemmer, but كتبو after the same stemmer has stemmed كتبه (`StemmerExamples.HistoryChangesStem`). The stemmer's results therefore depend on call history; they are not a function of the token alone.

The code also differs from what the names suggest in several places. The model follows the code:

- **Character classes are ranges.** The bracket classes at stemmer.py:253 and :258 contain hyphens, so they delete the ranges U+064B–U+0652 and U+060C–U+061B, plus U+061F and ASCII `-`.
- **Some tables are plain strings, scanned one character at a time** (stemmer.py:296-306, :341). Noun Step2b, for example, fires on a final ا or ت, not on ات.
- **Earlier entries shadow later ones.** Verb Step2a and Step2c reduce to single-letter drops. Prefix Step1's leading أ entry never fires.
- **A three-letter token is not always left alone.** Noun Step3 (stemmer.py:640-645) drops a final ي from any token of three or more letters. `AffixLaws.ShortTokenQuiet` gives, for each step, the longest token it leaves alone regardless of its letters.

## Model

| member | source | states |
|---|---|---|
| Strings.SuffixReplace | arabicnlp/preprocessing/stemmer.py:25-29 | an empty or over-long old suffix yields just the new suffix; otherwise the length is original − old + new; the result ends with the new suffix, and if the original ended with the old suffix, putting it back gives the original |
| Strings.PrefixReplace | arabicnlp/preprocessing/stemmer.py:32-40 | the length is original − old + new (just the new prefix when old is longer than the original); the result starts with the new prefix; an original that started with the old prefix is recovered by putting the old prefix back |
| Strings.SuffixReplaceRoundTrip | arabicnlp/preprocessing/stemmer.py:25-29 | replacing a present suffix and then replacing the new one with the old one gives back the original |
| Strings.PrefixReplaceRoundTrip | arabicnlp/preprocessing/stemmer.py:32-40 | the same round trip for prefixes |
| Strings.PrefixReplaceByLast | arabicnlp/preprocessing/stemmer.py:32-40 | replacing a present prefix by its own last letter drops all the letters before it |
| Regions.StandardRegion | arabicnlp/preprocessing/stemmer.py:194-197 | the result is what follows the first non-vowel after a vowel (index ≥ 1), or empty when there is none; it is a suffix of the word |
| Regions.R1R2Standard | arabicnlp/preprocessing/stemmer.py:164-204 | r1 is the standard region of the word, r2 is the standard region of r1; r2 is a suffix of r1 and r1 is a suffix of the word |
| Regions.AfterFirstFrom2Scan | arabicnlp/preprocessing/stemmer.py:233-236 | the result is what follows the first index ≥ 2 holding a vowel (or, in the other mode, a non-vowel), or empty; it is a suffix of the word |
| Regions.RvStandard | arabicnlp/preprocessing/stemmer.py:208-246 | empty for words shorter than 2; a suffix of the word; after the next vowel when the second letter is a consonant, after the next consonant when the first two letters occur together in the vowel string (a substring test), and otherwise the word from index 3 |
| ArabicAffixes.FirstFireIsFirstMatch | arabicnlp/preprocessing/stemmer.py:514-739 | a table scan yields nothing exactly when no entry fires, and otherwise the action of the earliest entry that fires |
| ArabicAffixes.Scan | arabicnlp/preprocessing/stemmer.py:515-531 | the for/break loop over a step's table returns the first-match result |
| AffixLaws.ApplyCases | arabicnlp/preprocessing/stemmer.py:514-739 | a step either leaves the token unchanged and unflagged while no entry fires, or returns the action of an entry that fires |
| AffixLaws.FireCutsBack | arabicnlp/preprocessing/stemmer.py:514-646 | a firing suffix entry cuts 1 to 3 letters off the end of a token of at least 3, leaving at least 2 |
| AffixLaws.FireCutsFront | arabicnlp/preprocessing/stemmer.py:653-731 | a firing prefix entry cuts 1 to 3 letters off the start of a token of at least 3, leaving at least 2 |
| AffixLaws.SuffixStepCuts | arabicnlp/preprocessing/stemmer.py:514-646 | every suffix step leaves the token alone or cuts 1 to 3 letters off its end |
| AffixLaws.PrefixStepCuts | arabicnlp/preprocessing/stemmer.py:653-731 | every prefix-stripping step leaves the token alone or cuts 1 to 3 letters off its start |
| AffixLaws.ShortTokenQuiet | arabicnlp/preprocessing/stemmer.py:514-739 | each affix step leaves alone every token no longer than its length threshold (e.g. 2 for Noun Step3, 5 for Noun Step1b) |
| AffixLaws.SuffixStepMisses | arabicnlp/preprocessing/stemmer.py:514-646 | a suffix step leaves alone a token that ends with none of its entries |
| AffixLaws.SuffixStepQuiet | arabicnlp/preprocessing/stemmer.py:514-646 | a suffix step leaves alone a token whose last letter ends none of its entries |
| AffixLaws.FiresNoLaterThan | arabicnlp/preprocessing/stemmer.py:514-739 | if entry m fires, the outcome is the action of an entry at or before m |
| AffixLaws.SuffixVerbStep2aDropsLastLetter | arabicnlp/preprocessing/stemmer.py:533-560 | Verb Step2a drops a final ت, ا, ن or ي from a token longer than 3 and records success, and otherwise does nothing: its longer entries are shadowed |
| AffixLaws.SuffixVerbStep2cDropsWaw | arabicnlp/preprocessing/stemmer.py:562-572 | Verb Step2c drops a final و from a token of at least 4 and otherwise does nothing: تمو is shadowed by و |
| AffixLaws.SuffixNounStep2bCharwise | arabicnlp/preprocessing/stemmer.py:617-623 | Noun Step2b drops two letters and records success exactly when the token has at least 5 letters and ends in ا or ت |
| AffixLaws.PrefixStep1DropsAlefHamza | arabicnlp/preprocessing/stemmer.py:653-675 | the leading أ entry never fires; the step drops the first letter of a token longer than 3 that starts with أأ, أآ, أؤ, أا or أإ, and otherwise does nothing |
| AffixLaws.PrefixStep2bDropsConjunction | arabicnlp/preprocessing/stemmer.py:685-691 | Prefix Step2b drops a leading ف or و from a token longer than 3 unless it starts with فا or وا |
| AffixLaws.PrefixStep3bNounEntry | arabicnlp/preprocessing/stemmer.py:705-723 | every firing entry of Prefix Step3b (nouns) drops exactly the first letter and records success |
| AffixLaws.PrefixStep3bNounQuiet | arabicnlp/preprocessing/stemmer.py:705-723 | Prefix Step3b (nouns) fires only on a leading ب (over 3 letters), ك or ل (over 4), or كك (exactly 4) |
| AffixLaws.PrefixStep3bNounDropsPreposition | arabicnlp/preprocessing/stemmer.py:705-723 | Prefix Step3b (nouns) in closed form: on those tokens it drops the first letter and records success, otherwise it does nothing |
| AffixLaws.PrefixStep3VerbEntry | arabicnlp/preprocessing/stemmer.py:725-730 | every firing entry of Prefix Step3 (verbs) drops the س |
| AffixLaws.PrefixStep3VerbQuiet | arabicnlp/preprocessing/stemmer.py:725-730 | Prefix Step3 (verbs) fires only on سي, ست, سن or سأ leading a token longer than 4 |
| AffixLaws.PrefixStep3VerbDropsSeen | arabicnlp/preprocessing/stemmer.py:725-730 | Prefix Step3 (verbs) in closed form: drops that س, otherwise does nothing |
| AffixLaws.PrefixStep4VerbRewritesIst | arabicnlp/preprocessing/stemmer.py:732-739 | Prefix Step4 (verbs) rewrites a leading يست, نست or تست of a token longer than 4 as است and records the class change, keeping the length; otherwise it does nothing |
| AffixLaws.Checks1Fires | arabicnlp/preprocessing/stemmer.py:486-499 | the first check never changes the token and fires exactly on كال/بال with more than 4 letters or ال/لل with more than 3 |
| AffixLaws.Checks2Fires | arabicnlp/preprocessing/stemmer.py:501-512 | the second check never changes the token and fires exactly on a final ة (over 2 letters) or ات (over 3) |
| AffixLaws.LastHamzaBecomesHamza | arabicnlp/preprocessing/stemmer.py:475-478 | the final-hamza loop turns a final أ, إ, آ, ؤ or ئ into ء and leaves other tokens alone |
| AffixLaws.AlefMaqsuraBecomesYeh | arabicnlp/preprocessing/stemmer.py:647-651 | the alef-maqsura step turns a final ى into ي and changes nothing else |
| AffixLaws.ApplyNoLonger | arabicnlp/preprocessing/stemmer.py:486-739 | no step lengthens the token; the checks, the final-hamza loop, the alef-maqsura step and Prefix Step4 keep its length |
| ArabicNormalize.Delete | arabicnlp/preprocessing/stemmer.py:466-470 | deleting a character class keeps exactly the characters outside it and changes nothing when none is present |
| ArabicNormalize.NormalizePre | arabicnlp/preprocessing/stemmer.py:460-471 | the result is no longer than the token and holds exactly its characters outside U+064B–U+0652, U+0640, U+060C–U+061B, U+061F and `-` |
| ArabicNormalize.NormalizePreIsFilter | arabicnlp/preprocessing/stemmer.py:460-471 | the three deletions equal one in-order filter of the unmarked characters, and a second application changes nothing |
| ArabicNormalize.DeleteThreeIsKeepUnmarked | arabicnlp/preprocessing/stemmer.py:466-470 | the three successive deletions equal a single filter by their union |
| ArabicNormalize.NormalizePreKeepsClean | arabicnlp/preprocessing/stemmer.py:460-471 | a token with nothing to delete passes unchanged |
| ArabicNormalize.Substitute | arabicnlp/preprocessing/stemmer.py:480-483 | a single-character class substitution keeps the length and rewrites exactly the class members |
| ArabicNormalize.InitialHamzat | arabicnlp/preprocessing/stemmer.py:480 | the anchored substitution rewrites only a leading آ, أ or إ into ا |
| ArabicNormalize.OtherHamzatPointwise | arabicnlp/preprocessing/stemmer.py:480-483 | the four substitutions act letter by letter (ؤ→و, ئ→ي, آ/أ/إ→ا) |
| ArabicNormalize.NormalizePost | arabicnlp/preprocessing/stemmer.py:473-484 | the loop over the five final forms followed by the substitutions computes the post-normalised token and keeps its length |
| ArabicNormalize.PostCharUnseated | arabicnlp/preprocessing/stemmer.py:480-483 | no seated hamza survives the substitutions |
| ArabicNormalize.LastHamzaTouchesOnlyLast | arabicnlp/preprocessing/stemmer.py:475-478 | the final-hamza loop changes at most the last letter, and only into ء |
| ArabicNormalize.PostNormalizedShape | arabicnlp/preprocessing/stemmer.py:473-484 | post-normalisation keeps the length, leaves none of آ أ إ ؤ ئ, ends in ء when the token ended in one of them, and rewrites the other letters pointwise |
| ArabicNormalize.PostNormalizedKeepsPlain | arabicnlp/preprocessing/stemmer.py:473-484 | a token without seated hamzas passes unchanged |
| ArabicStemming.StemmedAll | arabicnlp/core.py:16-17 | stemming a list yields one stem per token |
| ArabicStemming.ArabicStemmer.constructor | arabicnlp/preprocessing/stemmer.py:444-458 | a new stemmer holds the class-level defaults |
| ArabicStemming.ArabicStemmer.SetFlags | arabicnlp/preprocessing/stemmer.py:486-739 | the assignments of a step's firing branch, as `Mark` |
| ArabicStemming.ArabicStemmer.RunStep | arabicnlp/preprocessing/stemmer.py:514-739 | one step method: new token and fields are the step's specification |
| ArabicStemming.ArabicStemmer.Check | arabicnlp/preprocessing/stemmer.py:486-512 | a check changes only the fields, as the step's specification says |
| ArabicStemming.ArabicStemmer.Stem | arabicnlp/preprocessing/stemmer.py:741-833 | one call of `stem`: the returned stem and the new fields are `Stemmed` of the old fields and the word |
| ArabicStemming.ArabicStemmer.VerbSuffixSteps | arabicnlp/preprocessing/stemmer.py:772-782 | the verb block as its specification |
| ArabicStemming.ArabicStemmer.NounSuffixSteps | arabicnlp/preprocessing/stemmer.py:783-813 | the noun block as its specification |
| ArabicStemming.ArabicStemmer.NounStep2Steps | arabicnlp/preprocessing/stemmer.py:789-808 | the repeated noun Step2a/2b/2c1 sequence as its specification |
| ArabicStemming.ArabicStemmer.PrefixSteps | arabicnlp/preprocessing/stemmer.py:818-828 | the prefix block as its specification |
| ArabicStemming.ArabicStemmer.StemEach | arabicnlp/core.py:16-17 | stemming a list in order with one stemmer yields `StemmedAll` of its fields, and leaves the fields that run ends with |
| StemmerLaws.StepNoLonger | arabicnlp/preprocessing/stemmer.py:486-739 | no step lengthens the token |
| StemmerLaws.ClassifiedShape | arabicnlp/preprocessing/stemmer.py:486-512 | after the checks the word is a noun; it is a verb exactly when neither check fired; it is defined exactly when the first fired (so defined implies not a verb); every other field but the carried-over flag holds its default |
| StemmerLaws.StepCases | arabicnlp/preprocessing/stemmer.py:514-739 | a step yields `Apply`'s token, and the fields either unchanged or marked by that step |
| StemmerLaws.MarkTouches | arabicnlp/preprocessing/stemmer.py:486-739 | only Suffix Verb Step1 sets `suffixes_verb_step1_success`, and only the checks and Prefix Step4 touch the class fields |
| StemmerLaws.SuffixStepKeepsClass | arabicnlp/preprocessing/stemmer.py:514-646 | a suffix step never changes `is_verb`, `is_noun` or `is_defined` |
| StemmerLaws.VerbSuffixesKeepClass | arabicnlp/preprocessing/stemmer.py:772-782 | the verb block keeps the word's class |
| StemmerLaws.NounSuffixesKeepClass | arabicnlp/preprocessing/stemmer.py:783-813 | the noun block keeps the word's class |
| StemmerLaws.NounCascadeAlwaysRuns | arabicnlp/preprocessing/stemmer.py:772-815 | the noun block always runs after the optional verb block, and the alef-maqsura step is never reached |
| StemmerLaws.VerbSuffixesNoLonger | arabicnlp/preprocessing/stemmer.py:772-782 | the verb block never lengthens the token |
| StemmerLaws.NounSuffixesNoLonger | arabicnlp/preprocessing/stemmer.py:783-813 | the noun block never lengthens the token |
| StemmerLaws.PrefixPhaseNoLonger | arabicnlp/preprocessing/stemmer.py:818-828 | the prefix block never lengthens the token |
| StemmerLaws.StemmedNoLonger | arabicnlp/preprocessing/stemmer.py:741-833 | the stem is never longer than the word |
| StemmerLaws.OnlyLeakedFlagCarriesOver | arabicnlp/preprocessing/stemmer.py:748-761 | two stemmers that agree on `suffixes_verb_step1_success` give the same stem and end in the same state |
| StemmerLaws.PrefixStep4VerbReclassifies | arabicnlp/preprocessing/stemmer.py:732-739 | Prefix Step4 keeps the length and makes the word a verb and not a noun exactly when it rewrites the token |
| StemmerLaws.StepKeepsLeak | arabicnlp/preprocessing/stemmer.py:486-739 | no step clears `suffixes_verb_step1_success` |
| StemmerLaws.VerbSuffixesLeak | arabicnlp/preprocessing/stemmer.py:514-531 | after the verb block the flag is set exactly when it was set before or Verb Step1 fired |
| StemmerLaws.NounSuffixesKeepLeak | arabicnlp/preprocessing/stemmer.py:783-813 | the noun block keeps the flag set |
| StemmerLaws.SuffixPhaseKeepsLeak | arabicnlp/preprocessing/stemmer.py:772-815 | the suffix blocks keep the flag set |
| StemmerLaws.PrefixPhaseKeepsLeak | arabicnlp/preprocessing/stemmer.py:818-828 | the prefix block keeps the flag set |
| StemmerLaws.LeakedFlagSticks | arabicnlp/preprocessing/stemmer.py:748-761 | a call of `stem` never clears the flag |
| StemmerLaws.LeakedFlagSticksAcrossCalls | arabicnlp/preprocessing/stemmer.py:748-761 | over any run of calls on one stemmer the flag stays set |
| StemmerLaws.LeakForcesStep2aBranch | arabicnlp/preprocessing/stemmer.py:774-782 | with the flag set, the verb block always takes Step2a then Step2c, never Step2b |
| StemmerLaws.Step1FiringLeaks | arabicnlp/preprocessing/stemmer.py:519-529 | stemming a verb on which Verb Step1 fires leaves the flag set |
| StemmerExamples.StemKatabuFresh | arabicnlp/preprocessing/stemmer.py:741-833 | without the flag, كتبوا stems to كتب (Step2b strips وا) |
| StemmerExamples.StemKatabuLeaked | arabicnlp/preprocessing/stemmer.py:741-833 | with the flag, كتبوا stems to كتبو (Step2a strips only the ا) |
| StemmerExamples.StemKatabahLeaks | arabicnlp/preprocessing/stemmer.py:514-531 | stemming كتبه sets the flag, whatever the stemmer held before |
| StemmerExamples.HistoryChangesStem | arabicnlp/core.py:10-17 | on a fresh stemmer, [كتبوا] stems to [كتب] but the second stem of [كتبه, كتبوا] is كتبو |
| Correction.Splits | arabicnlp/correction.py:45 | one split per position 0..len(word): a prefix of that length and the rest, which concatenate to the word |
| Correction.DeletesRemoveOne | arabicnlp/correction.py:46 | every delete is one letter shorter and is the word with one position removed |
| Correction.TransposesSwapNeighbours | arabicnlp/correction.py:47 | every transpose has the word's length and is the word with positions i and i+1 swapped |
| Correction.ReplacesChangeOne | arabicnlp/correction.py:48 | every replace has the word's length and is the word with one position set to an alphabet letter |
| Correction.InsertsAddOne | arabicnlp/correction.py:49 | every insert is one letter longer and is the word with an alphabet letter inserted at a position 0..len(word) |
| Correction.Edits1IsUnion | arabicnlp/correction.py:50 | `edits1` is exactly the union of the four lists |
| Correction.Edits1Lengths | arabicnlp/correction.py:45-50 | every one-edit candidate differs in length from the word by at most one |
| Correction.Edits1OfEmpty | arabicnlp/correction.py:44-50 | `edits1` of the empty word is the set of one-letter words over the alphabet |
| Correction.Edits1OfEmptyCount | arabicnlp/correction.py:44-50 | that set has 28 elements |
| Correction.WordInEdits2 | arabicnlp/correction.py:52-54 | a word of length at least 1 is among its own two-edit candidates (delete then insert back) |
| Correction.Edits2Lengths | arabicnlp/correction.py:52-54 | every two-edit candidate differs in length from the word by at most two |
| Correction.Known | arabicnlp/correction.py:38-40 | `known` is exactly the given words that are in the dictionary |
| Correction.Candidates | arabicnlp/correction.py:29-36 | a dictionary word suggests only itself; a found set is non-empty and inside the dictionary; otherwise the suggestion is the word itself |
| Correction.CandidatesFirstNonEmpty | arabicnlp/correction.py:29-36 | the result is the first non-empty of known([word]), known(edits1), known(edits2), and the fallback [word] exactly when all three are empty |
| Correction.CandidatesAreNearest | arabicnlp/correction.py:29-36 | every found suggestion is the word itself or one or two edits away from it, and a suggestion that is neither the word nor one edit away appears only when neither the word nor any one-edit candidate is in the dictionary |
| Similarity.StripTashkeel | arabicnlp/similarity.py:62-63 | deleting the diacritic class keeps exactly the characters outside U+0617–U+061A and U+064B–U+0652 |
| Similarity.CollapseKeepsCharacters | arabicnlp/similarity.py:64-66 | the longation step keeps exactly the set of characters it was given |
| Similarity.CollapseLeavesNoTriples | arabicnlp/similarity.py:64-66 | after it no character other than a newline occurs three times in a row |
| Similarity.CollapseKeepsTripleFree | arabicnlp/similarity.py:64-66 | a text without such runs passes unchanged |
| Similarity.CollapseIdempotent | arabicnlp/similarity.py:64-66 | applying the longation step twice equals applying it once |
| Similarity.ReplaceAllAbsent | arabicnlp/similarity.py:67-72 | `replace` introduces no character missing from the replacement text, and removes a one-character pattern for good |
| Similarity.MergeLeavesNoPair | arabicnlp/similarity.py:67-69 | merging cc into c in a text without ccc leaves no cc |
| Similarity.MergeKeepsNoPair | arabicnlp/similarity.py:67-69 | merging cc creates no pair of another letter |
| Similarity.MergeKeepsNoTriple | arabicnlp/similarity.py:67-69 | merging cc creates no triple of another letter |
| Similarity.MergeDoublesLeavesNoPairs | arabicnlp/similarity.py:67-69 | on a text without triples, the three merges leave no وو, يي or اا |
| Similarity.MergedTextHasNoDoubles | arabicnlp/similarity.py:62-69 | right after line 69 the text holds no وو, يي or اا |
| Similarity.PairsMayRestoreDoubleAlef | arabicnlp/similarity.py:67-72 | the pairs run after the merges, so أا still comes out as اا |
| Similarity.ApplyPairsKeepsAbsent | arabicnlp/similarity.py:71-72 | a character no replacement text contains stays out |
| Similarity.ApplyPairsRemoves | arabicnlp/similarity.py:13-72 | a one-character search target no replacement text contains is gone once its pair has run |
| Similarity.ApplyPairsRemovesTargets | arabicnlp/similarity.py:13-72 | after all 22 pairs every such target is gone |
| Similarity.ApplyPairsRemovesAll | arabicnlp/similarity.py:13-72 | after all 22 pairs none of أ إ آ ة ى ـ _ - / . ، " ' \ tab newline is left |
| Similarity.LeadingSpaces | arabicnlp/similarity.py:73 | `lstrip` cuts off a run of whitespace and stops at the first character that is not whitespace |
| Similarity.TrailingSpaces | arabicnlp/similarity.py:73 | `rstrip` cuts off a run of whitespace and stops at the last character that is not whitespace |
| Similarity.Strip | arabicnlp/similarity.py:73 | the result neither starts nor ends with whitespace and holds only characters of the text |
| Similarity.StripKeepsSlice | arabicnlp/similarity.py:73 | the result is one contiguous slice of the text, and everything cut around it is whitespace |
| Similarity.CleanTextHasNoTashkeel | arabicnlp/similarity.py:62-73 | no diacritic in U+0617–U+061A or U+064B–U+0652 is in the result |
| Similarity.CleanTextRemoves | arabicnlp/similarity.py:13-73 | none of the removed characters is in the result |
| Similarity.CleanStr | arabicnlp/similarity.py:12-75 | `clean_str` computes the specification `CleanText`; its result has no diacritic, none of the removed characters, and no leading or trailing whitespace |

## Left out

- The language dispatch and Porter classes (stemmer.py:43-153): `SnowballStemmer`, `_LanguageSpecificStemmer` and `PorterStemmer`. They dispatch through `globals()` to classes that are not part of this model.
- Both POS taggers: they load neural models and pickles and work on floats.
- `TextSimilarity` (similarity.py:78-106): word embeddings and float distances.
- `TextCorrection.__init__`, `words`, `P` and `correction`: pickle I/O, Unicode `\w` tokenising and float probabilities. `WORDS` is a parameter of `Known` and `Candidates`.
- `tokens`, `tags`, `correct`, `sentiment`, `similarity` and `download` in core.py:
  - `tokens` depends on Python's Unicode `\w` and `\s` classes;
  - the others are stubs.
  
  `stem` there is modelled only as `StemEach`/`StemmedAll` over a given token list.
- The regular expressions and `str` methods the code calls are modelled as the functions they compute:
  - `re.sub` with a class;
  - `re.sub` with `(.)\1+`;
  - `str.replace`, `str.strip`, `startswith`, `endswith`.
  
  `str.strip` uses the whitespace set of Python's `str.isspace`.
- `ArabicStemming.ArabicStemmer`: the fourteen attributes are one record-valued field, not fourteen fields. The private step methods are one `RunStep` over a `Rule` value that names the step, plus `Scan` for the loop.
- `Correction.Edits2`: `edits2` returns a generator that may repeat words. The model is the set of its elements, which is all that `known` observes.
- `Correction.Candidates`: a found suggestion is a set and the fallback is a one-element list, as in the code. The model does not say how a caller iterates over either.

