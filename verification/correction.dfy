/**
 * The candidate generator of the spelling corrector `TextCorrection`: all
 * strings one edit (a deletion, a swap of neighbours, a replacement or an
 * insertion) away from a word, all strings two edits away, the part of a
 * collection that is in the dictionary, and the choice of candidates that
 * prefers the word itself, then one edit, then two.
 *
 * The dictionary, which the class loads from a file, is a parameter here.
 */
module Correction {

  /** The 28 letters that replacements and insertions draw from, in source order. */
  const Letters: seq<char> := [
    '\U{063A}', '\U{0638}', '\U{0636}', '\U{0630}', '\U{062E}', '\U{062B}', '\U{062A}',
    '\U{0634}', '\U{0631}', '\U{0642}', '\U{0635}', '\U{0641}', '\U{0639}', '\U{0633}',
    '\U{0646}', '\U{0645}', '\U{0644}', '\U{0643}', '\U{064A}', '\U{0637}', '\U{062D}',
    '\U{0632}', '\U{0648}', '\U{0647}', '\U{062F}', '\U{062C}', '\U{0628}', '\U{0623}']

  /** `splits`: the pairs `(word[:i], word[i:])` for `i` from 0 to `len(word)`. */
  function Splits(word: seq<char>): (r: seq<(seq<char>, seq<char>)>)
    ensures |r| == |word| + 1
    ensures forall i :: 0 <= i < |r| ==> |r[i].0| == i && r[i].0 + r[i].1 == word
  {
    seq(|word| + 1, i requires 0 <= i <= |word| => (word[..i], word[i..]))
  }

  /** `deletes`: `L + R[1:]` for every split with a non-empty right part. */
  function Deletes(word: seq<char>): seq<seq<char>>
  {
    var splits := Splits(word);
    seq(|word|, i requires 0 <= i < |word| => splits[i].0 + splits[i].1[1..])
  }

  /** `transposes`: `L + R[1] + R[0] + R[2:]` for every split whose right part has two letters or more. */
  function Transposes(word: seq<char>): seq<seq<char>>
  {
    var splits := Splits(word);
    var n := if |word| > 0 then |word| - 1 else 0;
    seq(n, i requires 0 <= i < n => splits[i].0 + [splits[i].1[1], splits[i].1[0]] + splits[i].1[2..])
  }

  /** `replaces`: `L + c + R[1:]` for every split with a non-empty right part and, inside, every letter. */
  function Replaces(word: seq<char>): seq<seq<char>>
  {
    var splits := Splits(word);
    seq(|word| * |Letters|, k requires 0 <= k < |word| * |Letters| =>
      var i := k / |Letters|;
      splits[i].0 + [Letters[k % |Letters|]] + splits[i].1[1..])
  }

  /** `inserts`: `L + c + R` for every split and, inside, every letter. */
  function Inserts(word: seq<char>): seq<seq<char>>
  {
    var splits := Splits(word);
    seq((|word| + 1) * |Letters|, k requires 0 <= k < (|word| + 1) * |Letters| =>
      var i := k / |Letters|;
      splits[i].0 + [Letters[k % |Letters|]] + splits[i].1)
  }

  /** `edits1`: the set of the four lists concatenated. */
  function Edits1(word: seq<char>): set<seq<char>>
  {
    set e | e in Deletes(word) + Transposes(word) + Replaces(word) + Inserts(word)
  }

  /** `edits2`: every edit of every edit, collected as `known` consumes the generator. */
  function Edits2(word: seq<char>): set<seq<char>>
  {
    set e1, e2 | e1 in Edits1(word) && e2 in Edits1(e1) :: e2
  }

  /** `known`: the members of `words` that the dictionary holds. */
  function Known(words: set<seq<char>>, dictionary: set<seq<char>>): (r: set<seq<char>>)
    ensures r == words * dictionary
  {
    set w | w in words && w in dictionary
  }

  /** What `candidates` returns: a set of known words, or the one-element list `[word]`. */
  datatype Suggestions = Found(found: set<seq<char>>) | Unchanged(list: seq<seq<char>>)

  /** `candidates`: the first non-empty of `known([word])`, `known(edits1)`, `known(edits2)`, else `[word]`. */
  function Candidates(word: seq<char>, dictionary: set<seq<char>>): (r: Suggestions)
    ensures word in dictionary ==> r == Found({word})
    ensures r.Found? ==> r.found != {} && r.found <= dictionary
    ensures r.Unchanged? ==> r.list == [word]
  {
    var exact := Known({word}, dictionary);
    assert word in dictionary ==> word in exact && exact == {word};
    if exact != {} then Found(exact)
    else
      var near := Known(Edits1(word), dictionary);
      if near != {} then Found(near)
      else
        var far := Known(Edits2(word), dictionary);
        if far != {} then Found(far) else Unchanged([word])
  }

  /** `Splits` cuts at every position: the left part is the first `i` letters and the right part the rest. */
  lemma SplitAt(word: seq<char>, i: nat)
    requires i <= |word|
    ensures Splits(word)[i] == (word[..i], word[i..])
  {
    var s := Splits(word)[i];
    assert |s.0| == i && s.0 + s.1 == word;
    assert s.0 == (s.0 + s.1)[..i];
    assert s.1 == (s.0 + s.1)[i..];
  }

  /** `e` is `word` without position `i`: putting `word[i]` back at `i` restores `word`. */
  predicate DeletedAt(word: seq<char>, e: seq<char>, i: nat)
    requires i < |word|
  {
    && |e| == |word| - 1
    && e[..i] == word[..i] && e[i..] == word[i + 1..]
    && e[..i] + [word[i]] + e[i..] == word
  }

  /** `e` is `word` with positions `i` and `i + 1` swapped: swapping them back restores `word`. */
  predicate SwappedAt(word: seq<char>, e: seq<char>, i: nat)
    requires i + 1 < |word|
  {
    && |e| == |word|
    && e[i] == word[i + 1] && e[i + 1] == word[i]
    && (forall j :: 0 <= j < |word| && j != i && j != i + 1 ==> e[j] == word[j])
    && e[..i] + [e[i + 1], e[i]] + e[i + 2..] == word
  }

  /** `e` is `word` with position `i` holding `c`: it differs from `word` nowhere else. */
  predicate ReplacedAt(word: seq<char>, e: seq<char>, i: nat, c: char)
    requires i < |word|
  {
    && |e| == |word|
    && e[i] == c
    && (forall j :: 0 <= j < |word| && j != i ==> e[j] == word[j])
  }

  /** `e` is `word` with `c` inserted before position `i`: deleting it restores `word`. */
  predicate InsertedAt(word: seq<char>, e: seq<char>, i: nat, c: char)
    requires i <= |word|
  {
    && |e| == |word| + 1
    && e[..i] == word[..i] && e[i] == c && e[i + 1..] == word[i..]
    && e[..i] + e[i + 1..] == word
  }

  /** The i-th deletion removes position `i`. */
  lemma DeletesRemoveOne(word: seq<char>)
    ensures |Deletes(word)| == |word|
    ensures forall i :: 0 <= i < |word| ==> DeletedAt(word, Deletes(word)[i], i)
  {
    forall i | 0 <= i < |word| ensures DeletedAt(word, Deletes(word)[i], i) {
      SplitAt(word, i);
      var e := Deletes(word)[i];
      assert e == word[..i] + word[i + 1..];
      assert e[..i] == word[..i];
      assert e[i..] == word[i + 1..];
      assert word == word[..i] + [word[i]] + word[i + 1..];
    }
  }

  /** The i-th transposition swaps positions `i` and `i + 1`. */
  lemma TransposesSwapNeighbours(word: seq<char>)
    ensures |Transposes(word)| == if |word| > 0 then |word| - 1 else 0
    ensures forall i :: 0 <= i < |word| - 1 ==> SwappedAt(word, Transposes(word)[i], i)
  {
    forall i | 0 <= i < |word| - 1 ensures SwappedAt(word, Transposes(word)[i], i) {
      SplitAt(word, i);
      var e := Transposes(word)[i];
      assert e == word[..i] + [word[i + 1], word[i]] + word[i + 2..];
      assert e[..i] == word[..i] && e[i + 2..] == word[i + 2..];
      assert word == word[..i] + [word[i], word[i + 1]] + word[i + 2..];
    }
  }

  /** Replacement `k` puts letter `k % 28` at position `k / 28`. */
  lemma ReplacesChangeOne(word: seq<char>)
    ensures |Replaces(word)| == |word| * |Letters|
    ensures forall k :: 0 <= k < |word| * |Letters| ==>
              k / |Letters| < |word| && ReplacedAt(word, Replaces(word)[k], k / |Letters|, Letters[k % |Letters|])
  {
    forall k | 0 <= k < |word| * |Letters|
      ensures k / |Letters| < |word| && ReplacedAt(word, Replaces(word)[k], k / |Letters|, Letters[k % |Letters|])
    {
      var i := k / |Letters|;
      assert i < |word|;
      SplitAt(word, i);
      var e := Replaces(word)[k];
      assert e == word[..i] + [Letters[k % |Letters|]] + word[i + 1..];
    }
  }

  /** Insertion `k` puts letter `k % 28` in front of position `k / 28`. */
  lemma InsertsAddOne(word: seq<char>)
    ensures |Inserts(word)| == (|word| + 1) * |Letters|
    ensures forall k :: 0 <= k < (|word| + 1) * |Letters| ==>
              k / |Letters| <= |word| && InsertedAt(word, Inserts(word)[k], k / |Letters|, Letters[k % |Letters|])
  {
    forall k | 0 <= k < (|word| + 1) * |Letters|
      ensures k / |Letters| <= |word| && InsertedAt(word, Inserts(word)[k], k / |Letters|, Letters[k % |Letters|])
    {
      var i := k / |Letters|;
      assert i <= |word|;
      SplitAt(word, i);
      var e := Inserts(word)[k];
      assert e == word[..i] + [Letters[k % |Letters|]] + word[i..];
      assert e[..i] == word[..i];
      assert e[i + 1..] == word[i..];
    }
  }

  /** The elements of a list, as a set. */
  function Elements(s: seq<seq<char>>): set<seq<char>>
  {
    set e | e in s
  }

  /** `edits1` is exactly the union of the deletions, transpositions, replacements and insertions. */
  lemma Edits1IsUnion(word: seq<char>)
    ensures Edits1(word) == Elements(Deletes(word)) + Elements(Transposes(word))
                            + Elements(Replaces(word)) + Elements(Inserts(word))
  {
  }

  lemma DeletesLengths(word: seq<char>)
    ensures forall e :: e in Deletes(word) ==> |e| == |word| - 1
  {
    DeletesRemoveOne(word);
    forall e | e in Deletes(word) ensures |e| == |word| - 1 {
      var i :| 0 <= i < |Deletes(word)| && Deletes(word)[i] == e;
    }
  }

  lemma TransposesLengths(word: seq<char>)
    ensures forall e :: e in Transposes(word) ==> |e| == |word|
  {
    TransposesSwapNeighbours(word);
    forall e | e in Transposes(word) ensures |e| == |word| {
      var i :| 0 <= i < |Transposes(word)| && Transposes(word)[i] == e;
    }
  }

  lemma ReplacesLengths(word: seq<char>)
    ensures forall e :: e in Replaces(word) ==> |e| == |word|
  {
    ReplacesChangeOne(word);
    forall e | e in Replaces(word) ensures |e| == |word| {
      var k :| 0 <= k < |Replaces(word)| && Replaces(word)[k] == e;
    }
  }

  lemma InsertsLengths(word: seq<char>)
    ensures forall e :: e in Inserts(word) ==> |e| == |word| + 1
  {
    InsertsAddOne(word);
    forall e | e in Inserts(word) ensures |e| == |word| + 1 {
      var k :| 0 <= k < |Inserts(word)| && Inserts(word)[k] == e;
    }
  }

  /** One edit changes the length by at most one. */
  lemma Edits1Lengths(word: seq<char>)
    ensures forall e :: e in Edits1(word) ==> |word| - 1 <= |e| <= |word| + 1
  {
    DeletesLengths(word);
    TransposesLengths(word);
    ReplacesLengths(word);
    InsertsLengths(word);
  }

  /** The one-letter words over a list of letters. */
  function OneLetterWords(s: seq<char>): set<seq<char>>
  {
    set c | c in s :: [c]
  }

  /** For the empty word only insertions exist: `edits1('')` is the set of the one-letter words. */
  lemma Edits1OfEmpty()
    ensures Edits1([]) == OneLetterWords(Letters)
  {
    InsertsOfEmpty();
    var all := Deletes([]) + Transposes([]) + Replaces([]) + Inserts([]);
    assert all == Inserts([]) by {
      assert Deletes([]) == [] && Transposes([]) == [] && Replaces([]) == [];
    }
    forall e | e in Edits1([]) ensures e in OneLetterWords(Letters) {
      var k :| 0 <= k < |Inserts([])| && Inserts([])[k] == e;
      assert e == [Letters[k]];
    }
    forall e | e in OneLetterWords(Letters) ensures e in Edits1([]) {
      var c :| c in Letters && e == [c];
      var k :| 0 <= k < |Letters| && Letters[k] == c;
      assert Inserts([])[k] == e;
    }
  }

  /** For the empty word the insertions are the letters one by one, in order. */
  lemma InsertsOfEmpty()
    ensures |Inserts([])| == |Letters|
    ensures forall k :: 0 <= k < |Letters| ==> Inserts([])[k] == [Letters[k]]
  {
    var splits := Splits([]);
    assert splits[0] == ([], []);
    forall k | 0 <= k < |Letters| ensures Inserts([])[k] == [Letters[k]] {
      assert k / |Letters| == 0 && k % |Letters| == k;
    }
  }

  /** Distinct letters give as many one-letter words. */
  lemma {:induction false} OneLetterWordsCount(s: seq<char>)
    requires forall i, j :: 0 <= i < j < |s| ==> s[i] != s[j]
    ensures |OneLetterWords(s)| == |s|
  {
    if |s| > 0 {
      OneLetterWordsCount(s[1..]);
      assert OneLetterWords(s) == {[s[0]]} + OneLetterWords(s[1..]);
      assert [s[0]] !in OneLetterWords(s[1..]);
    }
  }

  /** The 28 letters are distinct, so the empty word has 28 edits. */
  lemma Edits1OfEmptyCount()
    ensures |Edits1([])| == 28
  {
    Edits1OfEmpty();
    assert forall i, j :: 0 <= i < j < |Letters| ==> Letters[i] != Letters[j];
    OneLetterWordsCount(Letters);
  }

  /** `edits2` holds exactly the edits of the edits. */
  lemma Edits2IsEditsOfEdits(word: seq<char>, e2: seq<char>)
    ensures e2 in Edits2(word) <==> exists e1 :: e1 in Edits1(word) && e2 in Edits1(e1)
  {
  }

  /** Inserting a letter in front and deleting it again is two edits, so every word is among its own `edits2`. */
  lemma WordInEdits2(word: seq<char>)
    ensures word in Edits2(word)
  {
    InsertsAddOne(word);
    var e1 := Inserts(word)[0];
    assert e1 in Edits1(word);
    DeletesRemoveOne(e1);
    assert Deletes(e1)[0] == word;
    assert word in Edits1(e1);
  }

  /** Two edits change the length by at most two. */
  lemma Edits2Lengths(word: seq<char>)
    ensures forall e :: e in Edits2(word) ==> |word| - 2 <= |e| <= |word| + 2
  {
    Edits1Lengths(word);
    forall e | e in Edits2(word) ensures |word| - 2 <= |e| <= |word| + 2 {
      var e1 :| e1 in Edits1(word) && e in Edits1(e1);
      Edits1Lengths(e1);
    }
  }

  /**
   * `candidates` takes the first non-empty source: the word itself if it is
   * known, else its known one-edit neighbours, else its known two-edit
   * neighbours, else the list holding only the word.
   */
  lemma CandidatesFirstNonEmpty(word: seq<char>, dictionary: set<seq<char>>)
    ensures word !in dictionary && Edits1(word) * dictionary != {}
            ==> Candidates(word, dictionary) == Found(Edits1(word) * dictionary)
    ensures word !in dictionary && Edits1(word) * dictionary == {} && Edits2(word) * dictionary != {}
            ==> Candidates(word, dictionary) == Found(Edits2(word) * dictionary)
    ensures Candidates(word, dictionary).Unchanged?
            <==> word !in dictionary && Edits1(word) * dictionary == {} && Edits2(word) * dictionary == {}
  {
    assert word in dictionary ==> word in Known({word}, dictionary);
  }

  /** Every suggestion is the word itself or at most two edits away from it, and a farther one only when no nearer one is known. */
  lemma CandidatesAreNearest(word: seq<char>, dictionary: set<seq<char>>)
    ensures var r := Candidates(word, dictionary);
            r.Found? ==> forall c :: c in r.found ==> c == word || c in Edits1(word) || c in Edits2(word)
    ensures var r := Candidates(word, dictionary);
            r.Found? && (exists c :: c in r.found && c !in Edits1(word) && c != word)
            ==> word !in dictionary && Edits1(word) * dictionary == {}
  {
    CandidatesFirstNonEmpty(word, dictionary);
  }
}
