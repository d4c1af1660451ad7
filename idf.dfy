/** `compute_idfs`: the inverse document frequency of every word that
    occurs in a collection of tokenized documents. */
module Idf {
  import opened Dicts

  /** Document names (file names or sentence texts) mapped to their words. */
  type Documents = Dict<seq<string>>

  /** The distinct elements of a word list. */
  function Elements(words: seq<string>): set<string>
  {
    set i | 0 <= i < |words| :: words[i]
  }

  /** The distinct words of the collection. */
  function Vocabulary(docs: Documents): set<string>
  {
    if docs == [] then {}
    else Vocabulary(docs[..|docs| - 1]) + Elements(docs[|docs| - 1].value)
  }

  /** The number of documents whose word list contains `w` at least once;
      it is at least one exactly for the words of the collection. */
  function DocFreq(docs: Documents, w: string): (n: nat)
    ensures n <= |docs|
    ensures n >= 1 <==> w in Vocabulary(docs)
  {
    if docs == [] then 0
    else DocFreq(docs[..|docs| - 1], w) + (if w in docs[|docs| - 1].value then 1 else 0)
  }

  /** A word is in the vocabulary exactly when some document contains it. */
  lemma {:induction false} VocabularyMembers(docs: Documents, w: string)
    ensures w in Vocabulary(docs) <==> exists i :: 0 <= i < |docs| && w in docs[i].value
    decreases |docs|
  {
    if docs != [] {
      var init := docs[..|docs| - 1];
      VocabularyMembers(init, w);
      if w in Vocabulary(init) {
        var i :| 0 <= i < |init| && w in init[i].value;
        assert docs[i] == init[i];
      }
      if i :| 0 <= i < |docs| && w in docs[i].value {
        if i < |init| { assert init[i] == docs[i]; }
      }
    }
  }

  /** A word occurs in every document exactly when its document frequency is
      the number of documents. */
  lemma {:induction false} DocFreqAll(docs: Documents, w: string)
    ensures DocFreq(docs, w) == |docs| <==> forall i :: 0 <= i < |docs| ==> w in docs[i].value
    decreases |docs|
  {
    if docs != [] {
      var init := docs[..|docs| - 1];
      DocFreqAll(init, w);
      assert forall i :: 0 <= i < |init| ==> init[i] == docs[i];
    }
  }

  /** `N / N` is 1; stated apart because the division is nonlinear real
      arithmetic, which is costly inside the properties of the table. */
  lemma RatioOfEqual(n: nat)
    requires n > 0
    ensures n as real / n as real == 1.0
  {
  }

  /** The dictionary `compute_idfs` returns: each word of the collection
      mapped to the logarithm of the number of documents over its document
      frequency. */
  function IdfTable(docs: Documents, ln: real -> real): map<string, real>
  {
    map w | w in Vocabulary(docs) :: ln(|docs| as real / DocFreq(docs, w) as real)
  }

  /** `N / 1` is `N`; stated apart for the same reason. */
  lemma RatioOfOne(n: nat)
    ensures n as real / 1 as real == n as real
  {
  }

  /** Lines 96-99 of `compute_idfs`: the set of distinct words. */
  method UniqueWords(documents: Documents) returns (uniqueWords: set<string>)
    ensures uniqueWords == Vocabulary(documents)
  {
    uniqueWords := {};
    for i := 0 to |documents|
      invariant uniqueWords == Vocabulary(documents[..i])
    {
      var words := documents[i].value;
      for j := 0 to |words|
        invariant uniqueWords == Vocabulary(documents[..i]) + Elements(words[..j])
      {
        uniqueWords := uniqueWords + {words[j]};
        assert Elements(words[..j + 1]) == Elements(words[..j]) + {words[j]} by {
          assert forall k :: 0 <= k < j ==> words[..j + 1][k] == words[..j][k];
          assert words[..j + 1][j] == words[j];
        }
      }
      assert words[..|words|] == words;
      assert documents[..i + 1][..i] == documents[..i];
    }
    assert documents[..|documents|] == documents;
  }

  /** Lines 104-107 of `compute_idfs`: the number of documents containing `word`. */
  method CountRepetitions(documents: Documents, word: string) returns (repetitions: nat)
    ensures repetitions == DocFreq(documents, word)
  {
    repetitions := 0;
    for k := 0 to |documents|
      invariant repetitions == DocFreq(documents[..k], word)
    {
      if word in documents[k].value {
        repetitions := repetitions + 1;
      }
      assert documents[..k + 1][..k] == documents[..k];
    }
    assert documents[..|documents|] == documents;
  }

  /** The idf table has an entry for each word of the collection and no
      other; each word occurs in between one and all of the documents, so a
      word found everywhere gets `log(1)` and a word found in a single
      document gets `log(N)`. */
  lemma IdfTableProperties(docs: Documents, ln: real -> real)
    ensures IdfTable(docs, ln).Keys == Vocabulary(docs)
    ensures forall w :: w in IdfTable(docs, ln) ==>
      1 <= DocFreq(docs, w) <= |docs|
      && IdfTable(docs, ln)[w] == ln(|docs| as real / DocFreq(docs, w) as real)
    ensures forall w :: w in IdfTable(docs, ln) && DocFreq(docs, w) == |docs| ==> IdfTable(docs, ln)[w] == ln(1.0)
    ensures forall w :: w in IdfTable(docs, ln) && DocFreq(docs, w) == 1 ==> IdfTable(docs, ln)[w] == ln(|docs| as real)
  {
    var t := IdfTable(docs, ln);
    forall w | w in t && DocFreq(docs, w) == |docs|
      ensures t[w] == ln(1.0)
    {
      RatioOfEqual(|docs|);
    }
    forall w | w in t && DocFreq(docs, w) == 1
      ensures t[w] == ln(|docs| as real)
    {
      RatioOfOne(|docs|);
    }
  }

  /** `compute_idfs`. `ln` stands for `math.log`; the division is Python's
      true division `len(documents) / repetitions`, never by zero because
      every word counted occurs in some document. */
  method ComputeIdfs(documents: Documents, ln: real -> real) returns (idfMap: map<string, real>)
    ensures idfMap == IdfTable(documents, ln)
  {
    var uniqueWords := UniqueWords(documents);
    idfMap := map[];
    var rest := uniqueWords;
    while rest != {}
      invariant rest <= uniqueWords
      invariant idfMap.Keys == uniqueWords - rest
      invariant forall w :: w in idfMap ==>
        idfMap[w] == ln(|documents| as real / DocFreq(documents, w) as real)
      decreases rest
    {
      var word :| word in rest;
      var repetitions := CountRepetitions(documents, word);
      idfMap := idfMap[word := ln(|documents| as real / repetitions as real)];
      rest := rest - {word};
    }
  }
}
