/** `top_sentences`: rank the sentences by the sum of the idf values of the
    query words they contain, break ties by query term density, and return
    the best `n`. */
module TopSentences {
  import opened Dicts
  import opened Sums
  import opened Ranking
  import opened Idf
  import opened TopFiles

  /** What one query word adds to a sentence's `idf_sum`: its idf when the
      sentence contains it, once however often it occurs. */
  function IdfOf(words: seq<string>, idfs: map<string, real>, w: string): real
  {
    if w in words && w in idfs then idfs[w] else 0.0
  }

  function IdfTerm(words: seq<string>, idfs: map<string, real>): string -> real
  {
    w => IdfOf(words, idfs, w)
  }

  /** The `idf_sum` of a sentence with word list `words`. */
  ghost function IdfSum(query: set<string>, words: seq<string>, idfs: map<string, real>): real
  {
    SumOver(query, IdfTerm(words, idfs))
  }

  /** The number of positions of `words` that hold a query word. */
  function QueryWordCount(words: seq<string>, query: set<string>): (c: nat)
    ensures c <= |words|
  {
    if words == [] then 0
    else QueryWordCount(words[..|words| - 1], query) + (if words[|words| - 1] in query then 1 else 0)
  }

  /** The query term density `qtd`: the share of the sentence's words that
      are query words. Python divides by the length, so the sentence must
      have at least one word. */
  function Density(words: seq<string>, query: set<string>): (d: real)
    requires |words| > 0
    ensures 0.0 <= d <= 1.0
  {
    QueryWordCount(words, query) as real / |words| as real
  }

  /** The key `(idf_sum, qtd)` a sentence is sorted by. */
  ghost function SentenceKey(query: set<string>, words: seq<string>, idfs: map<string, real>): Rank
    requires |words| > 0
  {
    Rank(IdfSum(query, words, idfs), Density(words, query))
  }

  /** Every sentence has at least one word, as `main` ensures by keeping
      only sentences whose token list is not empty. */
  predicate NonEmptyValues(docs: Documents)
  {
    forall i :: 0 <= i < |docs| ==> |docs[i].value| > 0
  }

  /** Every word is a query word exactly when the count is the length. */
  lemma {:induction false} QueryWordCountAll(words: seq<string>, query: set<string>)
    ensures QueryWordCount(words, query) == |words| <==> forall i :: 0 <= i < |words| ==> words[i] in query
    decreases |words|
  {
    if words != [] {
      var init := words[..|words| - 1];
      QueryWordCountAll(init, query);
      assert forall i :: 0 <= i < |init| ==> init[i] == words[i];
    }
  }

  /** No word is a query word exactly when the count is zero. */
  lemma {:induction false} QueryWordCountNone(words: seq<string>, query: set<string>)
    ensures QueryWordCount(words, query) == 0 <==> forall i :: 0 <= i < |words| ==> words[i] !in query
    decreases |words|
  {
    if words != [] {
      var init := words[..|words| - 1];
      QueryWordCountNone(init, query);
      assert forall i :: 0 <= i < |init| ==> init[i] == words[i];
    }
  }

  /** The density is 1 exactly when every word is a query word, and 0
      exactly when none is. */
  lemma DensityExtremes(words: seq<string>, query: set<string>)
    requires |words| > 0
    ensures Density(words, query) == 1.0 <==> forall i :: 0 <= i < |words| ==> words[i] in query
    ensures Density(words, query) == 0.0 <==> forall i :: 0 <= i < |words| ==> words[i] !in query
  {
    QueryWordCountAll(words, query);
    QueryWordCountNone(words, query);
    var c, l := QueryWordCount(words, query) as real, |words| as real;
    if c / l == 1.0 {
      assert c == (c / l) * l;
    }
    if c / l == 0.0 {
      assert c == (c / l) * l;
    }
  }

  /** Lines 153-157: the `idf_sum` of one sentence. */
  method SentenceIdfSum(query: set<string>, words: seq<string>, idfs: map<string, real>) returns (idfSum: real)
    requires forall w :: w in query && w in words ==> w in idfs
    ensures idfSum == IdfSum(query, words, idfs)
  {
    idfSum := 0.0;
    var rest := query;
    while rest != {}
      invariant rest <= query
      invariant idfSum == SumOver(query - rest, IdfTerm(words, idfs))
      decreases rest
    {
      var word :| word in rest;
      ghost var before := idfSum;
      if word in words {
        var idf := idfs[word];
        idfSum := idfSum + idf;
      }
      assert idfSum == before + IdfTerm(words, idfs)(word);
      SumStep(query, rest, IdfTerm(words, idfs), word);
      rest := rest - {word};
    }
    assert query - rest == query;
  }

  /** Lines 160-163: the number of query words in one sentence. */
  method CountQueryWords(words: seq<string>, query: set<string>) returns (queryWordCount: nat)
    ensures queryWordCount == QueryWordCount(words, query)
  {
    queryWordCount := 0;
    for i := 0 to |words|
      invariant queryWordCount == QueryWordCount(words[..i], query)
    {
      if words[i] in query {
        queryWordCount := queryWordCount + 1;
      }
      assert words[..i + 1][..i] == words[..i];
    }
    assert words[..|words|] == words;
  }

  /** The tuples of `sentences_tuples`, reduced to each sentence and its key,
      in the order of `sentences`. */
  ghost function SentenceRankings(query: set<string>, sentences: Documents, idfs: map<string, real>): seq<Scored>
    requires NonEmptyValues(sentences)
  {
    seq(|sentences|, i requires 0 <= i < |sentences| =>
      Scored(sentences[i].key, SentenceKey(query, sentences[i].value, idfs)))
  }

  /** Lines 151-167: the list `sentences_tuples`. */
  method ComputeSentenceRankings(query: set<string>, sentences: Documents, idfs: map<string, real>)
    returns (tuples: seq<Scored>)
    requires NonEmptyValues(sentences)
    requires IdfsCover(query, sentences, idfs)
    ensures tuples == SentenceRankings(query, sentences, idfs)
  {
    tuples := [];
    for i := 0 to |sentences|
      invariant |tuples| == i
      invariant forall j :: 0 <= j < i ==>
        tuples[j] == Scored(sentences[j].key, SentenceKey(query, sentences[j].value, idfs))
    {
      var words := sentences[i].value;
      var idfSum := SentenceIdfSum(query, words, idfs);
      var queryWordCount := CountQueryWords(words, query);
      var qtd := queryWordCount as real / |words| as real;
      tuples := tuples + [Scored(sentences[i].key, Rank(idfSum, qtd))];
    }
  }

  /** The names in the rankings are the distinct sentences. */
  lemma SentenceRankingsNames(query: set<string>, sentences: Documents, idfs: map<string, real>)
    requires UniqueKeys(sentences) && NonEmptyValues(sentences)
    ensures Distinct(Names(SentenceRankings(query, sentences, idfs)))
    ensures forall f :: f in Keys(sentences) <==> f in Names(SentenceRankings(query, sentences, idfs))
  {
    var names := Names(SentenceRankings(query, sentences, idfs));
    assert forall i :: 0 <= i < |sentences| ==> names[i] == sentences[i].key;
    forall f | f in Keys(sentences) ensures f in names {
      var i :| 0 <= i < |sentences| && sentences[i].key == f;
      assert names[i] == f;
    }
  }

  /** The word list found for a sentence is one of the lists, so not empty. */
  lemma LookupNonEmpty(sentences: Documents, f: string)
    requires NonEmptyValues(sentences) && f in Keys(sentences)
    ensures |Lookup(sentences, f)| > 0
  {
    var i := IndexOf(sentences, f);
    assert Lookup(sentences, f) == sentences[i].value;
  }

  /** The key a sentence is ranked by is its own `(idf_sum, qtd)`. */
  lemma SentenceRankingsRankOf(query: set<string>, sentences: Documents, idfs: map<string, real>, f: string)
    requires UniqueKeys(sentences) && NonEmptyValues(sentences) && f in Keys(sentences)
    ensures f in Names(SentenceRankings(query, sentences, idfs))
    ensures |Lookup(sentences, f)| > 0
    ensures RankOf(SentenceRankings(query, sentences, idfs), f) == SentenceKey(query, Lookup(sentences, f), idfs)
  {
    var s := SentenceRankings(query, sentences, idfs);
    SentenceRankingsNames(query, sentences, idfs);
    LookupNonEmpty(sentences, f);
    var p := IndexOf(sentences, f);
    RankOfMember(s, p);
  }

  /** The first `n` sentences of the sorted tuples are `n` distinct
      sentences in non-increasing `(idf_sum, qtd)` order, and no sentence
      left out has a greater key than one of them. */
  lemma TopSentencesProperties(query: set<string>, sentences: Documents, idfs: map<string, real>, n: nat)
    requires UniqueKeys(sentences) && NonEmptyValues(sentences) && n <= |sentences|
    ensures |Top(SentenceRankings(query, sentences, idfs), n)| == n
    ensures Distinct(Top(SentenceRankings(query, sentences, idfs), n))
    ensures forall f :: f in Top(SentenceRankings(query, sentences, idfs), n) ==>
      f in Keys(sentences) && |Lookup(sentences, f)| > 0
    ensures forall i, j :: 0 <= i < j < n ==>
      AtLeast(SentenceKey(query, Lookup(sentences, Top(SentenceRankings(query, sentences, idfs), n)[i]), idfs),
              SentenceKey(query, Lookup(sentences, Top(SentenceRankings(query, sentences, idfs), n)[j]), idfs))
    ensures forall k :: 0 <= k < |sentences| && sentences[k].key !in Top(SentenceRankings(query, sentences, idfs), n) ==>
      forall f :: f in Top(SentenceRankings(query, sentences, idfs), n) ==>
        AtLeast(SentenceKey(query, Lookup(sentences, f), idfs), SentenceKey(query, sentences[k].value, idfs))
  {
    var rankings := SentenceRankings(query, sentences, idfs);
    var top := Top(rankings, n);
    SentenceRankingsNames(query, sentences, idfs);
    TopDistinct(rankings, n);
    forall f | f in top
      ensures |Lookup(sentences, f)| > 0
      ensures RankOf(rankings, f) == SentenceKey(query, Lookup(sentences, f), idfs)
    {
      SentenceRankingsRankOf(query, sentences, idfs, f);
    }
    assert forall i, j :: 0 <= i < j < n ==> AtLeast(RankOf(rankings, top[i]), RankOf(rankings, top[j])) by {
      TopOrdered(rankings, n);
    }
    forall k | 0 <= k < |sentences| && sentences[k].key !in top
      ensures forall f :: f in top ==> AtLeast(RankOf(rankings, f), SentenceKey(query, sentences[k].value, idfs))
    {
      assert rankings[k].name == sentences[k].key && rankings[k].rank == SentenceKey(query, sentences[k].value, idfs);
      TopBest(rankings, n);
    }
  }

  /** `top_sentences`. Indexing the sorted list at line 181 fails unless
      `n` is at most the number of sentences, and the density at line 164
      divides by the length of each word list. */
  method TopSentences(query: set<string>, sentences: Documents, idfs: map<string, real>, n: nat)
    returns (topSentences: seq<string>)
    requires UniqueKeys(sentences) && NonEmptyValues(sentences)
    requires IdfsCover(query, sentences, idfs)
    requires n <= |sentences|
    ensures topSentences == Top(SentenceRankings(query, sentences, idfs), n)
    ensures |topSentences| == n && Distinct(topSentences)
    ensures forall f :: f in topSentences ==> f in Keys(sentences) && |Lookup(sentences, f)| > 0
    ensures forall i, j :: 0 <= i < j < n ==>
      IdfSum(query, Lookup(sentences, topSentences[i]), idfs) >= IdfSum(query, Lookup(sentences, topSentences[j]), idfs)
    ensures forall i, j :: 0 <= i < j < n ==>
      IdfSum(query, Lookup(sentences, topSentences[i]), idfs) == IdfSum(query, Lookup(sentences, topSentences[j]), idfs) ==>
      Density(Lookup(sentences, topSentences[i]), query) >= Density(Lookup(sentences, topSentences[j]), query)
    ensures forall k :: 0 <= k < |sentences| && sentences[k].key !in topSentences ==>
      forall f :: f in topSentences ==>
        AtLeast(SentenceKey(query, Lookup(sentences, f), idfs), SentenceKey(query, sentences[k].value, idfs))
  {
    var tuples := ComputeSentenceRankings(query, sentences, idfs);

    var sentencesSorted := Names(SortDescending(tuples));
    topSentences := [];
    for i := 0 to n
      invariant topSentences == sentencesSorted[..i]
    {
      topSentences := topSentences + [sentencesSorted[i]];
    }

    TopSentencesProperties(query, sentences, idfs, n);
  }

  /** The keys of the two sentences of the example below. */
  lemma TieExampleKeys(idfs: map<string, real>)
    ensures SentenceKey({"cat"}, ["cat", "sat", "quietly"], idfs).major == SentenceKey({"cat"}, ["cat", "ran"], idfs).major
    ensures SentenceKey({"cat"}, ["cat", "sat", "quietly"], idfs).minor == 1.0 / 3.0
    ensures SentenceKey({"cat"}, ["cat", "ran"], idfs).minor == 1.0 / 2.0
  {
    var a: seq<string>, b: seq<string> := ["cat", "sat", "quietly"], ["cat", "ran"];
    SumOverRemove({"cat"}, IdfTerm(a, idfs), "cat");
    SumOverRemove({"cat"}, IdfTerm(b, idfs), "cat");
    assert {"cat"} - {"cat"} == {};
    assert QueryWordCount(a, {"cat"}) == 1 by {
      assert a[..2][..1] == a[..1] && a[..1][..0] == [];
    }
    assert QueryWordCount(b, {"cat"}) == 1 by {
      assert b[..1][..0] == [];
    }
  }

  /** With equal idf sums, the denser sentence comes first, whatever the
      order of the dictionary: "A cat sat quietly." and "The cat ran." with
      their stopwords removed, for the query {"cat"}. */
  lemma DensityBreaksTie(idfs: map<string, real>)
    ensures var sentences := [Entry("A cat sat quietly.", ["cat", "sat", "quietly"]), Entry("The cat ran.", ["cat", "ran"])];
      Top(SentenceRankings({"cat"}, sentences, idfs), 1) == ["The cat ran."]
  {
    var sentences := [Entry("A cat sat quietly.", ["cat", "sat", "quietly"]), Entry("The cat ran.", ["cat", "ran"])];
    var s := SentenceRankings({"cat"}, sentences, idfs);
    TieExampleKeys(idfs);
    assert s == [s[0], s[1]];
    SortPair(s[0], s[1]);
  }
}
