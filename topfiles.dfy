/** `top_files`: rank the files by the sum of tf-idf over the query words
    and return the names of the best `n`. */
module TopFiles {
  import opened Dicts
  import opened Sums
  import opened Ranking
  import opened Idf

  /** `files[filename].count(word)`. */
  function Occurrences(words: seq<string>, w: string): nat
  {
    multiset(words)[w]
  }

  /** What one query word adds to a file's score: its number of occurrences
      times its idf when the file contains it, and nothing otherwise. The
      test `w in idfs` never fails where the caller meets `IdfsCover`; it
      only keeps the term total. */
  function TfIdf(words: seq<string>, idfs: map<string, real>, w: string): real
  {
    if w in words && w in idfs then Occurrences(words, w) as real * idfs[w] else 0.0
  }

  function TfIdfTerm(words: seq<string>, idfs: map<string, real>): string -> real
  {
    w => TfIdf(words, idfs, w)
  }

  /** The score `tf_idf_sum` of a file with word list `words`. */
  ghost function FileScore(query: set<string>, words: seq<string>, idfs: map<string, real>): real
  {
    SumOver(query, TfIdfTerm(words, idfs))
  }

  /** The items of the `rankings` dict: each file name with its score, in the
      order of `files`. */
  ghost function Rankings(query: set<string>, files: Documents, idfs: map<string, real>): seq<Scored>
  {
    seq(|files|, i requires 0 <= i < |files| =>
      Scored(files[i].key, Rank(FileScore(query, files[i].value, idfs), 0.0)))
  }

  /** `idfs[word]` is defined for every query word found in a document. */
  predicate IdfsCover(query: set<string>, docs: Documents, idfs: map<string, real>)
  {
    forall i, w :: 0 <= i < |docs| && w in query && w in docs[i].value ==> w in idfs
  }

  /** Lines 123-129: the score of one file. */
  method ScoreFile(query: set<string>, words: seq<string>, idfs: map<string, real>) returns (tfIdfSum: real)
    requires forall w :: w in query && w in words ==> w in idfs
    ensures tfIdfSum == FileScore(query, words, idfs)
  {
    tfIdfSum := 0.0;
    var rest := query;
    while rest != {}
      invariant rest <= query
      invariant tfIdfSum == SumOver(query - rest, TfIdfTerm(words, idfs))
      decreases rest
    {
      var word :| word in rest;
      if word in words {
        var tf := Occurrences(words, word);
        var idf := idfs[word];
        tfIdfSum := tfIdfSum + tf as real * idf;
        assert TfIdf(words, idfs, word) == tf as real * idf;
      } else {
        assert TfIdf(words, idfs, word) == 0.0;
      }
      SumStep(query, rest, TfIdfTerm(words, idfs), word);
      rest := rest - {word};
    }
    assert query - rest == query;
  }

  /** Lines 121-130: the `rankings` dict, as its items in insertion order. */
  method ComputeRankings(query: set<string>, files: Documents, idfs: map<string, real>)
    returns (rankings: seq<Scored>)
    requires IdfsCover(query, files, idfs)
    ensures rankings == Rankings(query, files, idfs)
  {
    rankings := [];
    for i := 0 to |files|
      invariant |rankings| == i
      invariant forall j :: 0 <= j < i ==>
        rankings[j] == Scored(files[j].key, Rank(FileScore(query, files[j].value, idfs), 0.0))
    {
      var tfIdfSum := ScoreFile(query, files[i].value, idfs);
      rankings := rankings + [Scored(files[i].key, Rank(tfIdfSum, 0.0))];
    }
  }

  /** The names of the files, in order, are their distinct keys. */
  lemma RankingsNames(query: set<string>, files: Documents, idfs: map<string, real>)
    requires UniqueKeys(files)
    ensures Distinct(Names(Rankings(query, files, idfs)))
    ensures forall f :: f in Keys(files) <==> f in Names(Rankings(query, files, idfs))
  {
    var names := Names(Rankings(query, files, idfs));
    assert forall i :: 0 <= i < |files| ==> names[i] == files[i].key;
    forall f | f in Keys(files) ensures f in names {
      var i :| 0 <= i < |files| && files[i].key == f;
      assert names[i] == f;
    }
  }

  /** The key a file is ranked by is its score. */
  lemma RankingsRankOf(query: set<string>, files: Documents, idfs: map<string, real>, f: string)
    requires UniqueKeys(files) && f in Keys(files)
    ensures f in Names(Rankings(query, files, idfs))
    ensures RankOf(Rankings(query, files, idfs), f) == Rank(FileScore(query, Lookup(files, f), idfs), 0.0)
  {
    var s := Rankings(query, files, idfs);
    RankingsNames(query, files, idfs);
    var p := IndexOf(files, f);
    RankOfMember(s, p);
  }

  /** The first `n` names of the sorted rankings are `n` distinct files. */
  lemma TopFilesNames(query: set<string>, files: Documents, idfs: map<string, real>, n: nat)
    requires UniqueKeys(files) && n <= |files|
    ensures |Top(Rankings(query, files, idfs), n)| == n
    ensures Distinct(Top(Rankings(query, files, idfs), n))
    ensures forall f :: f in Top(Rankings(query, files, idfs), n) ==> f in Keys(files)
  {
    RankingsNames(query, files, idfs);
    TopDistinct(Rankings(query, files, idfs), n);
  }

  /** The first `n` files come in non-increasing order of score. */
  lemma TopFilesOrdered(query: set<string>, files: Documents, idfs: map<string, real>, n: nat)
    requires UniqueKeys(files) && n <= |files|
    ensures forall i, j :: 0 <= i < j < n ==>
      Top(Rankings(query, files, idfs), n)[i] in Keys(files) && Top(Rankings(query, files, idfs), n)[j] in Keys(files) &&
      FileScore(query, Lookup(files, Top(Rankings(query, files, idfs), n)[i]), idfs)
      >= FileScore(query, Lookup(files, Top(Rankings(query, files, idfs), n)[j]), idfs)
  {
    var rankings := Rankings(query, files, idfs);
    var top := Top(rankings, n);
    RankingsNames(query, files, idfs);
    TopDistinct(rankings, n);
    TopOrdered(rankings, n);
    forall i | 0 <= i < n
      ensures top[i] in Keys(files) && RankOf(rankings, top[i]) == Rank(FileScore(query, Lookup(files, top[i]), idfs), 0.0)
    {
      assert top[i] in top;
      RankingsRankOf(query, files, idfs, top[i]);
    }
  }

  /** No file left out of the first `n` scores higher than one of them. */
  lemma TopFilesBest(query: set<string>, files: Documents, idfs: map<string, real>, n: nat)
    requires UniqueKeys(files) && n <= |files|
    ensures forall k :: 0 <= k < |files| && files[k].key !in Top(Rankings(query, files, idfs), n) ==>
      forall f :: f in Top(Rankings(query, files, idfs), n) ==>
        f in Keys(files) && FileScore(query, Lookup(files, f), idfs) >= FileScore(query, files[k].value, idfs)
  {
    var rankings := Rankings(query, files, idfs);
    var top := Top(rankings, n);
    RankingsNames(query, files, idfs);
    TopBest(rankings, n);
    forall f | f in top
      ensures f in Keys(files) && RankOf(rankings, f) == Rank(FileScore(query, Lookup(files, f), idfs), 0.0)
    {
      RankingsRankOf(query, files, idfs, f);
    }
    assert forall k :: 0 <= k < |files| ==>
      rankings[k].name == files[k].key && rankings[k].rank.major == FileScore(query, files[k].value, idfs);
  }

  /** The first `n` names of the sorted rankings are `n` distinct files, in
      non-increasing order of score, and no file left out scores higher than
      one of them. */
  lemma TopFilesProperties(query: set<string>, files: Documents, idfs: map<string, real>, n: nat)
    requires UniqueKeys(files) && n <= |files|
    ensures |Top(Rankings(query, files, idfs), n)| == n
    ensures Distinct(Top(Rankings(query, files, idfs), n))
    ensures forall f :: f in Top(Rankings(query, files, idfs), n) ==> f in Keys(files)
    ensures forall i, j :: 0 <= i < j < n ==>
      FileScore(query, Lookup(files, Top(Rankings(query, files, idfs), n)[i]), idfs)
      >= FileScore(query, Lookup(files, Top(Rankings(query, files, idfs), n)[j]), idfs)
    ensures forall k :: 0 <= k < |files| && files[k].key !in Top(Rankings(query, files, idfs), n) ==>
      forall f :: f in Top(Rankings(query, files, idfs), n) ==>
        FileScore(query, Lookup(files, f), idfs) >= FileScore(query, files[k].value, idfs)
  {
    TopFilesNames(query, files, idfs, n);
    TopFilesOrdered(query, files, idfs, n);
    TopFilesBest(query, files, idfs, n);
  }

  /** `top_files`. Indexing the sorted list at line 137 fails unless `n` is
      at most the number of files. */
  method TopFiles(query: set<string>, files: Documents, idfs: map<string, real>, n: nat)
    returns (nTopFiles: seq<string>)
    requires UniqueKeys(files)
    requires IdfsCover(query, files, idfs)
    requires n <= |files|
    ensures nTopFiles == Top(Rankings(query, files, idfs), n)
    ensures |nTopFiles| == n && Distinct(nTopFiles)
    ensures forall f :: f in nTopFiles ==> f in Keys(files)
    ensures forall i, j :: 0 <= i < j < n ==>
      FileScore(query, Lookup(files, nTopFiles[i]), idfs) >= FileScore(query, Lookup(files, nTopFiles[j]), idfs)
    ensures forall k :: 0 <= k < |files| && files[k].key !in nTopFiles ==>
      forall f :: f in nTopFiles ==>
        FileScore(query, Lookup(files, f), idfs) >= FileScore(query, files[k].value, idfs)
  {
    var rankings := ComputeRankings(query, files, idfs);

    var topFiles := Names(SortDescending(rankings));
    nTopFiles := [];
    for i := 0 to n
      invariant nTopFiles == topFiles[..i]
    {
      nTopFiles := nTopFiles + [topFiles[i]];
    }

    TopFilesProperties(query, files, idfs, n);
  }

  /** Query words absent from the file contribute nothing. */
  lemma FileScoreOnlyPresentWords(query: set<string>, words: seq<string>, idfs: map<string, real>)
    ensures FileScore(query, words, idfs) == FileScore((set w | w in query && w in words), words, idfs)
  {
    SumOverDropZeros(query, (set w | w in query && w in words), TfIdfTerm(words, idfs));
  }

  /** More occurrences of query words never lower a file's score, as long as
      the idf values are not negative (which `log(N / df)` with `df <= N`
      guarantees for the real logarithm). */
  lemma FileScoreMonotone(query: set<string>, words: seq<string>, more: seq<string>, idfs: map<string, real>)
    requires forall w :: w in query && w in idfs ==> idfs[w] >= 0.0
    requires forall w :: w in query ==> Occurrences(words, w) <= Occurrences(more, w)
    ensures FileScore(query, words, idfs) <= FileScore(query, more, idfs)
  {
    forall w | w in query
      ensures TfIdfTerm(words, idfs)(w) <= TfIdfTerm(more, idfs)(w)
    {
      if w in words && w in idfs {
        assert multiset(more)[w] > 0;
        var a, b := Occurrences(words, w) as real, Occurrences(more, w) as real;
        assert a * idfs[w] <= b * idfs[w] by {
          assert (b - a) * idfs[w] >= 0.0;
        }
      }
    }
    SumOverMonotone(query, TfIdfTerm(words, idfs), TfIdfTerm(more, idfs));
  }

  /** Where the stable sort puts two files: `d` ahead of `e` exactly when
      its score is greater, or the scores are equal and `d` comes first in
      `files`. */
  lemma FileOrder(query: set<string>, files: Documents, idfs: map<string, real>, d: nat, e: nat)
    requires UniqueKeys(files) && d < |files| && e < |files| && d != e
    ensures var s := Rankings(query, files, idfs);
      var sd, se := FileScore(query, files[d].value, idfs), FileScore(query, files[e].value, idfs);
      Before(SortDescending(s), s[d], s[e]) <==> sd > se || (sd == se && d < e)
  {
    RankingsNames(query, files, idfs);
    SortOrder(Rankings(query, files, idfs), d, e);
  }

  /** Raising one file's occurrences of the query words, with the idfs fixed
      and not negative, keeps that file ahead of every file it was ahead of. */
  lemma MoreOccurrencesKeepOrder(query: set<string>, files: Documents, idfs: map<string, real>,
                                 d: nat, more: seq<string>, e: nat)
    requires UniqueKeys(files) && d < |files| && e < |files| && d != e
    requires forall w :: w in query && w in idfs ==> idfs[w] >= 0.0
    requires forall w :: w in query ==> Occurrences(files[d].value, w) <= Occurrences(more, w)
    ensures var s := Rankings(query, files, idfs);
      var s2 := Rankings(query, files[d := Entry(files[d].key, more)], idfs);
      Before(SortDescending(s), s[d], s[e]) ==> Before(SortDescending(s2), s2[d], s2[e])
  {
    var files2 := files[d := Entry(files[d].key, more)];
    assert UniqueKeys(files2) by {
      assert forall i :: 0 <= i < |files| ==> files2[i].key == files[i].key;
    }
    FileOrder(query, files, idfs, d, e);
    FileOrder(query, files2, idfs, d, e);
    FileScoreMonotone(query, files[d].value, more, idfs);
    assert files2[e] == files[e] && files2[d].value == more;
  }

  /** A single-word query scores a file by that word's term alone. */
  lemma SingleWordScore(w: string, words: seq<string>, idfs: map<string, real>)
    ensures FileScore({w}, words, idfs) == TfIdf(words, idfs, w)
  {
    SumOverRemove({w}, TfIdfTerm(words, idfs), w);
    assert {w} - {w} == {};
  }

  /** The scores of the word lists of the three files below for the query
      {"cat"}. */
  lemma CatScores(idfs: map<string, real>)
    requires "cat" in idfs
    ensures FileScore({"cat"}, ["cat", "sat"], idfs) == idfs["cat"]
    ensures FileScore({"cat"}, ["dog", "ran"], idfs) == 0.0
    ensures FileScore({"cat"}, ["cats", "dogs", "run"], idfs) == 0.0
  {
    SingleWordScore("cat", ["cat", "sat"], idfs);
    SingleWordScore("cat", ["dog", "ran"], idfs);
    SingleWordScore("cat", ["cats", "dogs", "run"], idfs);
    assert Occurrences(["cat", "sat"], "cat") == 1 by {
      assert ["cat", "sat"] == ["cat"] + ["sat"];
    }
  }

  /** Three files "the cat sat", "the dog ran" and "cats and dogs run" with
      the stopwords removed, and the query {"cat"}: for any positive idf of
      "cat" the first file scores higher than the other two, which tie. */
  lemma CatOrder(files: Documents, idfs: map<string, real>)
    requires files == [Entry("A", ["cat", "sat"]), Entry("B", ["dog", "ran"]), Entry("C", ["cats", "dogs", "run"])]
    requires "cat" in idfs && idfs["cat"] > 0.0
    ensures Descending(Rankings({"cat"}, files, idfs))
  {
    var s := Rankings({"cat"}, files, idfs);
    CatScores(idfs);
    assert s[0].rank == Rank(idfs["cat"], 0.0);
    assert s[1].rank == Rank(0.0, 0.0) && s[2].rank == Rank(0.0, 0.0);
  }

  /** For the same files and query, the best file is the first. */
  lemma CatRanking(files: Documents, idfs: map<string, real>)
    requires files == [Entry("A", ["cat", "sat"]), Entry("B", ["dog", "ran"]), Entry("C", ["cats", "dogs", "run"])]
    requires "cat" in idfs && idfs["cat"] > 0.0
    ensures Top(Rankings({"cat"}, files, idfs), 1) == ["A"]
  {
    var s := Rankings({"cat"}, files, idfs);
    CatOrder(files, idfs);
    TopOfSorted(s, 1);
    assert Names(s)[..1] == [s[0].name];
  }

  /** The same three files with the idf table `compute_idfs` builds for
      them: "cat" occurs in one file of three, so its idf is log(3), and
      when log(3) is positive the best file is the first. */
  lemma CatScenario(ln: real -> real)
    requires ln(3.0) > 0.0
    ensures var files := [Entry("A", ["cat", "sat"]), Entry("B", ["dog", "ran"]), Entry("C", ["cats", "dogs", "run"])];
      DocFreq(files, "cat") == 1 && IdfTable(files, ln)["cat"] == ln(3.0)
      && Top(Rankings({"cat"}, files, IdfTable(files, ln)), 1) == ["A"]
  {
    var files := [Entry("A", ["cat", "sat"]), Entry("B", ["dog", "ran"]), Entry("C", ["cats", "dogs", "run"])];
    assert "cat" !in files[1].value && "cat" !in files[2].value && "cat" in files[0].value;
    assert files[..2][..1] == files[..1] && files[..1][..0] == [];
    assert DocFreq(files, "cat") == 1;
    IdfTableProperties(files, ln);
    CatRanking(files, IdfTable(files, ln));
  }
}
