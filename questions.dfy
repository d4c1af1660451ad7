/** Lines 19-45 of `main`: tokenize the corpus and the query, pick the best
    files, collect their sentences and pick the best sentences. Reading the
    corpus, reading the query and printing are left to the caller. */
module Questions {
  import opened Dicts
  import opened Tokenize
  import opened Idf
  import opened Ranking
  import opened TopFiles
  import opened TopSentences
  import opened Sentences

  /** `FILE_MATCHES` and `SENTENCE_MATCHES`. */
  const FileMatches: nat := 2
  const SentenceMatches: nat := 2

  /** What `main` ends with: the matching sentences it prints, or the
      `IndexError` that `top_files` or `top_sentences` raises when there are
      fewer candidates than matches asked for. */
  datatype Outcome = Answered(matches: seq<string>) | IndexError

  /** The dict comprehension `file_words`: each file name mapped to the
      tokens of its text, in the order of `files`. */
  function FileWords(files: Dict<string>, wordTokenize: string -> seq<string>, stopwords: set<string>): Documents
  {
    seq(|files|, i requires 0 <= i < |files| => Entry(files[i].key, Tokens(files[i].value, wordTokenize, stopwords)))
  }

  /** `file_words` has the same keys as `files`, in the same places. */
  lemma FileWordsKeys(files: Dict<string>, wordTokenize: string -> seq<string>, stopwords: set<string>)
    requires UniqueKeys(files)
    ensures UniqueKeys(FileWords(files, wordTokenize, stopwords))
    ensures Keys(FileWords(files, wordTokenize, stopwords)) == Keys(files)
  {
    var fw := FileWords(files, wordTokenize, stopwords);
    assert forall i :: 0 <= i < |files| ==> fw[i].key == files[i].key;
    forall f | f in Keys(files) ensures f in Keys(fw) {
      var i :| 0 <= i < |files| && files[i].key == f;
      assert fw[i].key == f;
    }
  }

  /** Every query word found in a document has an idf, because the table
      covers the whole vocabulary; so `idfs[word]` never raises `KeyError`. */
  lemma IdfTableCovers(query: set<string>, docs: Documents, ln: real -> real)
    ensures IdfsCover(query, docs, IdfTable(docs, ln))
  {
    forall i, w | 0 <= i < |docs| && w in query && w in docs[i].value
      ensures w in IdfTable(docs, ln)
    {
      VocabularyMembers(docs, w);
    }
  }

  /** The files `main` takes its sentences from. */
  ghost function BestFiles(files: Dict<string>, query: set<string>, wordTokenize: string -> seq<string>,
                           stopwords: set<string>, ln: real -> real): (r: seq<string>)
    requires UniqueKeys(files) && FileMatches <= |files|
    ensures |r| == FileMatches && Distinct(r)
    ensures forall i :: 0 <= i < |r| ==> r[i] in Keys(files)
  {
    var fileWords := FileWords(files, wordTokenize, stopwords);
    FileWordsKeys(files, wordTokenize, stopwords);
    TopFilesProperties(query, fileWords, IdfTable(fileWords, ln), FileMatches);
    Top(Rankings(query, fileWords, IdfTable(fileWords, ln)), FileMatches)
  }

  /** What `main` computes from the corpus `files` and the query text. */
  ghost function Answers(files: Dict<string>, queryText: string, sentTokenize: string -> seq<string>,
                         wordTokenize: string -> seq<string>, stopwords: set<string>, ln: real -> real): Outcome
    requires UniqueKeys(files)
  {
    var query := Elements(Tokens(queryText, wordTokenize, stopwords));
    if |files| < FileMatches then IndexError
    else
      var filenames := BestFiles(files, query, wordTokenize, stopwords, ln);
      var sentences := SentenceMap(files, filenames, sentTokenize, wordTokenize, stopwords);
      SentenceMapProperties(files, filenames, sentTokenize, wordTokenize, stopwords);
      if |sentences| < SentenceMatches then IndexError
      else Answered(Top(SentenceRankings(query, sentences, IdfTable(sentences, ln)), SentenceMatches))
  }

  /** An answer is `SENTENCE_MATCHES` distinct sentences, each a sentence of
      one of the best files with a nonempty token list; the only failure is
      a corpus with too few files or too few such sentences. */
  lemma AnswersProperties(files: Dict<string>, queryText: string, sentTokenize: string -> seq<string>,
                          wordTokenize: string -> seq<string>, stopwords: set<string>, ln: real -> real)
    requires UniqueKeys(files)
    ensures Answers(files, queryText, sentTokenize, wordTokenize, stopwords, ln).IndexError? <==>
      |files| < FileMatches
      || |SentenceMap(files, BestFiles(files, Elements(Tokens(queryText, wordTokenize, stopwords)), wordTokenize, stopwords, ln),
                      sentTokenize, wordTokenize, stopwords)| < SentenceMatches
    ensures Answers(files, queryText, sentTokenize, wordTokenize, stopwords, ln).Answered? ==>
      var matches := Answers(files, queryText, sentTokenize, wordTokenize, stopwords, ln).matches;
      var filenames := BestFiles(files, Elements(Tokens(queryText, wordTokenize, stopwords)), wordTokenize, stopwords, ln);
      |matches| == SentenceMatches && Distinct(matches)
      && forall i :: 0 <= i < |matches| ==>
        matches[i] in Candidates(files, filenames, sentTokenize) && Tokens(matches[i], wordTokenize, stopwords) != []
  {
    if |files| >= FileMatches {
      var query := Elements(Tokens(queryText, wordTokenize, stopwords));
      var filenames := BestFiles(files, query, wordTokenize, stopwords, ln);
      var sentences := SentenceMap(files, filenames, sentTokenize, wordTokenize, stopwords);
      SentenceMapProperties(files, filenames, sentTokenize, wordTokenize, stopwords);
      if |sentences| >= SentenceMatches {
        TopSentencesProperties(query, sentences, IdfTable(sentences, ln), SentenceMatches);
      }
    }
  }

  /** Lines 20-23: tokenize every file. */
  method TokenizeFiles(files: Dict<string>, wordTokenize: string -> seq<string>, stopwords: set<string>)
    returns (fileWords: Documents)
    ensures fileWords == FileWords(files, wordTokenize, stopwords)
  {
    fileWords := [];
    for i := 0 to |files|
      invariant |fileWords| == i
      invariant forall j :: 0 <= j < i ==> fileWords[j] == Entry(files[j].key, Tokens(files[j].value, wordTokenize, stopwords))
    {
      var words := FilterTokens(wordTokenize(files[i].value), stopwords);
      fileWords := fileWords + [Entry(files[i].key, words)];
    }
  }

  /** Lines 19-45 of `main`, from the loaded corpus and the query text to
      the sentences it would print. */
  method Answer(files: Dict<string>, queryText: string, sentTokenize: string -> seq<string>,
                wordTokenize: string -> seq<string>, stopwords: set<string>, ln: real -> real)
    returns (outcome: Outcome)
    requires UniqueKeys(files)
    ensures outcome == Answers(files, queryText, sentTokenize, wordTokenize, stopwords, ln)
  {
    var fileWords := TokenizeFiles(files, wordTokenize, stopwords);
    var fileIdfs := ComputeIdfs(fileWords, ln);
    var queryWords := FilterTokens(wordTokenize(queryText), stopwords);
    var query := Elements(queryWords);
    if |fileWords| < FileMatches {
      return IndexError;
    }
    FileWordsKeys(files, wordTokenize, stopwords);
    IdfTableCovers(query, fileWords, ln);
    var filenames := TopFiles.TopFiles(query, fileWords, fileIdfs, FileMatches);
    assert filenames == BestFiles(files, query, wordTokenize, stopwords, ln);
    var sentences := BuildSentenceMap(files, filenames, sentTokenize, wordTokenize, stopwords);
    var idfs := ComputeIdfs(sentences, ln);
    if |sentences| < SentenceMatches {
      return IndexError;
    }
    IdfTableCovers(query, sentences, ln);
    var matches := TopSentences.TopSentences(query, sentences, idfs, SentenceMatches);
    outcome := Answered(matches);
  }
}
