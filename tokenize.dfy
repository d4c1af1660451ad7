/** The token filter of `tokenize`: the word list that NLTK's word
    tokenizer makes of the lower-cased text goes in; the words that are
    neither punctuation symbols nor stopwords come out, in order. */
module Tokenize {

  /** Python's `string.punctuation`. */
  const PunctuationChars: string := "!\"#$%&'()*+,-./:;<=>?@[\\]^_`{|}~"

  /** Membership in `[i for i in string.punctuation]`, the list of the
      single-character strings of those symbols. A token made of several
      symbols, such as `--`, is not in it. */
  predicate IsPunctuationSymbol(word: string)
  {
    |word| == 1 && word[0] in PunctuationChars
  }

  /** The filter test of the loop: not a punctuation symbol, not a stopword. */
  predicate Kept(word: string, stopwords: set<string>)
  {
    !IsPunctuationSymbol(word) && word !in stopwords
  }

  /** The words of `words` that pass the filter. */
  function Clean(words: seq<string>, stopwords: set<string>): seq<string>
  {
    if words == [] then []
    else
      var last := words[|words| - 1];
      Clean(words[..|words| - 1], stopwords) + (if Kept(last, stopwords) then [last] else [])
  }

  /** `tokenize(document)`: `wordTokenize` stands for NLTK's word
      tokenizer applied to the lower-cased document. */
  function Tokens(document: string, wordTokenize: string -> seq<string>, stopwords: set<string>): (r: seq<string>)
    ensures IsSubsequence(r, wordTokenize(document))
  {
    CleanIsSubsequence(wordTokenize(document), stopwords);
    Clean(wordTokenize(document), stopwords)
  }

  /** `r` is obtained from `s` by deleting elements. */
  predicate IsSubsequence(r: seq<string>, s: seq<string>)
  {
    if r == [] then true
    else if s == [] then false
    else
      (r[|r| - 1] == s[|s| - 1] && IsSubsequence(r[..|r| - 1], s[..|s| - 1]))
      || IsSubsequence(r, s[..|s| - 1])
  }

  /** The loop of `tokenize` that builds `wordListClean`. */
  method FilterTokens(wordList: seq<string>, stopwords: set<string>) returns (wordListClean: seq<string>)
    ensures wordListClean == Clean(wordList, stopwords)
  {
    wordListClean := [];
    for i := 0 to |wordList|
      invariant wordListClean == Clean(wordList[..i], stopwords)
    {
      var word := wordList[i];
      if Kept(word, stopwords) {
        wordListClean := wordListClean + [word];
      }
      assert wordList[..i + 1][..i] == wordList[..i];
    }
    assert wordList[..|wordList|] == wordList;
  }

  /** Filtering a concatenation filters each part. */
  lemma {:induction false} CleanAppend(a: seq<string>, b: seq<string>, stopwords: set<string>)
    ensures Clean(a + b, stopwords) == Clean(a, stopwords) + Clean(b, stopwords)
    decreases |b|
  {
    if b == [] {
      assert a + b == a;
    } else {
      var last := b[|b| - 1];
      assert (a + b)[..|a + b| - 1] == a + b[..|b| - 1];
      CleanAppend(a, b[..|b| - 1], stopwords);
    }
  }

  /** Exactly the kept words are kept, each with all of its occurrences. */
  lemma {:induction false} CleanCounts(words: seq<string>, stopwords: set<string>, w: string)
    ensures multiset(Clean(words, stopwords))[w] == if Kept(w, stopwords) then multiset(words)[w] else 0
    decreases |words|
  {
    if words != [] {
      var init := words[..|words| - 1];
      assert words == init + [words[|words| - 1]];
      CleanCounts(init, stopwords, w);
    }
  }

  /** A word is in the result if and only if it is in the input and kept. */
  lemma CleanMembers(words: seq<string>, stopwords: set<string>, w: string)
    ensures w in Clean(words, stopwords) <==> w in words && Kept(w, stopwords)
  {
    CleanCounts(words, stopwords, w);
  }

  /** The kept words stay in their original order. */
  lemma {:induction false} CleanIsSubsequence(words: seq<string>, stopwords: set<string>)
    ensures IsSubsequence(Clean(words, stopwords), words)
    decreases |words|
  {
    if words != [] {
      var init := words[..|words| - 1];
      var last := words[|words| - 1];
      CleanIsSubsequence(init, stopwords);
      var r := Clean(words, stopwords);
      if Kept(last, stopwords) {
        assert r[|r| - 1] == last && r[..|r| - 1] == Clean(init, stopwords);
      } else {
        assert r == Clean(init, stopwords);
        assert r != [] ==> IsSubsequence(r, words[..|words| - 1]);
      }
    }
  }

  /** Filtering an already filtered list changes nothing. */
  lemma {:induction false} CleanIdempotent(words: seq<string>, stopwords: set<string>)
    ensures Clean(Clean(words, stopwords), stopwords) == Clean(words, stopwords)
    decreases |words|
  {
    if words != [] {
      var init := words[..|words| - 1];
      var last := words[|words| - 1];
      var tail := if Kept(last, stopwords) then [last] else [];
      CleanIdempotent(init, stopwords);
      CleanAppend(Clean(init, stopwords), tail, stopwords);
      if Kept(last, stopwords) {
        assert Clean(tail, stopwords) == Clean([], stopwords) + [last] by {
          assert tail[..0] == [];
        }
      }
    }
  }

  /** Multi-character punctuation runs are not filtered out. */
  lemma DoubleDashIsKept(stopwords: set<string>)
    requires "--" !in stopwords
    ensures Clean(["--"], stopwords) == ["--"]
  {
    assert ["--"][..0] == [];
  }

  /** A word is a token of a document exactly when the word tokenizer
      produces it and it is neither punctuation nor a stopword. */
  lemma TokensMembers(document: string, wordTokenize: string -> seq<string>, stopwords: set<string>, w: string)
    ensures w in Tokens(document, wordTokenize, stopwords) <==> w in wordTokenize(document) && Kept(w, stopwords)
  {
    CleanMembers(wordTokenize(document), stopwords, w);
  }
}
