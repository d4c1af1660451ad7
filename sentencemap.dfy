/** The part of `main` that collects the candidate sentences of the best
    files: every passage (line) of each file is split into sentences, and
    each sentence whose token list is not empty is mapped to that list. */
module Sentences {
  import opened Dicts
  import opened Tokenize
  import opened Idf
  import opened Ranking
  import opened TopSentences

  /** `s.split(sep)`: the pieces between the separators, including empty
      ones at either end; there is always at least one piece. */
  function Split(s: string, sep: char): (r: seq<string>)
    ensures |r| >= 1
  {
    if s == [] then [""]
    else
      var parts := Split(s[..|s| - 1], sep);
      var c := s[|s| - 1];
      if c == sep then parts + [""]
      else parts[..|parts| - 1] + [parts[|parts| - 1] + [c]]
  }

  /** `sep.join(parts)`, the inverse of `Split`. */
  function Join(parts: seq<string>, sep: char): string
  {
    if parts == [] then ""
    else if |parts| == 1 then parts[0]
    else Join(parts[..|parts| - 1], sep) + [sep] + parts[|parts| - 1]
  }

  lemma JoinSnoc(parts: seq<string>, sep: char, last: string)
    requires parts != []
    ensures Join(parts + [last], sep) == Join(parts, sep) + [sep] + last
  {
    assert (parts + [last])[..|parts|] == parts;
  }

  /** Joining the last piece of a nonempty list with more characters. */
  lemma {:induction false} JoinExtendLast(parts: seq<string>, sep: char, c: char)
    requires parts != []
    ensures Join(parts[..|parts| - 1] + [parts[|parts| - 1] + [c]], sep) == Join(parts, sep) + [c]
  {
    var init := parts[..|parts| - 1];
    var last := parts[|parts| - 1];
    if init == [] {
      assert parts == [last];
    } else {
      JoinSnoc(init, sep, last + [c]);
      JoinSnoc(init, sep, last);
      assert parts == init + [last];
    }
  }

  /** Splitting loses nothing: joining the pieces gives the text back. */
  lemma {:induction false} JoinSplit(s: string, sep: char)
    ensures Join(Split(s, sep), sep) == s
    decreases |s|
  {
    if s != [] {
      var init := s[..|s| - 1];
      var c := s[|s| - 1];
      var parts := Split(init, sep);
      JoinSplit(init, sep);
      if c == sep {
        JoinSnoc(parts, sep, "");
      } else {
        JoinExtendLast(parts, sep, c);
      }
      assert s == init + [c];
    }
  }

  /** No piece contains the separator. */
  lemma {:induction false} SplitPiecesFree(s: string, sep: char)
    ensures forall i :: 0 <= i < |Split(s, sep)| ==> sep !in Split(s, sep)[i]
    decreases |s|
  {
    if s != [] {
      var init := s[..|s| - 1];
      var parts := Split(init, sep);
      SplitPiecesFree(init, sep);
      var r := Split(s, sep);
      if s[|s| - 1] != sep {
        forall i | 0 <= i < |r| ensures sep !in r[i] {
          if i < |r| - 1 {
            assert r[i] == parts[i];
          } else {
            assert r[i] == parts[|parts| - 1] + [s[|s| - 1]];
          }
        }
      } else {
        assert forall i :: 0 <= i < |r| - 1 ==> r[i] == parts[i];
      }
    }
  }

  /** The sentences of the passages, in order: `sentTokenize` stands for
      NLTK's sentence tokenizer. */
  function PassageSentences(passages: seq<string>, sentTokenize: string -> seq<string>): seq<string>
  {
    if passages == [] then []
    else PassageSentences(passages[..|passages| - 1], sentTokenize) + sentTokenize(passages[|passages| - 1])
  }

  /** All sentences of the named files, in the order the loops of `main`
      visit them, duplicates included. A file name that is not a key of
      `files` would raise `KeyError`. */
  function Candidates(files: Dict<string>, filenames: seq<string>, sentTokenize: string -> seq<string>): seq<string>
    requires forall i :: 0 <= i < |filenames| ==> filenames[i] in Keys(files)
  {
    if filenames == [] then []
    else
      Candidates(files, filenames[..|filenames| - 1], sentTokenize)
      + PassageSentences(Split(Lookup(files, filenames[|filenames| - 1]), '\n'), sentTokenize)
  }

  /** A sentence comes from the passages exactly when it is a sentence of
      one of them. */
  lemma {:induction false} PassageSentencesMembers(passages: seq<string>, sentTokenize: string -> seq<string>, x: string)
    ensures x in PassageSentences(passages, sentTokenize) <==>
      exists j :: 0 <= j < |passages| && x in sentTokenize(passages[j])
    decreases |passages|
  {
    if passages != [] {
      var init := passages[..|passages| - 1];
      PassageSentencesMembers(init, sentTokenize, x);
      assert forall j :: 0 <= j < |init| ==> init[j] == passages[j];
    }
  }

  /** The loops visit the files in the order of `filenames`: the sentences
      of two lists of names are those of the first, then those of the
      second. */
  lemma {:induction false} CandidatesAppend(files: Dict<string>, a: seq<string>, b: seq<string>,
                                            sentTokenize: string -> seq<string>)
    requires forall f :: f in a ==> f in Keys(files)
    requires forall f :: f in b ==> f in Keys(files)
    ensures Candidates(files, a + b, sentTokenize) == Candidates(files, a, sentTokenize) + Candidates(files, b, sentTokenize)
    decreases |b|
  {
    if b == [] {
      assert a + b == a;
    } else {
      var init, last := b[..|b| - 1], b[|b| - 1];
      var here := PassageSentences(Split(Lookup(files, last), '\n'), sentTokenize);
      CandidatesAppend(files, a, init, sentTokenize);
      assert (a + b)[..|a + b| - 1] == a + init && (a + b)[|a + b| - 1] == last;
      calc {
        Candidates(files, a + b, sentTokenize);
        Candidates(files, a + init, sentTokenize) + here;
        (Candidates(files, a, sentTokenize) + Candidates(files, init, sentTokenize)) + here;
        { ConcatAssoc(Candidates(files, a, sentTokenize), Candidates(files, init, sentTokenize), here); }
        Candidates(files, a, sentTokenize) + (Candidates(files, init, sentTokenize) + here);
        Candidates(files, a, sentTokenize) + Candidates(files, b, sentTokenize);
      }
    }
  }

  /** Every sentence of a named file is a candidate. */
  lemma {:induction false} CandidateFromFile(files: Dict<string>, filenames: seq<string>,
                                             sentTokenize: string -> seq<string>, i: nat, x: string)
    requires forall k :: 0 <= k < |filenames| ==> filenames[k] in Keys(files)
    requires i < |filenames| && x in PassageSentences(Split(Lookup(files, filenames[i]), '\n'), sentTokenize)
    ensures x in Candidates(files, filenames, sentTokenize)
    decreases |filenames|
  {
    var init := filenames[..|filenames| - 1];
    if i < |init| {
      assert init[i] == filenames[i];
      CandidateFromFile(files, init, sentTokenize, i, x);
    }
  }

  /** Every candidate is a sentence of a named file; `i` is the position of
      one such file. */
  lemma {:induction false} CandidateSource(files: Dict<string>, filenames: seq<string>,
                                           sentTokenize: string -> seq<string>, x: string) returns (i: nat)
    requires forall k :: 0 <= k < |filenames| ==> filenames[k] in Keys(files)
    requires x in Candidates(files, filenames, sentTokenize)
    ensures i < |filenames| && x in PassageSentences(Split(Lookup(files, filenames[i]), '\n'), sentTokenize)
    decreases |filenames|
  {
    var init := filenames[..|filenames| - 1];
    if x in Candidates(files, init, sentTokenize) {
      i := CandidateSource(files, init, sentTokenize, x);
      assert init[i] == filenames[i];
    } else {
      i := |init|;
    }
  }

  /** A sentence is a candidate exactly when it is a sentence of one of the
      passages of one of the named files. */
  lemma CandidatesMembers(files: Dict<string>, filenames: seq<string>,
                          sentTokenize: string -> seq<string>, x: string)
    requires forall i :: 0 <= i < |filenames| ==> filenames[i] in Keys(files)
    ensures x in Candidates(files, filenames, sentTokenize) <==>
      exists i :: 0 <= i < |filenames| && x in PassageSentences(Split(Lookup(files, filenames[i]), '\n'), sentTokenize)
  {
    if x in Candidates(files, filenames, sentTokenize) {
      var i := CandidateSource(files, filenames, sentTokenize, x);
    }
    if exists i :: 0 <= i < |filenames| && x in PassageSentences(Split(Lookup(files, filenames[i]), '\n'), sentTokenize) {
      var i :| 0 <= i < |filenames| && x in PassageSentences(Split(Lookup(files, filenames[i]), '\n'), sentTokenize);
      CandidateFromFile(files, filenames, sentTokenize, i, x);
    }
  }

  /** The dictionary after the loop body has seen the sentences `ss` in
      order, starting from `m`. */
  function AddSentences(m: Documents, ss: seq<string>, wordTokenize: string -> seq<string>, stopwords: set<string>): (r: Documents)
    requires UniqueKeys(m)
    ensures UniqueKeys(r)
  {
    if ss == [] then m
    else
      var r := AddSentences(m, ss[..|ss| - 1], wordTokenize, stopwords);
      var sentence := ss[|ss| - 1];
      var tokens := Tokens(sentence, wordTokenize, stopwords);
      if tokens != [] then Put(r, sentence, tokens) else r
  }

  /** Each sentence is mapped to its own token list, which is not empty. */
  predicate TokensOfKeys(m: Documents, wordTokenize: string -> seq<string>, stopwords: set<string>)
  {
    forall i :: 0 <= i < |m| ==> m[i].value == Tokens(m[i].key, wordTokenize, stopwords) && m[i].value != []
  }

  /** A sentence is a key afterwards exactly when it was one before, or was
      seen and has a nonempty token list. */
  lemma {:induction false} AddSentencesKeys(m: Documents, ss: seq<string>, wordTokenize: string -> seq<string>,
                                            stopwords: set<string>, s: string)
    requires UniqueKeys(m)
    ensures s in Keys(AddSentences(m, ss, wordTokenize, stopwords)) <==>
      s in Keys(m) || (s in ss && Tokens(s, wordTokenize, stopwords) != [])
    decreases |ss|
  {
    if ss != [] {
      var init := ss[..|ss| - 1];
      AddSentencesKeys(m, init, wordTokenize, stopwords, s);
      assert ss == init + [ss[|ss| - 1]];
    }
  }

  /** Every entry keeps mapping its sentence to that sentence's tokens, so a
      later copy of a sentence rewrites the same list. */
  lemma {:induction false} AddSentencesValues(m: Documents, ss: seq<string>, wordTokenize: string -> seq<string>,
                                              stopwords: set<string>)
    requires UniqueKeys(m) && TokensOfKeys(m, wordTokenize, stopwords)
    ensures TokensOfKeys(AddSentences(m, ss, wordTokenize, stopwords), wordTokenize, stopwords)
    decreases |ss|
  {
    if ss != [] {
      var r := AddSentences(m, ss[..|ss| - 1], wordTokenize, stopwords);
      var sentence := ss[|ss| - 1];
      var tokens := Tokens(sentence, wordTokenize, stopwords);
      AddSentencesValues(m, ss[..|ss| - 1], wordTokenize, stopwords);
      if tokens != [] {
        var r2 := Put(r, sentence, tokens);
        forall i | 0 <= i < |r2|
          ensures r2[i].value == Tokens(r2[i].key, wordTokenize, stopwords) && r2[i].value != []
        {
          if i >= |r| {
            assert r2[i] == Entry(sentence, tokens);
          }
        }
      }
    }
  }

  /** Entries already present keep their place and their key: assigning an
      existing key does not move it, and new keys go at the end. */
  lemma {:induction false} AddSentencesKeepsOrder(m: Documents, ss: seq<string>, wordTokenize: string -> seq<string>,
                                                  stopwords: set<string>)
    requires UniqueKeys(m)
    ensures |m| <= |AddSentences(m, ss, wordTokenize, stopwords)|
    ensures forall i :: 0 <= i < |m| ==> AddSentences(m, ss, wordTokenize, stopwords)[i].key == m[i].key
    decreases |ss|
  {
    if ss != [] {
      AddSentencesKeepsOrder(m, ss[..|ss| - 1], wordTokenize, stopwords);
    }
  }

  /** The sentence dictionary of `main` for the files `filenames`. */
  function SentenceMap(files: Dict<string>, filenames: seq<string>, sentTokenize: string -> seq<string>,
                       wordTokenize: string -> seq<string>, stopwords: set<string>): Documents
    requires forall i :: 0 <= i < |filenames| ==> filenames[i] in Keys(files)
  {
    AddSentences([], Candidates(files, filenames, sentTokenize), wordTokenize, stopwords)
  }

  /** The sentence dictionary is a dictionary whose keys are exactly the
      candidate sentences with a nonempty token list, each mapped to its
      tokens. */
  lemma SentenceMapProperties(files: Dict<string>, filenames: seq<string>, sentTokenize: string -> seq<string>,
                              wordTokenize: string -> seq<string>, stopwords: set<string>)
    requires forall i :: 0 <= i < |filenames| ==> filenames[i] in Keys(files)
    ensures UniqueKeys(SentenceMap(files, filenames, sentTokenize, wordTokenize, stopwords))
    ensures TokensOfKeys(SentenceMap(files, filenames, sentTokenize, wordTokenize, stopwords), wordTokenize, stopwords)
    ensures NonEmptyValues(SentenceMap(files, filenames, sentTokenize, wordTokenize, stopwords))
    ensures forall s :: s in Keys(SentenceMap(files, filenames, sentTokenize, wordTokenize, stopwords)) <==>
      s in Candidates(files, filenames, sentTokenize) && Tokens(s, wordTokenize, stopwords) != []
  {
    var ss := Candidates(files, filenames, sentTokenize);
    AddSentencesValues([], ss, wordTokenize, stopwords);
    forall s ensures s in Keys(AddSentences([], ss, wordTokenize, stopwords)) <==>
      s in ss && Tokens(s, wordTokenize, stopwords) != []
    {
      AddSentencesKeys([], ss, wordTokenize, stopwords, s);
    }
  }

  /** Seeing `a` and then `b` is seeing `a + b`. */
  lemma {:induction false} AddSentencesAppend(m: Documents, a: seq<string>, b: seq<string>,
                                              wordTokenize: string -> seq<string>, stopwords: set<string>)
    requires UniqueKeys(m)
    ensures AddSentences(m, a + b, wordTokenize, stopwords)
         == AddSentences(AddSentences(m, a, wordTokenize, stopwords), b, wordTokenize, stopwords)
    decreases |b|
  {
    if b == [] {
      assert a + b == a;
    } else {
      AddSentencesAppend(m, a, b[..|b| - 1], wordTokenize, stopwords);
      assert (a + b)[..|a + b| - 1] == a + b[..|b| - 1];
    }
  }

  /** Lines 37-39, for the sentences of one passage. */
  method AddSentenceList(start: Documents, ss: seq<string>, wordTokenize: string -> seq<string>, stopwords: set<string>)
    returns (sentences: Documents)
    requires UniqueKeys(start)
    ensures sentences == AddSentences(start, ss, wordTokenize, stopwords)
  {
    sentences := start;
    for k := 0 to |ss|
      invariant sentences == AddSentences(start, ss[..k], wordTokenize, stopwords)
    {
      var sentence := ss[k];
      var tokens := FilterTokens(wordTokenize(sentence), stopwords);
      if tokens != [] {
        sentences := Put(sentences, sentence, tokens);
      }
      assert ss[..k + 1][..k] == ss[..k];
    }
    assert ss[..|ss|] == ss;
  }

  /** Lines 35-39, for the passages of one file. */
  method AddFileSentences(start: Documents, text: string, sentTokenize: string -> seq<string>,
                          wordTokenize: string -> seq<string>, stopwords: set<string>)
    returns (sentences: Documents)
    requires UniqueKeys(start)
    ensures sentences == AddSentences(start, PassageSentences(Split(text, '\n'), sentTokenize), wordTokenize, stopwords)
  {
    var passages := Split(text, '\n');
    sentences := start;
    for j := 0 to |passages|
      invariant sentences == AddSentences(start, PassageSentences(passages[..j], sentTokenize), wordTokenize, stopwords)
    {
      sentences := AddSentenceList(sentences, sentTokenize(passages[j]), wordTokenize, stopwords);
      AddSentencesAppend(start, PassageSentences(passages[..j], sentTokenize), sentTokenize(passages[j]), wordTokenize, stopwords);
      assert passages[..j + 1][..j] == passages[..j];
    }
    assert passages[..|passages|] == passages;
  }

  /** Lines 33-39 of `main`. */
  method BuildSentenceMap(files: Dict<string>, filenames: seq<string>, sentTokenize: string -> seq<string>,
                          wordTokenize: string -> seq<string>, stopwords: set<string>)
    returns (sentences: Documents)
    requires forall i :: 0 <= i < |filenames| ==> filenames[i] in Keys(files)
    ensures sentences == SentenceMap(files, filenames, sentTokenize, wordTokenize, stopwords)
    ensures UniqueKeys(sentences) && NonEmptyValues(sentences)
    ensures forall i :: 0 <= i < |sentences| ==> sentences[i].value == Tokens(sentences[i].key, wordTokenize, stopwords)
    ensures forall s :: s in Keys(sentences) <==>
      s in Candidates(files, filenames, sentTokenize) && Tokens(s, wordTokenize, stopwords) != []
  {
    sentences := [];
    for i := 0 to |filenames|
      invariant sentences == AddSentences([], Candidates(files, filenames[..i], sentTokenize), wordTokenize, stopwords)
    {
      var text := Lookup(files, filenames[i]);
      sentences := AddFileSentences(sentences, text, sentTokenize, wordTokenize, stopwords);
      AddSentencesAppend([], Candidates(files, filenames[..i], sentTokenize),
                         PassageSentences(Split(text, '\n'), sentTokenize), wordTokenize, stopwords);
      assert filenames[..i + 1][..i] == filenames[..i];
    }
    assert filenames[..|filenames|] == filenames;
    SentenceMapProperties(files, filenames, sentTokenize, wordTokenize, stopwords);
  }
}
