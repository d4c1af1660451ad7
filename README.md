# Question answering by tf-idf: a Dafny model

`questions.py` answers a question from a corpus of text files. It reduces
every file to its tokens: lower-case words with punctuation symbols and
English stopwords removed. It then computes inverse document frequencies
(idf), defined as `log(N / df)`, and keeps the `FILE_MATCHES = 2` files
with the highest sum of term frequency times idf over the query words.
It splits those files into passages and sentences, computes idfs again
over the sentences, and keeps the `SENTENCE_MATCHES = 2` sentences ranked
by:

- first, the sum of the idfs of the query words they contain;
- on a tie, by query term density.

The model covers this retrieval logic, one Dafny module per part:

- `Dicts`: Python dictionaries as sequences of entries in insertion order, with unique keys. `Put` is `d[k] = v`.
- `Sums`: sums of terms over a set, independent of the order a loop visits the set.
- `Tokenize`: `tokenize` as a whole (the NLTK word tokenizer is a parameter) and its filter loop.
- `Idf`: `compute_idfs`.
- `Ranking`: Python's stable `sorted(..., reverse=True)` as an insertion sort on keys compared lexicographically, and the first `n` names of the result.
- `TopFiles`: `top_files`.
- `TopSentences`: `top_sentences`.
- `Sentences`: the sentence dictionary built in `main`.
- `Questions`: the whole of `main` from the loaded corpus to the printed sentences.

The loops of the source are methods with loops. Each method is proved
equal to a specification function, and the properties the program
promises are proved about those functions as lemmas.

On its edge cases the code behaves as follows, and the model follows it:

- An idf table over zero documents is the empty dictionary. Nothing divides by zero, because no word has a document frequency.
- Asking for more matches than there are candidates is an `IndexError` in the code. `Questions.Answer` reports it as the outcome `IndexError`. `TopFiles.TopFiles` and `TopSentences.TopSentences` require `n` to be at most the number of candidates.
- A query word with no idf would be a `KeyError`. The model requires every query word found in a document to have an idf. `Questions.IdfTableCovers` shows that `main` always meets this.
- Only single-character punctuation symbols are removed, so a multi-character token such as `--` is kept (`Tokenize.DoubleDashIsKept`).
- When two copies of a sentence are seen, the dictionary keeps the position of the first copy and rewrites the same token list for the second.

## Model

| member | source | states |
|---|---|---|
| Tokenize.Tokens | questions.py:63-84 | the tokens of a document keep the order the word tokenizer gives them: they are a subsequence of its words |
| Tokenize.TokensMembers | questions.py:63-84 | a word is a token of a document exactly when the word tokenizer produces it and it is neither a one-character punctuation symbol nor a stopword |
| Tokenize.FilterTokens | questions.py:78-84 | the loop returns `Clean(wordList)`: the words that are neither a one-character punctuation symbol nor a stopword, in their order |
| Tokenize.CleanMembers | questions.py:80-82 | a word is in the result exactly when it is in the input and is neither punctuation nor a stopword |
| Tokenize.CleanCounts | questions.py:80-82 | a kept word keeps every one of its occurrences; a dropped word keeps none |
| Tokenize.CleanIsSubsequence | questions.py:80-82 | the result is a subsequence of the input: the kept words stay in order |
| Tokenize.CleanAppend | questions.py:80-82 | filtering a concatenation is concatenating the filtered parts |
| Tokenize.CleanIdempotent | questions.py:80-82 | filtering an already filtered list changes nothing |
| Tokenize.DoubleDashIsKept | questions.py:79-81 | `"--"` survives the filter, because the punctuation list holds single characters only |
| Idf.DocFreq | questions.py:104-107 | the document frequency is at most the number of documents, and at least one exactly for the words of the vocabulary |
| Idf.VocabularyMembers | questions.py:96-99 | a word is in the vocabulary exactly when some document contains it |
| Idf.DocFreqAll | questions.py:104-107 | the frequency equals the number of documents exactly when every document contains the word |
| Idf.UniqueWords | questions.py:95-99 | the nested loops collect exactly the vocabulary |
| Idf.CountRepetitions | questions.py:104-107 | the loop counts exactly the documents containing the word |
| Idf.IdfTableProperties | questions.py:92-93 | the idf table has one entry for each vocabulary word and no other; `1 <= df <= N`; the value is `log(N / df)`; `df == N` gives `log(1)` and `df == 1` gives `log(N)` |
| Idf.ComputeIdfs | questions.py:87-110 | the loop over the unique words builds exactly the idf table |
| Dicts.Put | questions.py:39 | `d[k] = v` keeps unique keys and adds `k` to the keys; an existing key keeps its place and gets the new value; a new key goes at the end; every other entry is unchanged |
| Dicts.Lookup | questions.py:35 | `d[k]` for a present key is the value of an entry with that key |
| Sums.SumOverRemove | questions.py:124-129 | a sum over a set may take out any element first, so the order in which a loop visits the query does not change the total |
| Ranking.Insert | questions.py:133 | inserting into a descending list gives a descending list with the same elements plus the new one |
| Ranking.SortDescending | questions.py:133 | the sorted list is in non-increasing key order and is a permutation of the input |
| Ranking.SortStable | questions.py:170 | the sort is stable: the candidates with any given key keep their relative order |
| Ranking.SortSorted | questions.py:133 | sorting a list that is already in order returns it unchanged, so sorting is idempotent |
| Ranking.SortPair | questions.py:170 | of two candidates, the one with the strictly greater key comes first |
| Ranking.SortOrder | questions.py:133 | with distinct names, the sort puts one candidate before another exactly when its key is strictly greater, or the keys are equal and it came first in the input |
| Ranking.SortOrderTie | questions.py:133 | two candidates with equal keys keep their input order |
| Ranking.SortOrderStrict | questions.py:170 | of two candidates with different keys, the one with the greater key comes first |
| Ranking.Top | questions.py:134-137 | the list of the first `n` names has exactly `n` entries; `top_sentences` takes its matches the same way at lines 179-181 |
| Ranking.TopOfSorted | questions.py:133-137 | on a list already in order, the first `n` names are the list's own first `n` |
| Ranking.TopDistinct | questions.py:134-137 | with distinct names, the first `n` names are `n` distinct names of candidates |
| Ranking.TopOrdered | questions.py:133-137 | the keys of the first `n` names are in non-increasing order |
| Ranking.TopBest | questions.py:133-137 | no candidate left out has a greater key than a chosen one |
| TopFiles.ScoreFile | questions.py:123-129 | the loop over the query computes the file score: each query word found in the file adds its count times its idf |
| TopFiles.ComputeRankings | questions.py:121-130 | the `rankings` dictionary is each file name with its score, in the order of `files` |
| TopFiles.RankingsNames | questions.py:130 | the ranked names are the distinct file names |
| TopFiles.TopFilesNames | questions.py:133-137 | the top `n` are `n` distinct file names |
| TopFiles.TopFilesOrdered | questions.py:133-137 | the top `n` come in non-increasing score order |
| TopFiles.TopFilesBest | questions.py:133-137 | no file left out scores higher than a chosen one |
| TopFiles.TopFilesProperties | questions.py:113-139 | the top `n` are `n` distinct file names, in non-increasing score order, none beaten by a file left out |
| TopFiles.TopFiles | questions.py:113-139 | the method returns the first `n` names of the stably sorted rankings, with the properties above |
| TopFiles.FileScoreOnlyPresentWords | questions.py:125 | query words absent from a file contribute nothing to its score |
| TopFiles.FileScoreMonotone | questions.py:126-129 | with non-negative idfs, more occurrences of the query words never lower a score |
| TopFiles.FileOrder | questions.py:130-133 | file `d` is sorted ahead of file `e` exactly when its score is greater, or the scores are equal and `d` comes first in `files` |
| TopFiles.MoreOccurrencesKeepOrder | questions.py:123-133 | with non-negative idfs, giving a file at least as many occurrences of every query word keeps it ahead of every file it was ahead of |
| TopFiles.SingleWordScore | questions.py:124-129 | for a one-word query, the score is that word's count times its idf |
| TopFiles.CatScores | questions.py:124-129 | for the query `cat`, the word lists `cat sat`, `dog ran` and `cats dogs run` score the idf of `cat`, 0 and 0 |
| TopFiles.CatOrder | questions.py:121-130 | with a positive idf for `cat`, the rankings of those three files are already in descending order |
| TopFiles.CatRanking | questions.py:113-139 | with a positive idf for `cat`, the top file is the first |
| TopFiles.CatScenario | questions.py:87-139 | with the idf table `compute_idfs` builds for those files, `cat` occurs in one document, its idf is `log(3)`, and when that is positive the top file is the first |
| TopSentences.QueryWordCount | questions.py:160-163 | the number of query-word positions is at most the number of words |
| TopSentences.QueryWordCountAll | questions.py:160-163 | the count equals the length exactly when every word is a query word |
| TopSentences.QueryWordCountNone | questions.py:160-163 | the count is zero exactly when no word is a query word |
| TopSentences.Density | questions.py:164 | the query term density of a nonempty sentence lies in `[0, 1]` |
| TopSentences.DensityExtremes | questions.py:164 | the density is 1 exactly when all words are query words, and 0 exactly when none is |
| TopSentences.SentenceIdfSum | questions.py:153-157 | the loop adds the idf of each query word the sentence contains, once |
| TopSentences.CountQueryWords | questions.py:160-163 | the loop counts the positions holding a query word |
| TopSentences.ComputeSentenceRankings | questions.py:151-167 | the tuples are each sentence with its key `(idf_sum, qtd)`, in the order of `sentences` |
| TopSentences.SentenceRankingsNames | questions.py:167 | the ranked names are the distinct sentences |
| TopSentences.TopSentencesProperties | questions.py:142-183 | the top `n` are `n` distinct sentences in non-increasing `(idf_sum, qtd)` order, none beaten by a sentence left out |
| TopSentences.TopSentences | questions.py:142-183 | the top `n` sorted sentences: ordered by idf sum, and on equal idf sums by higher density; distinct; none better left out |
| TopSentences.TieExampleKeys | questions.py:153-164 | `cat sat quietly` and `cat ran` have equal idf sums for the query `cat`, with densities 1/3 and 1/2 |
| TopSentences.DensityBreaksTie | questions.py:147-148 | of those two sentences the denser one ranks first, even when it comes second in the dictionary |
| Sentences.Split | questions.py:35 | `split("\n")` gives at least one piece |
| Sentences.JoinSplit | questions.py:35 | joining the pieces with the separator gives the text back |
| Sentences.SplitPiecesFree | questions.py:35 | no piece contains a line break |
| Sentences.PassageSentencesMembers | questions.py:35-36 | a sentence comes from the passages exactly when it is a sentence of one of them |
| Sentences.CandidatesAppend | questions.py:34-36 | the files are visited in the order of `filenames`: the sentences of two lists of names are those of the first followed by those of the second |
| Sentences.CandidateFromFile | questions.py:34-36 | every sentence of every passage of a named file is a candidate |
| Sentences.CandidateSource | questions.py:34-36 | every candidate is a sentence of a passage of some named file |
| Sentences.CandidatesMembers | questions.py:34-36 | a sentence is a candidate exactly when it is a sentence of a passage of one of the named files |
| Sentences.AddSentences | questions.py:36-39 | the dictionary built from a sequence of sentences keeps unique keys |
| Sentences.AddSentencesKeys | questions.py:37-39 | a sentence is a key exactly when it was one before, or it was seen and its token list is not empty |
| Sentences.AddSentencesValues | questions.py:37-39 | each key stays mapped to its own nonempty token list, so a repeated sentence rewrites the same value |
| Sentences.AddSentencesKeepsOrder | questions.py:39 | entries already present keep their position and key; new keys only go at the end |
| Sentences.AddSentencesAppend | questions.py:34-39 | seeing one sequence of sentences and then another is seeing their concatenation |
| Sentences.SentenceMapProperties | questions.py:33-39 | the sentence dictionary has unique keys, nonempty values equal to each key's tokens, and has as keys exactly the candidate sentences with nonempty tokens |
| Sentences.AddSentenceList | questions.py:36-39 | the loop over the sentences of one passage adds them as `AddSentences` says |
| Sentences.AddFileSentences | questions.py:35-39 | the loop over the passages of one file adds their sentences in order |
| Sentences.BuildSentenceMap | questions.py:33-39 | the three nested loops build the sentence dictionary, with the properties above |
| Questions.FileWordsKeys | questions.py:20-23 | `file_words` has the keys of `files`, and they are unique |
| Questions.IdfTableCovers | questions.py:24 | every query word found in a document has an entry in the idf table of those documents, so `idfs[word]` cannot fail |
| Questions.BestFiles | questions.py:30 | the chosen files are `FILE_MATCHES` distinct files of the corpus |
| Questions.AnswersProperties | questions.py:19-45 | the result is an `IndexError` exactly when there are too few files or too few sentences; an answer is `SENTENCE_MATCHES` distinct sentences, each found in a chosen file and having nonempty tokens |
| Questions.TokenizeFiles | questions.py:20-23 | the comprehension maps each file name to the tokens of its text, in order |
| Questions.Answer | questions.py:19-45 | the pipeline computes `Answers`: tokenize, idfs over the files, top files, sentences, idfs over the sentences, top sentences |

## Left out

- `load_files`, the command-line check, reading the query and printing the matches are I/O. `Questions.Answer` takes the loaded corpus and the query text as parameters and returns the matches.
- The calls into NLTK cannot be modelled here: `nltk.word_tokenize` (after `lower()`) and `nltk.sent_tokenize` are the function parameters `wordTokenize` and `sentTokenize`, and the English stopword list is the set parameter `stopwords`.
- `math.log` is the function parameter `ln`, and floating-point numbers are exact reals. Rounding, and the order in which floating-point additions round, are not modelled.
- Iterating over a Python set visits the elements in an unspecified order. The loops over `query` and `uniqueWords` choose the next element arbitrarily, and nothing proved depends on the order.
- TopFiles.TopFiles: `n` is a `nat` and at most the number of files. For a negative `n` Python's `range(n)` returns an empty list, and that case is not modelled.
- TopSentences.TopSentences: `n` is a `nat` and at most the number of sentences, for the same reason. Every sentence must have a nonempty token list, because line 164 divides by its length. `main` only passes such sentences.
- TopFiles.FileScoreMonotone: assumes non-negative idf values. This follows from `log(N / df)` with `df <= N` for the real logarithm, but the model's `ln` is an arbitrary parameter.
- TopFiles.MoreOccurrencesKeepOrder: assumes non-negative idf values for the query words, for the same reason.
- Sentences.AddSentencesKeys: states which sentences become keys, and Sentences.AddSentencesKeepsOrder states that existing keys keep their place. The position of each new key, as a function of where it first occurs, is not stated.
- File scores are sorted with a constant second key. This orders them exactly as Python's single key `item[1]` does.
