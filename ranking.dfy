/** What `top_files` and `top_sentences` do once every candidate has its
    score: `sorted(..., reverse = True)` on the score, which is stable, then
    the names of the first `n` results. */
module Ranking {

  /** A sort key. Keys compare on `major` and, when the majors are equal,
      on `minor`, as Python compares the tuple `(idf_sum, qtd)`; a ranking
      by a single score keeps `minor` constant. */
  datatype Rank = Rank(major: real, minor: real)

  /** `a >= b` in that order. */
  predicate AtLeast(a: Rank, b: Rank)
  {
    a.major > b.major || (a.major == b.major && a.minor >= b.minor)
  }

  /** A candidate (file name or sentence text) with its key. */
  datatype Scored = Scored(name: string, rank: Rank)

  /** Ordered by non-increasing key. */
  predicate Descending(s: seq<Scored>)
  {
    forall i, j :: 0 <= i < j < |s| ==> AtLeast(s[i].rank, s[j].rank)
  }

  predicate Distinct(s: seq<string>)
  {
    forall i, j :: 0 <= i < j < |s| ==> s[i] != s[j]
  }

  /** The list comprehension `[t[0] for t in tuples]`. */
  function Names(s: seq<Scored>): seq<string>
  {
    seq(|s|, i requires 0 <= i < |s| => s[i].name)
  }

  /** The key of a candidate called `name` (of the only one, when the names
      are distinct). */
  ghost function RankOf(s: seq<Scored>, name: string): Rank
    requires name in Names(s)
  {
    var i :| 0 <= i < |s| && s[i].name == name;
    s[i].rank
  }

  /** With distinct names, the key found by name is the candidate's own. */
  lemma RankOfMember(s: seq<Scored>, p: nat)
    requires Distinct(Names(s)) && p < |s|
    ensures s[p].name in Names(s) && RankOf(s, s[p].name) == s[p].rank
  {
    assert Names(s)[p] == s[p].name;
    var i :| 0 <= i < |s| && s[i].name == s[p].name && RankOf(s, s[p].name) == s[i].rank;
    assert Names(s)[i] == Names(s)[p];
  }

  /** A candidate whose key is at least every key of a descending list may
      go in front of it. */
  lemma PrependDescending(y: Scored, t: seq<Scored>)
    requires Descending(t)
    requires forall z :: z in t ==> AtLeast(y.rank, z.rank)
    ensures Descending([y] + t)
  {
    forall i, j | 0 <= i < j < |t| + 1 ensures AtLeast(([y] + t)[i].rank, ([y] + t)[j].rank) {
      if i == 0 {
        assert ([y] + t)[j] == t[j - 1];
      } else {
        assert ([y] + t)[i] == t[i - 1] && ([y] + t)[j] == t[j - 1];
      }
    }
  }

  /** When `x` goes after the head, the head's key is at least every key of
      the rest of the result. */
  lemma BelowHead(s: seq<Scored>, x: Scored, rest: seq<Scored>)
    requires Descending(s) && s != [] && AtLeast(s[0].rank, x.rank)
    requires multiset(rest) == multiset(s[1..]) + multiset{x}
    ensures forall z :: z in rest ==> AtLeast(s[0].rank, z.rank)
  {
    forall z | z in rest ensures AtLeast(s[0].rank, z.rank) {
      assert z in multiset(rest);
      if z != x {
        var j :| 0 <= j < |s| - 1 && s[1..][j] == z;
        assert s[j + 1] == z;
      }
    }
  }

  /** When `x` goes in front, its key is above every key of the list. */
  lemma AboveAll(s: seq<Scored>, x: Scored)
    requires Descending(s) && s != [] && !AtLeast(s[0].rank, x.rank)
    ensures forall z :: z in s ==> AtLeast(x.rank, z.rank)
  {
    forall z | z in s ensures AtLeast(x.rank, z.rank) {
      var j :| 0 <= j < |s| && s[j] == z;
      if j > 0 { assert AtLeast(s[0].rank, s[j].rank); }
    }
  }

  /** Places `x` after every element whose key is at least its own. */
  function Insert(s: seq<Scored>, x: Scored): (r: seq<Scored>)
    requires Descending(s)
    ensures Descending(r)
    ensures multiset(r) == multiset(s) + multiset{x}
    ensures |r| == |s| + 1
  {
    if s == [] then [x]
    else if AtLeast(s[0].rank, x.rank) then
      var rest := Insert(s[1..], x);
      assert s == [s[0]] + s[1..];
      BelowHead(s, x, rest);
      PrependDescending(s[0], rest);
      [s[0]] + rest
    else
      AboveAll(s, x);
      PrependDescending(x, s);
      [x] + s
  }

  /** `sorted(items, key = ..., reverse = True)`: an insertion sort. */
  function SortDescending(s: seq<Scored>): (r: seq<Scored>)
    ensures Descending(r)
    ensures multiset(r) == multiset(s)
    ensures |r| == |s|
  {
    if s == [] then []
    else
      var init := s[..|s| - 1];
      assert s == init + [s[|s| - 1]];
      Insert(SortDescending(init), s[|s| - 1])
  }

  /** A candidate whose key is at most every key of the list goes last. */
  lemma {:induction false} InsertAtEnd(s: seq<Scored>, x: Scored)
    requires Descending(s)
    requires forall z :: z in s ==> AtLeast(z.rank, x.rank)
    ensures Insert(s, x) == s + [x]
    decreases |s|
  {
    if s != [] {
      InsertAtEnd(s[1..], x);
      assert s == [s[0]] + s[1..];
    }
  }

  /** Dropping the last element of an ordered list leaves it ordered, with
      that element below all the others. */
  lemma DescendingInit(s: seq<Scored>)
    requires Descending(s) && s != []
    ensures Descending(s[..|s| - 1])
    ensures forall z :: z in s[..|s| - 1] ==> AtLeast(z.rank, s[|s| - 1].rank)
  {
    forall z | z in s[..|s| - 1] ensures AtLeast(z.rank, s[|s| - 1].rank) {
      var i :| 0 <= i < |s| - 1 && s[..|s| - 1][i] == z;
      assert s[i] == z;
    }
  }

  /** Sorting a list that is already in order changes nothing; in
      particular sorting twice is sorting once. */
  lemma {:induction false} SortSorted(s: seq<Scored>)
    requires Descending(s)
    ensures SortDescending(s) == s
    decreases |s|
  {
    if s != [] {
      var init, last := s[..|s| - 1], s[|s| - 1];
      calc {
        SortDescending(s);
        Insert(SortDescending(init), last);
        { DescendingInit(s); SortSorted(init); }
        Insert(init, last);
        { DescendingInit(s); InsertAtEnd(init, last); }
        init + [last];
        s;
      }
    }
  }
  /** The first `n` names of a list already in order are its own first `n`
      names. */
  lemma TopOfSorted(s: seq<Scored>, n: nat)
    requires Descending(s) && n <= |s|
    ensures Top(s, n) == Names(s)[..n]
  {
    SortSorted(s);
  }


  /** Of two candidates, the one with the greater key comes first. */
  lemma SortPair(x: Scored, y: Scored)
    requires !AtLeast(x.rank, y.rank)
    ensures SortDescending([x, y]) == [y, x]
  {
    assert [x, y][..1] == [x] && [x][..0] == [];
  }

  /** The candidates whose key is exactly `k`, in their order. */
  function WithRank(s: seq<Scored>, k: Rank): seq<Scored>
  {
    if s == [] then [] else (if s[0].rank == k then [s[0]] else []) + WithRank(s[1..], k)
  }

  lemma {:induction false} WithRankAppend(a: seq<Scored>, b: seq<Scored>, k: Rank)
    ensures WithRank(a + b, k) == WithRank(a, k) + WithRank(b, k)
  {
    if a == [] {
      assert a + b == b;
    } else {
      assert (a + b)[1..] == a[1..] + b;
      WithRankAppend(a[1..], b, k);
    }
  }

  lemma {:induction false} WithRankNone(s: seq<Scored>, k: Rank)
    requires forall i :: 0 <= i < |s| ==> s[i].rank != k
    ensures WithRank(s, k) == []
  {
    if s != [] {
      WithRankNone(s[1..], k);
    }
  }

  /** Concatenation is associative; stated apart so that the step costs
      little inside the larger proofs that use it. */
  lemma ConcatAssoc<T>(a: seq<T>, b: seq<T>, c: seq<T>)
    ensures a + (b + c) == (a + b) + c
  {
  }

  lemma {:induction false} InsertStable(s: seq<Scored>, x: Scored, k: Rank)
    requires Descending(s)
    ensures WithRank(Insert(s, x), k) == WithRank(s, k) + WithRank([x], k)
  {
    var here := if x.rank == k then [x] else [];
    assert WithRank([x], k) == here by {
      assert [x][1..] == [];
    }
    if s == [] {
      assert Insert(s, x) == [x];
      assert WithRank(Insert(s, x), k) == WithRank(s, k) + here;
    } else if AtLeast(s[0].rank, x.rank) {
      var rest := Insert(s[1..], x);
      var first := if s[0].rank == k then [s[0]] else [];
      calc {
        WithRank(Insert(s, x), k);
        { assert Insert(s, x) == [s[0]] + rest; }
        WithRank([s[0]] + rest, k);
        { assert ([s[0]] + rest)[1..] == rest; }
        first + WithRank(rest, k);
        { InsertStable(s[1..], x, k); }
        first + (WithRank(s[1..], k) + here);
        { ConcatAssoc(first, WithRank(s[1..], k), here); }
        (first + WithRank(s[1..], k)) + here;
        WithRank(s, k) + here;
      }
    } else {
      calc {
        WithRank(Insert(s, x), k);
        { assert Insert(s, x) == [x] + s; }
        WithRank([x] + s, k);
        { assert ([x] + s)[1..] == s; }
        here + WithRank(s, k);
      }
      if x.rank == k {
        forall i | 0 <= i < |s| ensures s[i].rank != k {
          if i > 0 { assert AtLeast(s[0].rank, s[i].rank); }
        }
        WithRankNone(s, k);
      } else {
        assert here + WithRank(s, k) == WithRank(s, k) + here;
      }
    }
  }

  /** The sort is stable: the candidates that share a key keep the order they
      had in the input, so the sort is fully determined. */
  lemma {:induction false} SortStable(s: seq<Scored>, k: Rank)
    ensures WithRank(SortDescending(s), k) == WithRank(s, k)
  {
    if s != [] {
      var init := s[..|s| - 1];
      assert s == init + [s[|s| - 1]];
      SortStable(init, k);
      InsertStable(SortDescending(init), s[|s| - 1], k);
      WithRankAppend(init, [s[|s| - 1]], k);
    }
  }

  /** `x` occurs before `y` in `t`. */
  predicate Before(t: seq<Scored>, x: Scored, y: Scored)
  {
    exists a, b :: 0 <= a < b < |t| && t[a] == x && t[b] == y
  }

  /** The candidates kept by `WithRank` are the list's candidates with that key. */
  lemma {:induction false} WithRankMembers(t: seq<Scored>, k: Rank, x: Scored)
    ensures x in WithRank(t, k) <==> x in t && x.rank == k
    decreases |t|
  {
    if t != [] {
      WithRankMembers(t[1..], k, x);
      assert t == [t[0]] + t[1..];
    }
  }

  /** Dropping the first candidate keeps the names distinct. */
  lemma DistinctTail(t: seq<Scored>)
    requires Distinct(Names(t)) && t != []
    ensures Distinct(Names(t[1..]))
  {
    forall i, j | 0 <= i < j < |t| - 1 ensures Names(t[1..])[i] != Names(t[1..])[j] {
      assert Names(t)[i + 1] != Names(t)[j + 1];
    }
  }

  /** Keeping the candidates of one key keeps the names distinct. */
  lemma {:induction false} WithRankDistinct(t: seq<Scored>, k: Rank)
    requires Distinct(Names(t))
    ensures Distinct(Names(WithRank(t, k)))
    decreases |t|
  {
    if t != [] {
      var tail := t[1..];
      DistinctTail(t);
      WithRankDistinct(tail, k);
      var w := WithRank(tail, k);
      if t[0].rank != k {
        assert WithRank(t, k) == w;
      } else {
        var u := [t[0]] + w;
        assert WithRank(t, k) == u;
        forall i, j | 0 <= i < j < |u| ensures Names(u)[i] != Names(u)[j] {
          if i == 0 {
            assert u[j] == w[j - 1];
            WithRankMembers(tail, k, w[j - 1]);
            var b :| 0 <= b < |tail| && tail[b] == w[j - 1];
            assert Names(t)[0] != Names(t)[b + 1];
          } else {
            assert Names(w)[i - 1] != Names(w)[j - 1];
          }
        }
      }
    }
  }

  /** A list starting with `x` has `x` before each later element. */
  lemma BeforeFirst(x: Scored, w: seq<Scored>, y: Scored)
    requires y in w
    ensures Before([x] + w, x, y)
  {
    var j :| 0 <= j < |w| && w[j] == y;
    assert ([x] + w)[0] == x && ([x] + w)[j + 1] == y;
  }

  /** Putting elements in front keeps an order. */
  lemma BeforeSuffix(h: seq<Scored>, w: seq<Scored>, x: Scored, y: Scored)
    requires Before(w, x, y)
    ensures Before(h + w, x, y)
  {
    var c, d :| 0 <= c < d < |w| && w[c] == x && w[d] == y;
    assert (h + w)[|h| + c] == x && (h + w)[|h| + d] == y;
  }

  /** Two candidates of key `k`, one before the other, stay in that order
      among the candidates of key `k`. */
  lemma {:induction false} WithRankKeepsBefore(t: seq<Scored>, k: Rank, x: Scored, y: Scored)
    requires x.rank == k && y.rank == k
    ensures Before(t, x, y) ==> Before(WithRank(t, k), x, y)
    decreases |t|
  {
    if Before(t, x, y) {
      var a, b :| 0 <= a < b < |t| && t[a] == x && t[b] == y;
      var tail := t[1..];
      if a == 0 {
        assert tail[b - 1] == y;
        WithRankMembers(tail, k, y);
        assert WithRank(t, k) == [x] + WithRank(tail, k);
        BeforeFirst(x, WithRank(tail, k), y);
      } else {
        assert tail[a - 1] == x && tail[b - 1] == y;
        WithRankKeepsBefore(tail, k, x, y);
        var head := if t[0].rank == k then [t[0]] else [];
        assert WithRank(t, k) == head + WithRank(tail, k);
        BeforeSuffix(head, WithRank(tail, k), x, y);
      }
    }
  }

  /** With distinct names, two candidates are not each before the other. */
  lemma BeforeAsymmetric(t: seq<Scored>, x: Scored, y: Scored)
    requires Distinct(Names(t))
    ensures Before(t, x, y) ==> !Before(t, y, x)
  {
    if Before(t, x, y) {
      var a, b :| 0 <= a < b < |t| && t[a] == x && t[b] == y;
      forall c, d | 0 <= c < d < |t| && t[c] == y
        ensures t[d] != x
      {
        assert c == b by {
          assert Names(t)[c] == Names(t)[b];
        }
        assert Names(t)[a] != Names(t)[d];
      }
    }
  }

  /** With distinct names, one candidate is before another exactly when its
      position is smaller. */
  lemma BeforeIndex(t: seq<Scored>, i: nat, j: nat)
    requires Distinct(Names(t)) && i < |t| && j < |t| && i != j
    ensures Before(t, t[i], t[j]) <==> i < j
  {
    BeforeAsymmetric(t, t[j], t[i]);
    assert j < i ==> Before(t, t[j], t[i]);
  }

  /** Among candidates with distinct names, two of key `k` are in the same
      order among the candidates of key `k` as in the whole list. */
  lemma WithRankBefore(t: seq<Scored>, k: Rank, i: nat, j: nat)
    requires Distinct(Names(t)) && i < |t| && j < |t| && i != j
    requires t[i].rank == k && t[j].rank == k
    ensures Before(WithRank(t, k), t[i], t[j]) <==> Before(t, t[i], t[j])
  {
    BeforeIndex(t, i, j);
    BeforeIndex(t, j, i);
    WithRankDistinct(t, k);
    WithRankKeepsBefore(t, k, t[i], t[j]);
    WithRankKeepsBefore(t, k, t[j], t[i]);
    BeforeAsymmetric(WithRank(t, k), t[j], t[i]);
  }

  /** Where the sort puts the candidate at position `p` of the input. */
  lemma SortedPosition(s: seq<Scored>, p: nat) returns (i: nat)
    requires p < |s|
    ensures i < |SortDescending(s)| && SortDescending(s)[i] == s[p]
  {
    assert s[p] in multiset(SortDescending(s));
    i :| 0 <= i < |SortDescending(s)| && SortDescending(s)[i] == s[p];
  }

  /** Two candidates with equal keys and distinct names keep their order. */
  lemma SortOrderTie(s: seq<Scored>, p: nat, q: nat)
    requires Distinct(Names(s)) && p < |s| && q < |s| && p != q
    requires s[p].rank == s[q].rank
    ensures Before(SortDescending(s), s[p], s[q]) <==> p < q
  {
    var r := SortDescending(s);
    var k := s[p].rank;
    PermutationDistinct(s, r);
    var i := SortedPosition(s, p);
    var j := SortedPosition(s, q);
    assert i != j by {
      assert Names(s)[p] != Names(s)[q];
    }
    SortStable(s, k);
    WithRankBefore(r, k, i, j);
    WithRankBefore(s, k, p, q);
    BeforeIndex(s, p, q);
  }

  /** Of two candidates with different keys, the sort puts first the one
      whose key is greater. */
  lemma SortOrderStrict(s: seq<Scored>, p: nat, q: nat)
    requires Distinct(Names(s)) && p < |s| && q < |s|
    requires s[p].rank != s[q].rank
    ensures Before(SortDescending(s), s[p], s[q]) <==> AtLeast(s[p].rank, s[q].rank)
  {
    var r := SortDescending(s);
    PermutationDistinct(s, r);
    var i := SortedPosition(s, p);
    var j := SortedPosition(s, q);
    BeforeIndex(r, i, j);
    assert i < j ==> AtLeast(r[i].rank, r[j].rank);
    assert j < i ==> AtLeast(r[j].rank, r[i].rank);
  }

  /** Where the sort puts two candidates with distinct names: the first is
      placed before the second exactly when its key is strictly greater, or
      the keys are equal and it came first in the input. */
  lemma SortOrder(s: seq<Scored>, p: nat, q: nat)
    requires Distinct(Names(s)) && p < |s| && q < |s| && p != q
    ensures Before(SortDescending(s), s[p], s[q]) <==>
      !AtLeast(s[q].rank, s[p].rank) || (s[p].rank == s[q].rank && p < q)
  {
    if s[p].rank == s[q].rank {
      SortOrderTie(s, p, q);
    } else {
      SortOrderStrict(s, p, q);
    }
  }

  /** The names of the first `n` candidates after sorting, as the
      `for i in range(n)` loops of both rankers collect them. */
  function Top(s: seq<Scored>, n: nat): (r: seq<string>)
    requires n <= |s|
    ensures |r| == n
  {
    Names(SortDescending(s))[..n]
  }

  /** With distinct names no candidate occurs twice. */
  lemma {:induction false} SingleOccurrence(s: seq<Scored>, y: Scored)
    requires Distinct(Names(s))
    ensures multiset(s)[y] <= 1
  {
    if s != [] {
      assert s == [s[0]] + s[1..];
      assert Distinct(Names(s[1..])) by {
        forall i, j | 0 <= i < j < |s| - 1 ensures Names(s[1..])[i] != Names(s[1..])[j] {
          assert Names(s)[i + 1] != Names(s)[j + 1];
        }
      }
      if s[0] == y {
        assert y !in s[1..] by {
          forall k | 0 <= k < |s| - 1 ensures s[1..][k] != y {
            assert Names(s)[0] != Names(s)[k + 1];
          }
        }
      }
      SingleOccurrence(s[1..], y);
    }
  }

  /** A rearrangement of candidates with distinct names has distinct names. */
  lemma PermutationDistinct(s: seq<Scored>, r: seq<Scored>)
    requires Distinct(Names(s)) && multiset(r) == multiset(s)
    ensures Distinct(Names(r))
  {
    forall i, j | 0 <= i < j < |r| ensures Names(r)[i] != Names(r)[j] {
      if r[i].name == r[j].name {
        assert r[i] in multiset(s) && r[j] in multiset(s);
        var p :| 0 <= p < |s| && s[p] == r[i];
        var q :| 0 <= q < |s| && s[q] == r[j];
        assert p == q by {
          assert Names(s)[p] == Names(s)[q];
        }
        assert multiset(r)[r[i]] >= 2 by {
          assert r == r[..j] + r[j..];
          assert r[i] in r[..j] && r[j] == r[j..][0];
        }
        SingleOccurrence(s, r[i]);
      }
    }
  }

  /** Every sorted candidate is one of the input's, with the key it has there. */
  lemma SortedRanks(s: seq<Scored>)
    requires Distinct(Names(s))
    ensures |SortDescending(s)| == |s|
    ensures forall i :: 0 <= i < |s| ==>
      SortDescending(s)[i].name in Names(s)
      && RankOf(s, SortDescending(s)[i].name) == SortDescending(s)[i].rank
  {
    var r := SortDescending(s);
    assert |r| == |s| by {
      assert |multiset(r)| == |multiset(s)|;
    }
    forall i | 0 <= i < |r| ensures r[i].name in Names(s) && RankOf(s, r[i].name) == r[i].rank {
      assert r[i] in multiset(s);
      var p :| 0 <= p < |s| && s[p] == r[i];
      RankOfMember(s, p);
    }
  }

  /** The rankers return `n` distinct names of candidates. */
  lemma TopDistinct(s: seq<Scored>, n: nat)
    requires Distinct(Names(s)) && n <= |s|
    ensures |Top(s, n)| == n
    ensures Distinct(Top(s, n))
    ensures forall t :: t in Top(s, n) ==> t in Names(s)
  {
    var r := SortDescending(s);
    SortedRanks(s);
    PermutationDistinct(s, r);
    assert Top(s, n) == Names(r)[..n];
  }

  /** The names come in non-increasing order of their candidates' keys. */
  lemma TopOrdered(s: seq<Scored>, n: nat)
    requires Distinct(Names(s)) && n <= |s|
    ensures forall t :: t in Top(s, n) ==> t in Names(s)
    ensures forall i, j :: 0 <= i < j < n ==>
      AtLeast(RankOf(s, Top(s, n)[i]), RankOf(s, Top(s, n)[j]))
  {
    var r := SortDescending(s);
    TopDistinct(s, n);
    SortedRanks(s);
    assert forall i :: 0 <= i < n ==> Top(s, n)[i] == r[i].name;
  }

  /** No candidate left out has a greater key than one returned. */
  lemma TopBest(s: seq<Scored>, n: nat)
    requires Distinct(Names(s)) && n <= |s|
    ensures forall t :: t in Top(s, n) ==> t in Names(s)
    ensures forall p :: 0 <= p < |s| && s[p].name !in Top(s, n) ==>
      forall t :: t in Top(s, n) ==> AtLeast(RankOf(s, t), s[p].rank)
  {
    var r := SortDescending(s);
    var top := Top(s, n);
    TopDistinct(s, n);
    SortedRanks(s);
    forall p, t | 0 <= p < |s| && s[p].name !in top && t in top
      ensures AtLeast(RankOf(s, t), s[p].rank)
    {
      var i :| 0 <= i < n && top[i] == t;
      assert t == r[i].name;
      LeftOutRanksLower(s, n, p, i);
    }
  }

  /** A candidate whose name is not among the first `n` names is not among
      the first `n` candidates. */
  lemma NotInPrefix(r: seq<Scored>, n: nat, x: Scored)
    requires n <= |r| && x.name !in Names(r)[..n]
    ensures forall k :: 0 <= k < n ==> r[k] != x
  {
    forall k | 0 <= k < n ensures r[k] != x {
      assert Names(r)[..n][k] == r[k].name;
    }
  }

  /** A candidate whose name is not among the first `n` sits after each of
      them in the sorted list, so its key is at most theirs. */
  lemma LeftOutRanksLower(s: seq<Scored>, n: nat, p: nat, i: nat)
    requires n <= |s| && p < |s| && i < n
    requires s[p].name !in Names(SortDescending(s))[..n]
    ensures AtLeast(SortDescending(s)[i].rank, s[p].rank)
  {
    var r := SortDescending(s);
    var q := SortedPosition(s, p);
    NotInPrefix(r, n, s[p]);
    assert i < q;
    assert Descending(r);
  }
}
