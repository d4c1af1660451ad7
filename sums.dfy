/** Sums of real-valued terms over a finite set of words, as a loop over a
    Python set accumulates them in whatever order the set yields its
    elements. */
module Sums {

  /** The sum of `f(w)` over all `w` in `s`. */
  ghost function SumOver(s: set<string>, f: string -> real): real
  {
    if s == {} then 0.0
    else
      var w :| w in s;
      f(w) + SumOver(s - {w}, f)
  }

  /** The sum does not depend on which element is taken out first, so a
      loop may visit the set in any order. */
  lemma {:induction false} SumOverRemove(s: set<string>, f: string -> real, x: string)
    requires x in s
    ensures SumOver(s, f) == f(x) + SumOver(s - {x}, f)
    decreases |s|
  {
    var w :| w in s && SumOver(s, f) == f(w) + SumOver(s - {w}, f);
    if w != x {
      SumOverRemove(s - {w}, f, x);
      SumOverRemove(s - {x}, f, w);
      assert s - {w} - {x} == s - {x} - {w};
    }
  }

  /** Adding a new element adds its term. */
  lemma SumOverAdd(s: set<string>, f: string -> real, x: string)
    requires x !in s
    ensures SumOver(s + {x}, f) == SumOver(s, f) + f(x)
  {
    SumOverRemove(s + {x}, f, x);
    assert s + {x} - {x} == s;
  }

  /** One step of a loop that takes `x` out of the words still to visit. */
  lemma SumStep(s: set<string>, rest: set<string>, f: string -> real, x: string)
    requires rest <= s && x in rest
    ensures SumOver(s - (rest - {x}), f) == SumOver(s - rest, f) + f(x)
  {
    SumOverAdd(s - rest, f, x);
    assert s - rest + {x} == s - (rest - {x});
  }

  /** Elements whose term is zero can be dropped from the sum. */
  lemma {:induction false} SumOverDropZeros(s: set<string>, t: set<string>, f: string -> real)
    requires t <= s
    requires forall w :: w in s - t ==> f(w) == 0.0
    ensures SumOver(s, f) == SumOver(t, f)
    decreases |s|
  {
    if s - t != {} {
      var w :| w in s - t;
      SumOverRemove(s, f, w);
      SumOverDropZeros(s - {w}, t, f);
    } else {
      assert s == t;
    }
  }

  /** A pointwise smaller term gives a smaller sum. */
  lemma {:induction false} SumOverMonotone(s: set<string>, f: string -> real, g: string -> real)
    requires forall w :: w in s ==> f(w) <= g(w)
    ensures SumOver(s, f) <= SumOver(s, g)
    decreases |s|
  {
    if s != {} {
      var w :| w in s;
      SumOverRemove(s, f, w);
      SumOverRemove(s, g, w);
      SumOverMonotone(s - {w}, f, g);
    }
  }
}
