/**
 * The counting half of the Markov model trainer (train.py): how often each
 * state opens a tune, and how often each state is followed by each other
 * state. Turning the counts into probabilities and writing them out is not
 * part of this model.
 */
module Train {

  /** 1 when `t` opens with state `s`, else 0: what one tune adds to `init_count[s]`. */
  function Starts(t: seq<int>, s: int): nat
  {
    if t != [] && t[0] == s then 1 else 0
  }

  /** The number of places in `t` where state `a` is immediately followed by state `b`. */
  function Pairs(t: seq<int>, a: int, b: int): (c: nat)
    ensures c <= (if |t| < 2 then 0 else |t| - 1)
    decreases |t|
  {
    if |t| < 2 then 0
    else Pairs(t[..|t| - 1], a, b) + (if t[|t| - 2] == a && t[|t| - 1] == b then 1 else 0)
  }

  /** `init_count[s]` after training on `tunes`. */
  function InitCount(tunes: seq<seq<int>>, s: int): nat
    decreases |tunes|
  {
    if tunes == [] then 0 else InitCount(tunes[..|tunes| - 1], s) + Starts(tunes[|tunes| - 1], s)
  }

  /** `transition_count[a][b]` after training on `tunes`. */
  function TransCount(tunes: seq<seq<int>>, a: int, b: int): nat
    decreases |tunes|
  {
    if tunes == [] then 0 else TransCount(tunes[..|tunes| - 1], a, b) + Pairs(tunes[|tunes| - 1], a, b)
  }

  /** Every state of every tune indexes the tables: `0 <= state < numStates`. */
  predicate InRange(t: seq<int>, numStates: int) {
    forall k :: 0 <= k < |t| ==> 0 <= t[k] < numStates
  }

  // ---------------------------------------------------------------------------
  // Totals over the tables

  /** `sum(init_count[:n])` for the counts after `tunes`. */
  function InitTotal(tunes: seq<seq<int>>, n: nat): nat
  {
    if n == 0 then 0 else InitTotal(tunes, n - 1) + InitCount(tunes, n - 1)
  }

  /** `sum(transition_count[a][:n])` for one tune. */
  function RowTotal(t: seq<int>, a: int, n: nat): nat
  {
    if n == 0 then 0 else RowTotal(t, a, n - 1) + Pairs(t, a, n - 1)
  }

  /** The number of non-empty tunes. */
  function NonEmpty(tunes: seq<seq<int>>): nat
    decreases |tunes|
  {
    if tunes == [] then 0 else NonEmpty(tunes[..|tunes| - 1]) + (if tunes[|tunes| - 1] != [] then 1 else 0)
  }

  /** Adding one tune adds 1 to the sum of the opening counts when it opens with a state below `n`. */
  lemma {:induction false} InitTotalSnoc(tunes: seq<seq<int>>, t: seq<int>, n: nat)
    ensures InitTotal(tunes + [t], n) == InitTotal(tunes, n) + (if t != [] && 0 <= t[0] < n then 1 else 0)
  {
    if n > 0 {
      InitTotalSnoc(tunes, t, n - 1);
      assert (tunes + [t])[..|tunes + [t]| - 1] == tunes;
    }
  }

  /** The opening counts add up to the number of non-empty tunes. */
  lemma {:induction false} InitTotalNonEmpty(tunes: seq<seq<int>>, n: nat)
    requires forall i :: 0 <= i < |tunes| ==> InRange(tunes[i], n)
    ensures InitTotal(tunes, n) == NonEmpty(tunes)
    decreases |tunes|
  {
    if tunes == [] {
      InitTotalEmpty(n);
    } else {
      var front, t := tunes[..|tunes| - 1], tunes[|tunes| - 1];
      assert front + [t] == tunes;
      InitTotalNonEmpty(front, n);
      InitTotalSnoc(front, t, n);
    }
  }

  lemma {:induction false} InitTotalEmpty(n: nat)
    ensures InitTotal([], n) == 0
  {
    if n > 0 {
      InitTotalEmpty(n - 1);
    }
  }

  /** Appending state `x` after `y` adds one pair to row `y`, at column `x`. */
  lemma {:induction false} RowTotalSnoc(t: seq<int>, x: int, a: int, n: nat)
    requires t != []
    ensures RowTotal(t + [x], a, n) == RowTotal(t, a, n) + (if t[|t| - 1] == a && 0 <= x < n then 1 else 0)
  {
    assert (t + [x])[..|t + [x]| - 1] == t;
    if n > 0 {
      RowTotalSnoc(t, x, a, n - 1);
    }
  }

  lemma {:induction false} GridTotalSnocBelow(t: seq<int>, x: int, n: nat, m: nat)
    requires t != [] && 0 <= x < n && m <= n
    ensures GridTotal(t + [x], n, m) == GridTotal(t, n, m) + (if 0 <= t[|t| - 1] < m then 1 else 0)
  {
    if m > 0 {
      GridTotalSnocBelow(t, x, n, m - 1);
      RowTotalSnoc(t, x, m - 1, n);
    }
  }

  /** The sum of the first `m` rows of the `n`-column transition counts of one tune. */
  function GridTotal(t: seq<int>, n: nat, m: nat): nat
  {
    if m == 0 then 0 else GridTotal(t, n, m - 1) + RowTotal(t, m - 1, n)
  }

  /** A tune of `k` in-range states contributes `k - 1` transitions in all. */
  lemma {:induction false} GridTotalPairs(t: seq<int>, n: nat)
    requires InRange(t, n)
    ensures GridTotal(t, n, n) == if t == [] then 0 else |t| - 1
    decreases |t|
  {
    if |t| < 2 {
      GridTotalShort(t, n, n);
    } else {
      var front, x := t[..|t| - 1], t[|t| - 1];
      assert front + [x] == t;
      GridTotalPairs(front, n);
      GridTotalSnocBelow(front, x, n, n);
    }
  }

  lemma {:induction false} GridTotalShort(t: seq<int>, n: nat, m: nat)
    requires |t| < 2
    ensures GridTotal(t, n, m) == 0
  {
    if m > 0 {
      GridTotalShort(t, n, m - 1);
      RowTotalShort(t, m - 1, n);
    }
  }

  lemma {:induction false} RowTotalShort(t: seq<int>, a: int, n: nat)
    requires |t| < 2
    ensures RowTotal(t, a, n) == 0
  {
    if n > 0 {
      RowTotalShort(t, a, n - 1);
    }
  }

  /** `sum(transition_count[a][:n])` after training on `tunes`. */
  function TransRowTotal(tunes: seq<seq<int>>, a: int, n: nat): nat
  {
    if n == 0 then 0 else TransRowTotal(tunes, a, n - 1) + TransCount(tunes, a, n - 1)
  }

  /** The sum of the first `m` rows of the `n`-column transition table after training on `tunes`. */
  function TransGridTotal(tunes: seq<seq<int>>, n: nat, m: nat): nat
  {
    if m == 0 then 0 else TransGridTotal(tunes, n, m - 1) + TransRowTotal(tunes, m - 1, n)
  }

  /** The number of adjacent pairs over all tunes: `len(tune) - 1` for each non-empty one. */
  function Transitions(tunes: seq<seq<int>>): nat
    decreases |tunes|
  {
    if tunes == [] then 0
    else
      var t := tunes[|tunes| - 1];
      Transitions(tunes[..|tunes| - 1]) + (if t == [] then 0 else |t| - 1)
  }

  lemma {:induction false} TransRowTotalSnoc(tunes: seq<seq<int>>, t: seq<int>, a: int, n: nat)
    ensures TransRowTotal(tunes + [t], a, n) == TransRowTotal(tunes, a, n) + RowTotal(t, a, n)
  {
    if n > 0 {
      TransRowTotalSnoc(tunes, t, a, n - 1);
      assert (tunes + [t])[..|tunes + [t]| - 1] == tunes;
    }
  }

  lemma {:induction false} TransGridTotalSnoc(tunes: seq<seq<int>>, t: seq<int>, n: nat, m: nat)
    ensures TransGridTotal(tunes + [t], n, m) == TransGridTotal(tunes, n, m) + GridTotal(t, n, m)
  {
    if m > 0 {
      TransGridTotalSnoc(tunes, t, n, m - 1);
      TransRowTotalSnoc(tunes, t, m - 1, n);
    }
  }

  lemma {:induction false} TransGridTotalEmpty(n: nat, m: nat)
    ensures TransGridTotal([], n, m) == 0
  {
    if m > 0 {
      TransGridTotalEmpty(n, m - 1);
      TransRowTotalEmpty(m - 1, n);
    }
  }

  lemma {:induction false} TransRowTotalEmpty(a: int, n: nat)
    ensures TransRowTotal([], a, n) == 0
  {
    if n > 0 {
      TransRowTotalEmpty(a, n - 1);
    }
  }

  /** The whole transition table counts exactly the adjacent pairs of all tunes. */
  lemma {:induction false} TransGridTotalPairs(tunes: seq<seq<int>>, n: nat)
    requires forall i :: 0 <= i < |tunes| ==> InRange(tunes[i], n)
    ensures TransGridTotal(tunes, n, n) == Transitions(tunes)
    decreases |tunes|
  {
    if tunes == [] {
      TransGridTotalEmpty(n, n);
    } else {
      var front, t := tunes[..|tunes| - 1], tunes[|tunes| - 1];
      assert front + [t] == tunes;
      TransGridTotalPairs(front, n);
      TransGridTotalSnoc(front, t, n, n);
      GridTotalPairs(t, n);
    }
  }

  // ---------------------------------------------------------------------------
  // The counter object

  /** `Markov` of train.py, without its output method. */
  class Markov {
    const numStates: nat
    /** `transition_count[a][b]`: how often state `a` was followed by state `b`. */
    const transitionCount: array2<int>
    /** `init_count[s]`: how often a tune opened with state `s`. */
    const initCount: array<int>
    var numTunes: int
    /** Every tune passed to `AddTransitions` so far, in order. */
    ghost var tunes: seq<seq<int>>

    /** The tables hold exactly the counts of the tunes seen so far. */
    ghost predicate Valid()
      reads this, initCount, transitionCount
    {
      && initCount.Length == numStates
      && transitionCount.Length0 == numStates && transitionCount.Length1 == numStates
      && numTunes == |tunes|
      && (forall i :: 0 <= i < |tunes| ==> InRange(tunes[i], numStates))
      && (forall s :: 0 <= s < numStates ==> initCount[s] == InitCount(tunes, s))
      && (forall a, b :: 0 <= a < numStates && 0 <= b < numStates ==> transitionCount[a, b] == TransCount(tunes, a, b))
    }

    /** Lines 13-23: all counts start at zero and no tune has been seen. */
    constructor (numStates: nat)
      ensures Valid() && fresh(initCount) && fresh(transitionCount)
      ensures this.numStates == numStates && numTunes == 0 && tunes == []
      ensures forall s :: 0 <= s < numStates ==> initCount[s] == 0
      ensures forall a, b :: 0 <= a < numStates && 0 <= b < numStates ==> transitionCount[a, b] == 0
    {
      this.numStates := numStates;
      transitionCount := new int[numStates, numStates]((a, b) => 0);
      initCount := new int[numStates](s => 0);
      numTunes := 0;
      tunes := [];
    }

    /**
     * Lines 25-36: the first state of `tune` is counted as an opening, every
     * adjacent pair as a transition, and the tune count grows by one, even for
     * an empty `tune`. No other count changes.
     */
    method AddTransitions(tune: seq<int>)
      requires Valid() && InRange(tune, numStates)
      modifies this, initCount, transitionCount
      ensures Valid() && tunes == old(tunes) + [tune]
      ensures numTunes == old(numTunes) + 1
      ensures forall s :: 0 <= s < numStates ==> initCount[s] == old(initCount[s]) + Starts(tune, s)
      ensures forall a, b :: 0 <= a < numStates && 0 <= b < numStates ==>
                transitionCount[a, b] == old(transitionCount[a, b]) + Pairs(tune, a, b)
    {
      var last := 0;
      var i := 0;
      while i < |tune|
        modifies initCount, transitionCount
        invariant 0 <= i <= |tune|
        invariant i > 0 ==> last == tune[i - 1]
        invariant forall s :: 0 <= s < numStates ==> initCount[s] == old(initCount[s]) + Starts(tune[..i], s)
        invariant forall a, b :: 0 <= a < numStates && 0 <= b < numStates ==>
                    transitionCount[a, b] == old(transitionCount[a, b]) + Pairs(tune[..i], a, b)
      {
        var num := tune[i];
        assert tune[..i + 1][..i] == tune[..i];
        if i == 0 {
          initCount[num] := initCount[num] + 1;
        } else {
          transitionCount[last, num] := transitionCount[last, num] + 1;
        }
        last := num;
        i := i + 1;
      }
      assert tune[..i] == tune;
      numTunes := numTunes + 1;
      tunes := tunes + [tune];
      assert tunes[..|tunes| - 1] == old(tunes);
      assert forall i :: 0 <= i < |old(tunes)| ==> tunes[i] == old(tunes)[i];
    }
  }

  /**
   * The opening counts add up to the number of tunes whenever every tune was
   * non-empty; an empty tune raises the tune count without any opening.
   */
  lemma InitCountsTotalTunes(m: Markov)
    requires m.Valid()
    ensures InitTotal(m.tunes, m.numStates) == NonEmpty(m.tunes) <= m.numTunes
    ensures (forall i :: 0 <= i < |m.tunes| ==> m.tunes[i] != []) ==> InitTotal(m.tunes, m.numStates) == m.numTunes
  {
    InitTotalNonEmpty(m.tunes, m.numStates);
    NonEmptyBound(m.tunes);
  }

  /**
   * The transition table's entries add up to `len(tune) - 1` for every
   * non-empty tune trained on so far.
   */
  lemma TransCountsTotalPairs(m: Markov)
    requires m.Valid()
    ensures TransGridTotal(m.tunes, m.numStates, m.numStates) == Transitions(m.tunes)
  {
    TransGridTotalPairs(m.tunes, m.numStates);
  }

  lemma {:induction false} NonEmptyBound(tunes: seq<seq<int>>)
    ensures NonEmpty(tunes) <= |tunes|
    ensures (forall i :: 0 <= i < |tunes| ==> tunes[i] != []) ==> NonEmpty(tunes) == |tunes|
    decreases |tunes|
  {
    if tunes != [] {
      NonEmptyBound(tunes[..|tunes| - 1]);
    }
  }
}
