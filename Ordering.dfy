/**
 * The `$sort` stage `{ '_id.year': -1, '_id.month': -1 }`: year descending,
 * then month descending. Modelled as an insertion sort, proved to return a
 * permutation of its input in that order.
 */
module Ordering {
  import opened Records
  import opened Grouping

  /** `a` sorts no later than `b`: a later year, or the same year and a later or equal month. */
  predicate KeyAtLeast(a: MonthKey, b: MonthKey) {
    a.year > b.year || (a.year == b.year && a.month >= b.month)
  }

  /** `a` sorts strictly before `b`. */
  predicate KeyAbove(a: MonthKey, b: MonthKey) {
    a.year > b.year || (a.year == b.year && a.month > b.month)
  }

  /** Every group comes no later than each group after it. */
  predicate SortedDesc(gs: seq<Group>) {
    forall i, j :: 0 <= i < j < |gs| ==> KeyAtLeast(gs[i].id, gs[j].id)
  }

  /** Every group comes strictly before each group after it. */
  predicate StrictlyDesc(gs: seq<Group>) {
    forall i, j :: 0 <= i < j < |gs| ==> KeyAbove(gs[i].id, gs[j].id)
  }

  /** No two groups share a key. */
  predicate DistinctIds(gs: seq<Group>) {
    forall i, j :: 0 <= i < j < |gs| ==> gs[i].id != gs[j].id
  }

  /** A group that sorts no later than every group of a sorted list may lead it. */
  lemma PrependSorted(h: Group, rest: seq<Group>)
    requires SortedDesc(rest)
    requires forall x | x in rest :: KeyAtLeast(h.id, x.id)
    ensures SortedDesc([h] + rest)
  {
    forall i, j | 0 <= i < j < |[h] + rest| ensures KeyAtLeast(([h] + rest)[i].id, ([h] + rest)[j].id) {
      assert ([h] + rest)[j] == rest[j - 1];
      if i > 0 {
        assert ([h] + rest)[i] == rest[i - 1];
      } else {
        assert rest[j - 1] in rest;
      }
    }
  }

  /** Insert `g` in front of the first group it does not sort after. */
  function Insert(g: Group, gs: seq<Group>): (r: seq<Group>)
    ensures multiset(r) == multiset(gs) + multiset{g}
    ensures SumCounts(r) == g.count + SumCounts(gs) && SumTotals(r) == g.totalAmount + SumTotals(gs)
  {
    if gs == [] || KeyAtLeast(g.id, gs[0].id) then [g] + gs
    else
      assert multiset(gs) == multiset{gs[0]} + multiset(gs[1..]) by { assert gs == [gs[0]] + gs[1..]; }
      [gs[0]] + Insert(g, gs[1..])
  }

  /** Inserting into a sorted list keeps it sorted. */
  lemma {:induction false} InsertKeepsSorted(g: Group, gs: seq<Group>)
    requires SortedDesc(gs)
    ensures SortedDesc(Insert(g, gs))
  {
    if gs == [] || KeyAtLeast(g.id, gs[0].id) {
      forall x | x in gs ensures KeyAtLeast(g.id, x.id) {
        var p :| 0 <= p < |gs| && gs[p] == x;
        assert p == 0 || KeyAtLeast(gs[0].id, gs[p].id);
      }
      PrependSorted(g, gs);
    } else {
      var rest := Insert(g, gs[1..]);
      assert SortedDesc(gs[1..]) by {
        forall i, j | 0 <= i < j < |gs[1..]| ensures KeyAtLeast(gs[1..][i].id, gs[1..][j].id) {
          assert gs[1..][i] == gs[i + 1] && gs[1..][j] == gs[j + 1];
        }
      }
      InsertKeepsSorted(g, gs[1..]);
      forall x | x in rest ensures KeyAtLeast(gs[0].id, x.id) {
        assert x in multiset(rest);
        if x != g {
          assert x in multiset(gs[1..]);
          var p :| 0 <= p < |gs[1..]| && gs[1..][p] == x;
          assert gs[p + 1] == x;
        }
      }
      PrependSorted(gs[0], rest);
    }
  }

  /** The `$sort` stage. */
  function SortDesc(gs: seq<Group>): (r: seq<Group>)
    ensures multiset(r) == multiset(gs)
    ensures SortedDesc(r)
    ensures SumCounts(r) == SumCounts(gs) && SumTotals(r) == SumTotals(gs)
  {
    if gs == [] then []
    else
      assert gs == [gs[0]] + gs[1..];
      InsertKeepsSorted(gs[0], SortDesc(gs[1..]));
      Insert(gs[0], SortDesc(gs[1..]))
  }

  /** Ordered groups with pairwise distinct keys are in strictly descending order. */
  lemma SortedDistinctIsStrict(gs: seq<Group>)
    requires SortedDesc(gs) && DistinctIds(gs)
    ensures StrictlyDesc(gs)
    ensures forall i :: 0 <= i < |gs| - 1 ==>
      gs[i].id.year > gs[i + 1].id.year || (gs[i].id.year == gs[i + 1].id.year && gs[i].id.month > gs[i + 1].id.month)
  {
  }

  /** Distinct keys survive any rearrangement of the same groups. */
  lemma DistinctIdsPermutation(xs: seq<Group>, ys: seq<Group>)
    requires multiset(xs) == multiset(ys) && DistinctIds(xs)
    ensures DistinctIds(ys)
  {
    forall i, j | 0 <= i < j < |ys| ensures ys[i].id != ys[j].id {
      if ys[i].id == ys[j].id {
        assert ys[i] in multiset(xs) && ys[j] in multiset(xs);
        var p :| 0 <= p < |xs| && xs[p] == ys[i];
        var q :| 0 <= q < |xs| && xs[q] == ys[j];
        if p == q {
          TwiceInMultiset(ys, i, j);
          OnceInMultiset(xs, p);
        }
        assert false;
      }
    }
  }

  lemma TwiceInMultiset(ys: seq<Group>, i: int, j: int)
    requires 0 <= i < j < |ys| && ys[i] == ys[j]
    ensures multiset(ys)[ys[i]] >= 2
  {
    assert ys == ys[..i] + [ys[i]] + ys[i + 1..j] + [ys[j]] + ys[j + 1..];
  }

  lemma {:induction false} OnceInMultiset(xs: seq<Group>, p: int)
    requires DistinctIds(xs) && 0 <= p < |xs|
    ensures multiset(xs)[xs[p]] == 1
  {
    assert xs == xs[..p] + [xs[p]] + xs[p + 1..];
    assert xs[p] !in xs[..p];
    assert xs[p] !in xs[p + 1..];
  }

  /** In a strictly descending sequence the first group sorts before every other member. */
  lemma HeadIsGreatest(xs: seq<Group>, g: Group)
    requires StrictlyDesc(xs) && g in xs
    ensures g == xs[0] || KeyAbove(xs[0].id, g.id)
  {
  }

  lemma SameTails(xs: seq<Group>, ys: seq<Group>)
    requires xs != [] && ys != [] && xs[0] == ys[0] && multiset(xs) == multiset(ys)
    ensures multiset(xs[1..]) == multiset(ys[1..])
  {
    assert xs == [xs[0]] + xs[1..] && ys == [ys[0]] + ys[1..];
    assert multiset(xs) == multiset{xs[0]} + multiset(xs[1..]);
    assert multiset(ys) == multiset{xs[0]} + multiset(ys[1..]);
    forall e ensures multiset(xs[1..])[e] == multiset(ys[1..])[e] {
      assert multiset(xs)[e] == multiset(ys)[e];
    }
  }

  lemma StrictTail(xs: seq<Group>)
    requires xs != [] && StrictlyDesc(xs)
    ensures StrictlyDesc(xs[1..])
  {
  }

  /** Two strictly descending arrangements of the same groups are the same sequence. */
  lemma {:induction false} StrictlyDescUnique(xs: seq<Group>, ys: seq<Group>)
    requires StrictlyDesc(xs) && StrictlyDesc(ys) && multiset(xs) == multiset(ys)
    ensures xs == ys
  {
    if xs != [] {
      assert |ys| == |xs| by { assert |multiset(ys)| == |multiset(xs)|; }
      assert xs[0] in multiset(ys) && ys[0] in multiset(xs);
      HeadIsGreatest(xs, ys[0]);
      HeadIsGreatest(ys, xs[0]);
      assert ys[0] == xs[0];
      SameTails(xs, ys);
      StrictTail(xs);
      StrictTail(ys);
      StrictlyDescUnique(xs[1..], ys[1..]);
      assert xs == [xs[0]] + xs[1..] && ys == [ys[0]] + ys[1..];
    }
  }

  /**
   * The result does not depend on the order the groups arrive in: any two
   * arrangements of the same groups with distinct keys sort to the same sequence.
   */
  lemma SortDescCanonical(xs: seq<Group>, ys: seq<Group>)
    requires multiset(xs) == multiset(ys) && DistinctIds(xs)
    ensures SortDesc(xs) == SortDesc(ys)
  {
    var sx, sy := SortDesc(xs), SortDesc(ys);
    DistinctIdsPermutation(xs, sx);
    DistinctIdsPermutation(xs, sy);
    SortedDistinctIsStrict(sx);
    SortedDistinctIsStrict(sy);
    StrictlyDescUnique(sx, sy);
  }

  /** Sorting an ordered sequence leaves it as it is. */
  lemma {:induction false} SortDescKeepsSorted(gs: seq<Group>)
    requires SortedDesc(gs)
    ensures SortDesc(gs) == gs
  {
    if gs != [] {
      assert SortedDesc(gs[1..]);
      SortDescKeepsSorted(gs[1..]);
      if |gs| > 1 { assert KeyAtLeast(gs[0].id, gs[1].id); }
      assert [gs[0]] + gs[1..] == gs;
    }
  }
}
