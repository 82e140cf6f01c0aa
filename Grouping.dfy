/**
 * The `$group` stage: the key is the year and month of the normalized date;
 * each group counts its records (`$sum: 1`), sums their amounts
 * (`$sum: '$transactions.amount'`) and collects the `{type, amount, date}`
 * records (`$push`). It is a fold of the record stream into a map from key to
 * accumulator, checked here against a direct definition by filtering.
 */
module Grouping {
  import opened Records

  /** The `_id` of the group a record belongs to. */
  function KeyOf(it: Item): MonthKey {
    MonthKey(it.date.year, it.date.month)
  }

  /** The running `count`, `totalAmount` and `items` of one group. */
  datatype Accumulator = Accumulator(count: int, totalAmount: int, items: seq<Item>)

  /** The keys occurring in a stream. */
  function KeysOf(items: seq<Item>): set<MonthKey> {
    set it | it in items :: KeyOf(it)
  }

  /** The records of month `k`, in stream order (the reference definition of a group). */
  function InMonth(items: seq<Item>, k: MonthKey): (r: seq<Item>)
    ensures |r| <= |items|
  {
    if items == [] then []
    else InMonth(items[..|items| - 1], k) + (if KeyOf(items[|items| - 1]) == k then [items[|items| - 1]] else [])
  }

  /** A record is in month `k` exactly when it occurs in the stream with key `k`. */
  lemma {:induction false} InMonthMember(items: seq<Item>, k: MonthKey, it: Item)
    ensures it in InMonth(items, k) <==> it in items && KeyOf(it) == k
  {
    if items != [] {
      var init, last := items[..|items| - 1], items[|items| - 1];
      assert items == init + [last];
      InMonthMember(init, k, it);
    }
  }

  /** The sum of the amounts of a stream. */
  function SumAmounts(items: seq<Item>): int {
    if items == [] then 0 else SumAmounts(items[..|items| - 1]) + items[|items| - 1].amount
  }

  /** One step of `$group`: open the record's group or add the record to it. */
  function Accumulate(groups: map<MonthKey, Accumulator>, it: Item): map<MonthKey, Accumulator> {
    var k := KeyOf(it);
    if k in groups then
      var a := groups[k];
      groups[k := Accumulator(a.count + 1, a.totalAmount + it.amount, a.items + [it])]
    else
      groups[k := Accumulator(1, it.amount, [it])]
  }

  /** The accumulator the direct definition assigns to month `k`. */
  function Expected(items: seq<Item>, k: MonthKey): Accumulator {
    var r := InMonth(items, k);
    Accumulator(|r|, SumAmounts(r), r)
  }

  /** `$group` over a record stream: the fold of `Accumulate` from an empty map. */
  function GroupByMonth(items: seq<Item>): map<MonthKey, Accumulator> {
    if items == [] then map[]
    else Accumulate(GroupByMonth(items[..|items| - 1]), items[|items| - 1])
  }

  /** Adding a key-`k` record to month `k`: one more, its amount more, the record at the end. */
  lemma InMonthSnoc(init: seq<Item>, last: Item, k: MonthKey)
    ensures InMonth(init + [last], k) == InMonth(init, k) + (if KeyOf(last) == k then [last] else [])
    ensures KeyOf(last) == k ==> SumAmounts(InMonth(init + [last], k)) == SumAmounts(InMonth(init, k)) + last.amount
  {
    var items := init + [last];
    assert items[..|items| - 1] == init;
    var f := InMonth(init, k);
    assert (f + [last])[..|f|] == f;
  }

  lemma KeysOfSnoc(init: seq<Item>, last: Item)
    ensures KeysOf(init + [last]) == KeysOf(init) + {KeyOf(last)}
  {
    var items := init + [last];
    forall k | k in KeysOf(items) ensures k in KeysOf(init) + {KeyOf(last)} {
      var it :| it in items && KeyOf(it) == k;
      assert it in init || it == last;
    }
  }

  /** A record of another month leaves month `k` as it was. */
  lemma ExpectedOtherKey(init: seq<Item>, last: Item, k: MonthKey)
    requires KeyOf(last) != k
    ensures Expected(init + [last], k) == Expected(init, k)
  {
    InMonthSnoc(init, last, k);
    assert InMonth(init, k) + [] == InMonth(init, k);
  }

  /** A record of month `k` adds one to the count, its amount to the total, itself to the items. */
  lemma ExpectedSameKey(init: seq<Item>, last: Item, k: MonthKey)
    requires KeyOf(last) == k
    ensures var e := Expected(init, k);
      Expected(init + [last], k) == Accumulator(e.count + 1, e.totalAmount + last.amount, e.items + [last])
  {
    InMonthSnoc(init, last, k);
  }

  /** A month with no key in the stream has no records. */
  lemma ExpectedAbsentKey(init: seq<Item>, k: MonthKey)
    requires k !in KeysOf(init)
    ensures Expected(init, k) == Accumulator(0, 0, [])
  {
    var f := InMonth(init, k);
    if f != [] {
      InMonthMember(init, k, f[0]);
      assert false;
    }
  }

  /** One step of the fold keeps the agreement at key `k`. */
  lemma AccumulateAgrees(before: map<MonthKey, Accumulator>, init: seq<Item>, last: Item, k: MonthKey)
    requires k in before <==> k in KeysOf(init)
    requires k in before ==> before[k] == Expected(init, k)
    ensures k in Accumulate(before, last) <==> k in KeysOf(init + [last])
    ensures k in Accumulate(before, last) ==> Accumulate(before, last)[k] == Expected(init + [last], k)
  {
    KeysOfSnoc(init, last);
    var after := Accumulate(before, last);
    if KeyOf(last) != k {
      assert (k in after <==> k in before) && (k in before ==> after[k] == before[k]);
      ExpectedOtherKey(init, last, k);
    } else if k in before {
      ExpectedSameKey(init, last, k);
      var a := before[k];
      assert after[k] == Accumulator(a.count + 1, a.totalAmount + last.amount, a.items + [last]);
    } else {
      ExpectedSameKey(init, last, k);
      ExpectedAbsentKey(init, k);
      assert after[k] == Accumulator(1, last.amount, [last]);
    }
  }

  /**
   * The fold agrees with the direct definition: there is a group for `k`
   * exactly when some record has key `k`, and that group counts, sums and
   * collects exactly the records of month `k`.
   */
  lemma {:induction false} GroupByMonthIsFilter(items: seq<Item>, k: MonthKey)
    ensures k in GroupByMonth(items) <==> k in KeysOf(items)
    ensures k in GroupByMonth(items) ==> GroupByMonth(items)[k] == Expected(items, k)
  {
    if items != [] {
      var init, last := items[..|items| - 1], items[|items| - 1];
      assert items == init + [last];
      GroupByMonthIsFilter(init, k);
      AccumulateAgrees(GroupByMonth(init), init, last, k);
    }
  }

  /**
   * Every group is non-empty, `count` is the number of its items, `totalAmount`
   * their summed amount, and every item has the group's key; every record lands
   * in the group of its own key, and so in no other.
   */
  lemma GroupInvariants(items: seq<Item>)
    ensures forall k :: k in GroupByMonth(items) ==>
      var a := GroupByMonth(items)[k];
      a.count == |a.items| >= 1 && a.totalAmount == SumAmounts(a.items) &&
      forall it :: it in a.items ==> KeyOf(it) == k
    ensures forall it :: it in items ==> KeyOf(it) in GroupByMonth(items) && it in GroupByMonth(items)[KeyOf(it)].items
  {
    var groups := GroupByMonth(items);
    forall k | k in groups
      ensures |groups[k].items| >= 1 && forall it :: it in groups[k].items ==> KeyOf(it) == k
    {
      GroupOfKey(items, k);
    }
    forall it | it in items
      ensures KeyOf(it) in groups && it in groups[KeyOf(it)].items
    {
      GroupByMonthIsFilter(items, KeyOf(it));
      InMonthMember(items, KeyOf(it), it);
    }
  }

  /** An existing group holds at least one record, and only records of its key. */
  lemma GroupOfKey(items: seq<Item>, k: MonthKey)
    requires k in GroupByMonth(items)
    ensures |GroupByMonth(items)[k].items| >= 1
    ensures forall it :: it in GroupByMonth(items)[k].items ==> KeyOf(it) == k
  {
    GroupByMonthIsFilter(items, k);
    var it :| it in items && KeyOf(it) == k;
    InMonthMember(items, k, it);
    forall it' | it' in GroupByMonth(items)[k].items ensures KeyOf(it') == k {
      InMonthMember(items, k, it');
    }
  }

  /** The keys of a stream, each once, in order of first occurrence. */
  function DistinctKeys(items: seq<Item>): (ks: seq<MonthKey>)
    ensures forall k :: k in ks <==> k in KeysOf(items)
    ensures forall i, j :: 0 <= i < j < |ks| ==> ks[i] != ks[j]
  {
    if items == [] then []
    else
      var init, last := items[..|items| - 1], items[|items| - 1];
      assert items == init + [last];
      var ks := DistinctKeys(init);
      if KeyOf(last) in ks then ks else ks + [KeyOf(last)]
  }

  /** One more record for the fold. */
  lemma FoldSnoc(items: seq<Item>, x: Item)
    ensures GroupByMonth(items + [x]) == Accumulate(GroupByMonth(items), x)
  {
    assert (items + [x])[..|items|] == items;
  }

  /** One more record for the list of keys. */
  lemma KeysSnoc(items: seq<Item>, x: Item)
    ensures DistinctKeys(items + [x]) ==
      if KeyOf(x) in DistinctKeys(items) then DistinctKeys(items) else DistinctKeys(items) + [KeyOf(x)]
  {
    assert (items + [x])[..|items|] == items;
  }

  /** The document `$group` emits for the accumulator of key `k`. */
  function ToGroup(k: MonthKey, a: Accumulator): Group {
    Group(k, a.count, a.totalAmount, a.items)
  }

  /** The documents `$group` emits for the given keys. */
  function GroupsFor(ks: seq<MonthKey>, groups: map<MonthKey, Accumulator>): (gs: seq<Group>)
    requires forall k :: k in ks ==> k in groups
    ensures |gs| == |ks|
    ensures forall i :: 0 <= i < |ks| ==> gs[i] == ToGroup(ks[i], groups[ks[i]])
  {
    if ks == [] then [] else [ToGroup(ks[0], groups[ks[0]])] + GroupsFor(ks[1..], groups)
  }

  /**
   * The output of `$group`: one document per distinct key. The engine does not
   * fix their order; the model lists them in order of first occurrence.
   */
  function Emit(items: seq<Item>): seq<Group> {
    var ks := DistinctKeys(items);
    assert forall k :: k in ks ==> k in GroupByMonth(items) by {
      forall k | k in ks ensures k in GroupByMonth(items) { GroupByMonthIsFilter(items, k); }
    }
    GroupsFor(ks, GroupByMonth(items))
  }

  function SumCounts(gs: seq<Group>): int {
    if gs == [] then 0 else gs[0].count + SumCounts(gs[1..])
  }

  function SumTotals(gs: seq<Group>): int {
    if gs == [] then 0 else gs[0].totalAmount + SumTotals(gs[1..])
  }

  /** Summed over keys `ks`, the sizes and the amounts of the months. */
  ghost function CountOver(ks: seq<MonthKey>, items: seq<Item>): int {
    if ks == [] then 0 else |InMonth(items, ks[0])| + CountOver(ks[1..], items)
  }

  ghost function TotalOver(ks: seq<MonthKey>, items: seq<Item>): int {
    if ks == [] then 0 else SumAmounts(InMonth(items, ks[0])) + TotalOver(ks[1..], items)
  }

  /** How often `k` occurs in `ks`. */
  ghost function Occurrences(ks: seq<MonthKey>, k: MonthKey): int {
    if ks == [] then 0 else (if ks[0] == k then 1 else 0) + Occurrences(ks[1..], k)
  }

  /** `x.amount` once per occurrence of its key in `ks`. */
  ghost function AmountPerOccurrence(ks: seq<MonthKey>, x: Item): int {
    if ks == [] then 0 else (if ks[0] == KeyOf(x) then x.amount else 0) + AmountPerOccurrence(ks[1..], x)
  }

  lemma {:induction false} OccurrencesOfDistinct(ks: seq<MonthKey>, x: Item)
    requires forall i, j :: 0 <= i < j < |ks| ==> ks[i] != ks[j]
    ensures KeyOf(x) in ks ==> Occurrences(ks, KeyOf(x)) == 1 && AmountPerOccurrence(ks, x) == x.amount
  {
    var k := KeyOf(x);
    if ks != [] {
      assert forall i, j :: 0 <= i < j < |ks[1..]| ==> ks[1..][i] != ks[1..][j] by {
        forall i, j | 0 <= i < j < |ks[1..]| ensures ks[1..][i] != ks[1..][j] {
          assert ks[1..][i] == ks[i + 1] && ks[1..][j] == ks[j + 1];
        }
      }
      OccurrencesOfDistinct(ks[1..], x);
      assert k in ks <==> ks[0] == k || k in ks[1..] by { assert ks == [ks[0]] + ks[1..]; }
      if ks[0] == k { AbsentOccursNever(ks[1..], x); }
    }
  }

  lemma {:induction false} AbsentOccursNever(ks: seq<MonthKey>, x: Item)
    requires KeyOf(x) !in ks
    ensures Occurrences(ks, KeyOf(x)) == 0 && AmountPerOccurrence(ks, x) == 0
  {
    if ks != [] {
      assert ks == [ks[0]] + ks[1..];
      AbsentOccursNever(ks[1..], x);
    }
  }

  lemma {:induction false} OverEmpty(ks: seq<MonthKey>)
    ensures CountOver(ks, []) == 0 && TotalOver(ks, []) == 0
  {
    if ks != [] { OverEmpty(ks[1..]); }
  }

  /** Appending one record adds it once per occurrence of its key. */
  lemma {:induction false} OverSnoc(ks: seq<MonthKey>, items: seq<Item>, x: Item)
    ensures CountOver(ks, items + [x]) == CountOver(ks, items) + Occurrences(ks, KeyOf(x))
    ensures TotalOver(ks, items + [x]) == TotalOver(ks, items) + AmountPerOccurrence(ks, x)
  {
    if ks != [] {
      OverSnoc(ks[1..], items, x);
      var s := items + [x];
      assert s[..|s| - 1] == items;
      var m := InMonth(items, ks[0]);
      if KeyOf(x) == ks[0] {
        assert InMonth(s, ks[0]) == m + [x];
        assert (m + [x])[..|m|] == m;
      } else {
        assert InMonth(s, ks[0]) == m;
      }
    }
  }

  /** Over a list of distinct keys covering the stream, every record is counted once. */
  lemma {:induction false} OverCovering(ks: seq<MonthKey>, items: seq<Item>)
    requires forall i, j :: 0 <= i < j < |ks| ==> ks[i] != ks[j]
    requires forall it :: it in items ==> KeyOf(it) in ks
    ensures CountOver(ks, items) == |items|
    ensures TotalOver(ks, items) == SumAmounts(items)
  {
    if items == [] {
      OverEmpty(ks);
    } else {
      var init, last := items[..|items| - 1], items[|items| - 1];
      assert items == init + [last];
      OverCovering(ks, init);
      OverSnoc(ks, init, last);
      OccurrencesOfDistinct(ks, last);
    }
  }

  lemma {:induction false} SumsOfGroupsFor(ks: seq<MonthKey>, groups: map<MonthKey, Accumulator>, items: seq<Item>)
    requires forall k :: k in ks ==> k in groups && groups[k] == Expected(items, k)
    ensures SumCounts(GroupsFor(ks, groups)) == CountOver(ks, items)
    ensures SumTotals(GroupsFor(ks, groups)) == TotalOver(ks, items)
  {
    if ks != [] {
      var gs := GroupsFor(ks, groups);
      assert gs[0] == ToGroup(ks[0], groups[ks[0]]);
      assert gs[1..] == GroupsFor(ks[1..], groups);
      SumsOfGroupsFor(ks[1..], groups, items);
    }
  }

  /**
   * Conservation: over all emitted groups the counts add up to the number of
   * records and the totals to the sum of all amounts.
   */
  lemma EmitConserves(items: seq<Item>)
    ensures SumCounts(Emit(items)) == |items|
    ensures SumTotals(Emit(items)) == SumAmounts(items)
  {
    var ks, groups := DistinctKeys(items), GroupByMonth(items);
    forall k | k in ks ensures k in groups && groups[k] == Expected(items, k) {
      GroupByMonthIsFilter(items, k);
    }
    SumsOfGroupsFor(ks, groups, items);
    OverCovering(ks, items);
  }

  /** The keys of a sequence of groups. */
  function IdsOf(gs: seq<Group>): set<MonthKey> {
    set g | g in gs :: g.id
  }

  /**
   * The emitted documents have pairwise distinct keys, their keys are exactly
   * the keys of the stream, and each is the direct definition of its month.
   */
  lemma EmitShape(items: seq<Item>)
    ensures forall i, j :: 0 <= i < j < |Emit(items)| ==> Emit(items)[i].id != Emit(items)[j].id
    ensures IdsOf(Emit(items)) == KeysOf(items)
    ensures forall i :: 0 <= i < |Emit(items)| ==> Emit(items)[i] == ToGroup(Emit(items)[i].id, Expected(items, Emit(items)[i].id))
  {
    var gs, ks := Emit(items), DistinctKeys(items);
    forall i | 0 <= i < |gs| ensures gs[i].id == ks[i] && gs[i] == ToGroup(ks[i], Expected(items, ks[i])) {
      GroupByMonthIsFilter(items, ks[i]);
    }
    forall k | k in KeysOf(items) ensures k in IdsOf(gs) {
      var i :| 0 <= i < |ks| && ks[i] == k;
      assert gs[i] in gs;
    }
  }
}
