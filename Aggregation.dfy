/**
 * The whole aggregation pipeline shared by both routes:
 * `$match` (non-empty `transactions`), `$unwind`, date normalization,
 * `$group` by year and month, `$sort` descending. An unreadable text date
 * fails the whole aggregation.
 */
module Aggregation {
  import opened Wrappers
  import opened Records
  import opened Extraction
  import opened Normalization
  import opened Grouping
  import opened Ordering

  /** The pipeline run over the given user documents, in collection order. */
  function Pipeline(users: seq<Account>, parse: string -> Option<Instant>): Result<seq<Group>, Failure> {
    match NormalizeAll(Unwind(MatchNonEmpty(users)), parse)
    case Err(e) => Err(e)
    case Ok(items) => Ok(SortDesc(Emit(items)))
  }

  /** The sum of the amounts of the unwound transactions. */
  function TransactionTotal(ts: seq<Transaction>): int {
    if ts == [] then 0 else ts[0].amount + TransactionTotal(ts[1..])
  }

  /** Sum of amounts computed front to back equals the back-to-front sum. */
  lemma {:induction false} SumAmountsCons(it: Item, items: seq<Item>)
    ensures SumAmounts([it] + items) == it.amount + SumAmounts(items)
  {
    if items != [] {
      var s := [it] + items;
      assert s[..|s| - 1] == [it] + items[..|items| - 1];
      SumAmountsCons(it, items[..|items| - 1]);
    } else {
      assert ([it] + items)[..0] == [];
    }
  }

  /** Normalization changes dates only, so it keeps the total amount. */
  lemma {:induction false} NormalizeKeepsTotal(ts: seq<Transaction>, parse: string -> Option<Instant>)
    requires NormalizeAll(ts, parse).Ok?
    ensures SumAmounts(NormalizeAll(ts, parse).value) == TransactionTotal(ts)
  {
    if ts != [] {
      var items := NormalizeAll(ts, parse).value;
      assert NormalizeAll(ts[1..], parse).Ok?;
      NormalizeKeepsTotal(ts[1..], parse);
      assert items == [items[0]] + NormalizeAll(ts[1..], parse).value;
      SumAmountsCons(items[0], NormalizeAll(ts[1..], parse).value);
    }
  }

  /** The pipeline fails exactly when some unwound text date cannot be read. */
  lemma PipelineFailsOnlyOnBadDates(users: seq<Account>, parse: string -> Option<Instant>)
    ensures Pipeline(users, parse).Err? <==> exists t :: t in Unwind(users) && !Parses(t, parse)
    ensures Pipeline(users, parse).Err? ==>
      exists t :: t in Unwind(users) && t.date.Text? && Pipeline(users, parse).error == UnparsableDate(t.date.text)
  {
    MatchThenUnwind(users);
    var ts := Unwind(users);
    if Pipeline(users, parse).Err? {
      var i :| FirstUnparsable(ts, i, parse) && NormalizeAll(ts, parse).error == UnparsableDate(ts[i].date.text);
      assert ts[i] in ts;
    } else {
      forall t | t in ts ensures Parses(t, parse) {
        var i :| 0 <= i < |ts| && ts[i] == t;
      }
    }
  }

  /**
   * The result is in strictly descending (year, month) order and no two groups
   * share a key: for adjacent groups A then B, A.year > B.year, or the years
   * are equal and A.month > B.month.
   */
  lemma PipelineOrdered(users: seq<Account>, parse: string -> Option<Instant>)
    requires Pipeline(users, parse).Ok?
    ensures DistinctIds(Pipeline(users, parse).value)
    ensures StrictlyDesc(Pipeline(users, parse).value)
    ensures var gs := Pipeline(users, parse).value;
      forall i :: 0 <= i < |gs| - 1 ==>
        gs[i].id.year > gs[i + 1].id.year || (gs[i].id.year == gs[i + 1].id.year && gs[i].id.month > gs[i + 1].id.month)
  {
    var items := NormalizeAll(Unwind(MatchNonEmpty(users)), parse).value;
    EmitShape(items);
    DistinctIdsPermutation(Emit(items), SortDesc(Emit(items)));
    SortedDistinctIsStrict(SortDesc(Emit(items)));
  }

  /**
   * Conservation: the counts of all groups add up to the number of unwound
   * transactions, and their totals to the sum of all amounts.
   */
  lemma PipelineConserves(users: seq<Account>, parse: string -> Option<Instant>)
    requires Pipeline(users, parse).Ok?
    ensures SumCounts(Pipeline(users, parse).value) == |Unwind(users)|
    ensures SumTotals(Pipeline(users, parse).value) == TransactionTotal(Unwind(users))
  {
    MatchThenUnwind(users);
    var ts := Unwind(users);
    var items := NormalizeAll(ts, parse).value;
    EmitConserves(items);
    NormalizeKeepsTotal(ts, parse);
  }

  /** Sorting keeps exactly the emitted groups. */
  lemma SortedGroupsAreEmitted(items: seq<Item>, g: Group)
    ensures g in SortDesc(Emit(items)) <==> g in Emit(items)
  {
    assert g in SortDesc(Emit(items)) <==> g in multiset(SortDesc(Emit(items)));
  }

  /**
   * Each group is non-empty, its count is the number of its items and its
   * total their summed amount, and all its items fall in its month.
   */
  lemma PipelineGroupShape(users: seq<Account>, parse: string -> Option<Instant>)
    requires Pipeline(users, parse).Ok?
    ensures forall g :: g in Pipeline(users, parse).value ==>
      g.count == |g.items| >= 1 && g.totalAmount == SumAmounts(g.items) &&
      forall it :: it in g.items ==> KeyOf(it) == g.id
  {
    var items := NormalizeAll(Unwind(MatchNonEmpty(users)), parse).value;
    var gs := Pipeline(users, parse).value;
    forall g | g in gs
      ensures g.count == |g.items| >= 1 && g.totalAmount == SumAmounts(g.items)
      ensures forall it :: it in g.items ==> KeyOf(it) == g.id
    {
      SortedGroupsAreEmitted(items, g);
      EmitShape(items);
      var i :| 0 <= i < |Emit(items)| && Emit(items)[i] == g;
      assert g == ToGroup(g.id, Expected(items, g.id));
      GroupByMonthIsFilter(items, g.id);
      GroupInvariants(items);
    }
  }

  /** Some group of `gs` has the key of `it` and holds `it`. */
  predicate InOwnGroup(it: Item, gs: seq<Group>) {
    exists g :: g in gs && g.id == KeyOf(it) && it in g.items
  }

  /** Every normalized transaction is in the group of its own (year, month). */
  lemma PipelineCoversTransactions(users: seq<Account>, parse: string -> Option<Instant>)
    requires Pipeline(users, parse).Ok?
    ensures forall t :: t in Unwind(users) ==>
      NormalizeTransaction(t, parse).Ok? && InOwnGroup(NormalizeTransaction(t, parse).value, Pipeline(users, parse).value)
  {
    MatchThenUnwind(users);
    var ts := Unwind(users);
    var items := NormalizeAll(ts, parse).value;
    var gs := Pipeline(users, parse).value;
    forall t | t in ts
      ensures NormalizeTransaction(t, parse).Ok?
      ensures InOwnGroup(NormalizeTransaction(t, parse).value, gs)
    {
      var n :| 0 <= n < |ts| && ts[n] == t;
      var it := items[n];
      assert it == NormalizeTransaction(t, parse).value;
      EmitOf(items, it);
      var g :| g in Emit(items) && g.id == KeyOf(it) && it in g.items;
      SortedGroupsAreEmitted(items, g);
    }
  }

  /** The emitted group of a record's month holds the record. */
  lemma EmitOf(items: seq<Item>, it: Item)
    requires it in items
    ensures exists g :: g in Emit(items) && g.id == KeyOf(it) && it in g.items
  {
    var k := KeyOf(it);
    EmitShape(items);
    assert k in IdsOf(Emit(items));
    var g :| g in Emit(items) && g.id == k;
    var i :| 0 <= i < |Emit(items)| && Emit(items)[i] == g;
    GroupByMonthIsFilter(items, k);
    InMonthMember(items, k, it);
  }

  /**
   * The engine may emit the groups of `$group` in any order; the sorted
   * result is the same for every order.
   */
  lemma PipelineIndependentOfGroupOrder(items: seq<Item>, emitted: seq<Group>)
    requires multiset(emitted) == multiset(Emit(items))
    ensures SortDesc(emitted) == SortDesc(Emit(items))
  {
    EmitShape(items);
    SortDescCanonical(Emit(items), emitted);
  }

  /**
   * A text date and a native date for the same instant land in the same
   * group: collections whose unwound transactions normalize alike give the
   * same result.
   */
  lemma TextAndNativeDatesAgree(users: seq<Account>, others: seq<Account>, parse: string -> Option<Instant>)
    requires NormalizeAlike(Unwind(users), Unwind(others), parse)
    ensures Pipeline(users, parse) == Pipeline(others, parse)
  {
    MatchThenUnwind(users);
    MatchThenUnwind(others);
    NormalizeAllAlike(Unwind(users), Unwind(others), parse);
  }

  /** An account whose list is absent or empty changes nothing. */
  lemma AccountWithoutTransactionsIgnored(before: seq<Account>, a: Account, after: seq<Account>, parse: string -> Option<Instant>)
    requires !HasTransactions(a)
    ensures Pipeline(before + [a] + after, parse) == Pipeline(before + after, parse)
  {
    MatchThenUnwind(before + [a] + after);
    MatchThenUnwind(before + after);
    SkipsAccountWithoutTransactions(before, a, after);
  }

  /** No account with transactions: no groups and no failure. */
  lemma NothingToGroup(users: seq<Account>, parse: string -> Option<Instant>)
    requires forall a :: a in users ==> !HasTransactions(a)
    ensures Pipeline(users, parse) == Ok([])
  {
    MatchNoneWithoutTransactions(users);
  }

  /** An account with a single readable transaction gives one group of count 1. */
  lemma SingleTransaction(a: Account, t: Transaction, parse: string -> Option<Instant>)
    requires a.transactions == Some([t]) && Parses(t, parse)
    ensures var it := NormalizeTransaction(t, parse).value;
      Pipeline([a], parse) == Ok([Group(KeyOf(it), 1, t.amount, [it])])
  {
    var it := NormalizeTransaction(t, parse).value;
    assert Unwind(MatchNonEmpty([a])) == [t] by {
      assert MatchNonEmpty([a]) == [a];
      assert Unwind([a]) == [t] + Unwind([]);
    }
    assert [t][1..] == [];
    assert NormalizeAll([t], parse) == Ok([it] + []);
    var gs := Emit([it]);
    assert [it][..0] == [];
    assert GroupByMonth([it]) == map[KeyOf(it) := Accumulator(1, t.amount, [it])];
    assert DistinctKeys([it]) == [KeyOf(it)];
    assert gs == [Group(KeyOf(it), 1, t.amount, [it])];
  }
}
