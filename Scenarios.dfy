/** Worked examples of the user route on a concrete collection. */
module Scenarios {
  import opened Wrappers
  import opened ObjectIds
  import opened Records
  import opened Extraction
  import opened Normalization
  import opened Grouping
  import Ordering
  import opened Aggregation
  import opened Routes

  const KnownUser := "507f1f77bcf86cd799439011"

  /** A date reader that knows the three dates of the example, at midnight UTC. */
  function ExampleParse(s: string): Option<Instant> {
    if s == "2024-03-05" then Some(Instant(2024, 3, 5, 0))
    else if s == "2024-03-20" then Some(Instant(2024, 3, 20, 0))
    else if s == "2024-01-02" then Some(Instant(2024, 1, 2, 0))
    else None
  }

  lemma KnownUserIsValid()
    ensures IsValidObjectId(Some(KnownUser))
  {
    assert forall i | 0 <= i < |KnownUser| :: IsHexChar(KnownUser[i]);
  }

  const ExampleTransactions := [
    Transaction("debit", 50, Text("2024-03-05")),
    Transaction("credit", 200, Text("2024-03-20")),
    Transaction("debit", 10, Text("2024-01-02"))]

  /** A collection holding one user, with the example's transactions stored with text dates. */
  function ExampleStore(id: ObjectId): Store {
    Store([Account(id, Some(ExampleTransactions))])
  }

  /** A malformed identifier is refused with 400 before any lookup, whatever is stored. */
  lemma MalformedIdRefused(store: Store, parse: string -> Option<Instant>)
    ensures ListForUser(Some(store), "not-a-valid-id", parse).status == StatusBadRequest
  {
    assert !MatchesHexRun("not-a-valid-id", 24);
  }

  const March := MonthKey(2024, 3)
  const January := MonthKey(2024, 1)
  const Debit50 := Item("debit", 50, Instant(2024, 3, 5, 0))
  const Credit200 := Item("credit", 200, Instant(2024, 3, 20, 0))
  const Debit10 := Item("debit", 10, Instant(2024, 1, 2, 0))

  /** The three text dates are read, and the records fall in March, March and January. */
  lemma ExampleNormalized()
    ensures NormalizeAll(ExampleTransactions, ExampleParse) == Ok([Debit50, Credit200, Debit10])
  {
    var ts := ExampleTransactions;
    assert ExampleParse("2024-01-02") == Some(Instant(2024, 1, 2, 0));
    assert ExampleParse("2024-03-20") == Some(Instant(2024, 3, 20, 0));
    assert ExampleParse("2024-03-05") == Some(Instant(2024, 3, 5, 0));
    NormalizeCons(ts[2], [], Debit10, [], ExampleParse);
    assert [ts[2]] + [] == ts[2..] && [Debit10] + [] == [Debit10];
    NormalizeCons(ts[1], ts[2..], Credit200, [Debit10], ExampleParse);
    assert [ts[1]] + ts[2..] == ts[1..];
    assert [Credit200] + [Debit10] == [Credit200, Debit10];
    NormalizeCons(ts[0], ts[1..], Debit50, [Credit200, Debit10], ExampleParse);
    assert [Debit50] + [Credit200, Debit10] == [Debit50, Credit200, Debit10];
    assert [ts[0]] + ts[1..] == ts;
  }

  /** The user's documents unwind to the example's transactions. */
  lemma ExampleUnwound(id: ObjectId)
    ensures Unwind(MatchNonEmpty(MatchId(ExampleStore(id).users, id))) == ExampleTransactions
  {
    var users := ExampleStore(id).users;
    assert MatchId(users, id) == users;
    assert MatchNonEmpty(users) == users;
    assert Unwind(users) == ExampleTransactions + Unwind([]);
  }

  /** The fold puts two records in March and one in January. */
  lemma ExampleFolded()
    ensures GroupByMonth([Debit50, Credit200, Debit10]) ==
      map[March := Accumulator(2, 250, [Debit50, Credit200]), January := Accumulator(1, 10, [Debit10])]
  {
    FoldSnoc([], Debit50);
    assert [] + [Debit50] == [Debit50];
    assert GroupByMonth([Debit50]) == map[March := Accumulator(1, 50, [Debit50])];
    FoldSnoc([Debit50], Credit200);
    assert [Debit50] + [Credit200] == [Debit50, Credit200];
    assert GroupByMonth([Debit50, Credit200]) == map[March := Accumulator(2, 250, [Debit50, Credit200])];
    FoldSnoc([Debit50, Credit200], Debit10);
    assert [Debit50, Credit200] + [Debit10] == [Debit50, Credit200, Debit10];
  }

  /** March is met first, January second. */
  lemma ExampleKeys()
    ensures DistinctKeys([Debit50, Credit200, Debit10]) == [March, January]
  {
    KeysSnoc([], Debit50);
    assert [] + [Debit50] == [Debit50];
    KeysSnoc([Debit50], Credit200);
    assert [Debit50] + [Credit200] == [Debit50, Credit200];
    KeysSnoc([Debit50, Credit200], Debit10);
    assert [Debit50, Credit200] + [Debit10] == [Debit50, Credit200, Debit10];
  }

  /** Grouping gives March (two records, 250) then January (one record, 10). */
  lemma ExampleGrouped()
    ensures Emit([Debit50, Credit200, Debit10]) ==
      [Group(March, 2, 250, [Debit50, Credit200]), Group(January, 1, 10, [Debit10])]
  {
    ExampleFolded();
    ExampleKeys();
    var groups := GroupByMonth([Debit50, Credit200, Debit10]);
    var gs := GroupsFor([March, January], groups);
    assert gs[0] == ToGroup(March, groups[March]) && gs[1] == ToGroup(January, groups[January]);
  }

  /**
   * The user with transactions on 5 and 20 March and 2 January 2024 gets two
   * groups: March 2024 with count 2 and total 250, then January 2024 with
   * count 1 and total 10. This holds whatever the user's identifier.
   */
  lemma ExampleSummaryFor(userId: string)
    requires IsValidObjectId(Some(userId))
    ensures ListForUser(Some(ExampleStore(FromHexString(userId))), userId, ExampleParse) == Response(StatusOk, Some([
        Group(March, 2, 250, [Debit50, Credit200]),
        Group(January, 1, 10, [Debit10])]))
  {
    var id := FromHexString(userId);
    ExampleUnwound(id);
    ExampleNormalized();
    ExampleGrouped();
    var gs := [Group(March, 2, 250, [Debit50, Credit200]), Group(January, 1, 10, [Debit10])];
    assert Ordering.SortedDesc(gs);
    Ordering.SortDescKeepsSorted(gs);
    assert Pipeline(MatchId(ExampleStore(id).users, id), ExampleParse) == Ok(gs);
  }

  /** The example with the identifier 507f1f77bcf86cd799439011. */
  lemma ExampleMonthlySummary()
    ensures IsValidObjectId(Some(KnownUser)) &&
      ListForUser(Some(ExampleStore(FromHexString(KnownUser))), KnownUser, ExampleParse) == Response(StatusOk, Some([
        Group(March, 2, 250, [Debit50, Credit200]),
        Group(January, 1, 10, [Debit10])]))
  {
    KnownUserIsValid();
    ExampleSummaryFor(KnownUser);
  }

  /** A well-formed identifier naming no stored user is answered with 404. */
  lemma AbsentUserFor(stored: string, requested: string, i: int)
    requires IsValidObjectId(Some(stored)) && IsValidObjectId(Some(requested))
    requires 0 <= i < |stored| && LowerChar(stored[i]) != LowerChar(requested[i])
    ensures ListForUser(Some(ExampleStore(FromHexString(stored))), requested, ExampleParse).status == StatusNotFound
  {
    LowerHexAt(stored, i);
    LowerHexAt(requested, i);
    SameObjectIdIffSameLowerCase(stored, requested);
  }
}
