/**
 * The decisions of the two read routes. `GET /` answers 503 while the
 * database handle is not set, otherwise the pipeline over every user. `GET
 * /:userId` checks, in this order: database ready (else 503), identifier well
 * formed (else 400), user present (else 404); only then does it run the
 * pipeline scoped to that user. A failing aggregation is answered with 500.
 * Readiness is the `Option<Store>` argument: None while the connection is
 * not yet established.
 */
module Routes {
  import opened Wrappers
  import opened ObjectIds
  import opened Records
  import opened Extraction
  import opened Aggregation

  const StatusOk := 200
  const StatusBadRequest := 400
  const StatusNotFound := 404
  const StatusInternalError := 500
  const StatusUnavailable := 503

  /** A response: its status and, for 200, the groups sent as the JSON body. */
  datatype Response = Response(status: int, groups: Option<seq<Group>>)

  /** `findOne({ _id })`: the first user document with this ObjectId. */
  function FindOne(users: seq<Account>, id: ObjectId): (r: Option<Account>)
    ensures r.Some? <==> exists a :: a in users && a.id == id
    ensures r.Some? ==> r.value in users && r.value.id == id
  {
    if users == [] then None
    else if users[0].id == id then Some(users[0])
    else
      assert forall a :: a in users <==> a == users[0] || a in users[1..];
      FindOne(users[1..], id)
  }

  /** The `_id` condition of the scoped `$match`. */
  function MatchId(users: seq<Account>, id: ObjectId): (r: seq<Account>)
    ensures forall a :: a in r <==> a in users && a.id == id
  {
    if users == [] then []
    else (if users[0].id == id then [users[0]] else []) + MatchId(users[1..], id)
  }

  /** The outcome of an aggregation as a response: 200 with the groups, or 500 without a body. */
  function Respond(result: Result<seq<Group>, Failure>): (r: Response)
    ensures r.status == StatusOk <==> result.Ok?
    ensures r.status == StatusInternalError <==> result.Err?
    ensures result.Ok? ==> r.groups == Some(result.value)
    ensures result.Err? ==> r.groups.None?
  {
    match result
    case Ok(gs) => Response(StatusOk, Some(gs))
    case Err(_) => Response(StatusInternalError, None)
  }

  /** `GET /`. */
  function ListAll(db: Option<Store>, parse: string -> Option<Instant>): Response {
    if db.None? then Response(StatusUnavailable, None)
    else Respond(Pipeline(db.value.users, parse))
  }

  /** `GET /:userId`. */
  function ListForUser(db: Option<Store>, userId: string, parse: string -> Option<Instant>): Response {
    if db.None? then Response(StatusUnavailable, None)
    else if !IsValidObjectId(Some(userId)) then Response(StatusBadRequest, None)
    else
      var id := FromHexString(userId);
      if FindOne(db.value.users, id).None? then Response(StatusNotFound, None)
      else Respond(Pipeline(MatchId(db.value.users, id), parse))
  }

  /**
   * `GET /` answers 503 exactly when the database is not ready, 200 with the
   * pipeline result, or 500 when the aggregation fails; a body comes only with 200.
   */
  lemma ListAllOutcomes(db: Option<Store>, parse: string -> Option<Instant>)
    ensures ListAll(db, parse).status == StatusUnavailable <==> db.None?
    ensures ListAll(db, parse).status in {StatusOk, StatusInternalError, StatusUnavailable}
    ensures ListAll(db, parse).groups.Some? <==> ListAll(db, parse).status == StatusOk
    ensures ListAll(db, parse).status == StatusOk ==>
      db.Some? && Pipeline(db.value.users, parse) == Ok(ListAll(db, parse).groups.value)
    ensures db.Some? ==> (ListAll(db, parse).status == StatusOk <==> Pipeline(db.value.users, parse).Ok?)
    ensures db.Some? ==> ListAll(db, parse) == Respond(Pipeline(db.value.users, parse))
  {
  }

  /**
   * The checks of `GET /:userId` come in a fixed order: 503 wins over
   * everything, then 400 before any lookup, then 404; groups are returned only
   * when all three pass, and they are the pipeline over that user's documents.
   */
  lemma UserRoutePrecedence(db: Option<Store>, userId: string, parse: string -> Option<Instant>)
    ensures db.None? ==> ListForUser(db, userId, parse) == Response(StatusUnavailable, None)
    ensures db.Some? && !IsValidObjectId(Some(userId)) ==> ListForUser(db, userId, parse) == Response(StatusBadRequest, None)
    ensures db.Some? && IsValidObjectId(Some(userId)) && FindOne(db.value.users, FromHexString(userId)).None? ==>
      ListForUser(db, userId, parse) == Response(StatusNotFound, None)
    ensures ListForUser(db, userId, parse).groups.Some? <==> ListForUser(db, userId, parse).status == StatusOk
    ensures ListForUser(db, userId, parse).status == StatusOk ==>
      db.Some? && IsValidObjectId(Some(userId)) &&
      (exists a :: a in db.value.users && a.id == FromHexString(userId)) &&
      Pipeline(MatchId(db.value.users, FromHexString(userId)), parse) == Ok(ListForUser(db, userId, parse).groups.value)
    ensures db.Some? && IsValidObjectId(Some(userId)) && FindOne(db.value.users, FromHexString(userId)).Some? ==>
      ListForUser(db, userId, parse) == Respond(Pipeline(MatchId(db.value.users, FromHexString(userId)), parse))
  {
  }

  /** `_id` is unique in a collection: no two documents share an ObjectId. */
  predicate UniqueIds(users: seq<Account>) {
    forall i, j :: 0 <= i < j < |users| ==> users[i].id != users[j].id
  }

  /** The scoped `$match` is an order-preserving filter: it works part by part. */
  lemma {:induction false} MatchIdAppend(xs: seq<Account>, ys: seq<Account>, id: ObjectId)
    ensures MatchId(xs + ys, id) == MatchId(xs, id) + MatchId(ys, id)
  {
    if xs == [] {
      assert xs + ys == ys;
    } else {
      assert (xs + ys)[0] == xs[0] && (xs + ys)[1..] == xs[1..] + ys;
      MatchIdAppend(xs[1..], ys, id);
    }
  }

  /** With no document of that ObjectId the scoped `$match` keeps nothing. */
  lemma {:induction false} MatchIdNone(users: seq<Account>, id: ObjectId)
    requires forall b :: b in users ==> b.id != id
    ensures MatchId(users, id) == []
  {
    if users != [] {
      assert users[0] in users;
      MatchIdNone(users[1..], id);
    }
  }

  /** With unique ids the scoped `$match` keeps exactly the one document with that ObjectId. */
  lemma {:induction false} MatchIdUnique(users: seq<Account>, a: Account, id: ObjectId)
    requires UniqueIds(users) && a in users && a.id == id
    ensures MatchId(users, id) == [a]
    ensures Unwind(MatchId(users, id)) == Embedded(a)
  {
    var rest := users[1..];
    if users[0] == a {
      forall b | b in rest ensures b.id != id {
        var j :| 0 <= j < |rest| && rest[j] == b;
        assert users[j + 1] == b;
      }
      MatchIdNone(rest, id);
      assert MatchId(users, id) == [a] + [];
    } else {
      var k :| 0 <= k < |users| && users[k] == a;
      assert k > 0 && users[0].id != id;
      assert rest[k - 1] == a;
      assert UniqueIds(rest) by {
        forall i, j | 0 <= i < j < |rest| ensures rest[i].id != rest[j].id {
          assert rest[i] == users[i + 1] && rest[j] == users[j + 1];
        }
      }
      MatchIdUnique(rest, a, id);
      assert MatchId(users, id) == [] + MatchId(rest, id);
    }
    UnwindSingle(a);
  }

  /**
   * With unique ids, a found user's answer is the pipeline over that user's
   * document alone: no other document's transactions and no record twice.
   */
  lemma FoundUserScoped(store: Store, userId: string, a: Account, parse: string -> Option<Instant>)
    requires UniqueIds(store.users) && IsValidObjectId(Some(userId))
    requires a in store.users && a.id == FromHexString(userId)
    ensures ListForUser(Some(store), userId, parse) == Respond(Pipeline([a], parse))
  {
    MatchIdUnique(store.users, a, FromHexString(userId));
  }

  /** A found user whose transactions are absent or empty gets 200 and no groups. */
  lemma FoundUserWithoutTransactions(store: Store, userId: string, parse: string -> Option<Instant>)
    requires IsValidObjectId(Some(userId))
    requires exists a :: a in store.users && a.id == FromHexString(userId)
    requires forall a :: a in store.users && a.id == FromHexString(userId) ==> !HasTransactions(a)
    ensures ListForUser(Some(store), userId, parse) == Response(StatusOk, Some([]))
  {
    NothingToGroup(MatchId(store.users, FromHexString(userId)), parse);
  }

  /** Identifiers that differ only in letter case reach the same user and get the same answer. */
  lemma UserIdCaseInsensitive(db: Option<Store>, a: string, b: string, parse: string -> Option<Instant>)
    requires IsValidObjectId(Some(a)) && IsValidObjectId(Some(b)) && LowerHex(a) == LowerHex(b)
    ensures ListForUser(db, a, parse) == ListForUser(db, b, parse)
  {
    SameObjectIdIffSameLowerCase(a, b);
  }
}
