/**
 * The prefix of both pipelines: `$match` on a non-empty `transactions` array,
 * then `$unwind` of that array, one record per embedded transaction.
 */
module Extraction {
  import opened Wrappers
  import opened Records

  /** The `$match` condition `transactions: { $exists: true, $ne: [] }`. */
  predicate HasTransactions(a: Account) {
    a.transactions.Some? && a.transactions.value != []
  }

  /** The transactions `$unwind` produces for one document (none for an absent list). */
  function Embedded(a: Account): seq<Transaction> {
    if a.transactions.Some? then a.transactions.value else []
  }

  /** The `$match` stage: the accounts with a non-empty list, in collection order. */
  function MatchNonEmpty(users: seq<Account>): (r: seq<Account>)
    ensures |r| <= |users|
    ensures forall a :: a in r <==> a in users && HasTransactions(a)
  {
    if users == [] then []
    else (if HasTransactions(users[0]) then [users[0]] else []) + MatchNonEmpty(users[1..])
  }

  /** The `$unwind` stage: every embedded transaction, account by account, in stored order. */
  function Unwind(accounts: seq<Account>): seq<Transaction>
  {
    if accounts == [] then []
    else Embedded(accounts[0]) + Unwind(accounts[1..])
  }

  /** A record is unwound exactly when some account embeds it. */
  lemma {:induction false} UnwindMembers(accounts: seq<Account>, t: Transaction)
    ensures t in Unwind(accounts) <==> exists a :: a in accounts && t in Embedded(a)
  {
    if accounts != [] {
      UnwindMembers(accounts[1..], t);
      assert forall a :: a in accounts <==> a == accounts[0] || a in accounts[1..];
    }
  }

  /** Unwinding a concatenation unwinds each part in turn: account order is kept. */
  lemma {:induction false} UnwindAppend(xs: seq<Account>, ys: seq<Account>)
    ensures Unwind(xs + ys) == Unwind(xs) + Unwind(ys)
  {
    if xs != [] {
      assert (xs + ys)[0] == xs[0];
      assert (xs + ys)[1..] == xs[1..] + ys;
      UnwindAppend(xs[1..], ys);
    } else {
      assert xs + ys == ys;
    }
  }

  /** One account unwinds to its own embedded list. */
  lemma UnwindSingle(a: Account)
    ensures Unwind([a]) == Embedded(a)
  {
    assert [a][1..] == [];
    assert Embedded(a) + [] == Embedded(a);
  }

  /** An account whose list is absent or empty contributes no record. */
  lemma SkipsAccountWithoutTransactions(before: seq<Account>, a: Account, after: seq<Account>)
    requires !HasTransactions(a)
    ensures Unwind(before + [a] + after) == Unwind(before + after)
  {
    UnwindAppend(before + [a], after);
    UnwindAppend(before, [a]);
    UnwindAppend(before, after);
    UnwindSingle(a);
    assert Unwind(before) + [] == Unwind(before);
  }

  /** The `$match` removes only accounts that `$unwind` would drop anyway. */
  lemma {:induction false} MatchThenUnwind(users: seq<Account>)
    ensures Unwind(MatchNonEmpty(users)) == Unwind(users)
  {
    if users != [] {
      MatchThenUnwind(users[1..]);
      var head := if HasTransactions(users[0]) then [users[0]] else [];
      UnwindAppend(head, MatchNonEmpty(users[1..]));
      assert Unwind(head) == Embedded(users[0]) by {
        if head != [] { assert head[1..] == []; }
      }
    }
  }

  /** Without any account holding transactions, `$match` keeps nothing. */
  lemma {:induction false} MatchNoneWithoutTransactions(users: seq<Account>)
    requires forall a :: a in users ==> !HasTransactions(a)
    ensures MatchNonEmpty(users) == []
  {
    if users != [] {
      assert users[0] in users;
      MatchNoneWithoutTransactions(users[1..]);
    }
  }
}
