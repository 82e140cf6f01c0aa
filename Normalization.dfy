/**
 * The `$addFields` stage that normalizes `transactions.date`: a text date is
 * converted with `$toDate`, any other value is left as it is. Reading text as a
 * date is the database engine's own code; it is the parameter `parse`, which
 * answers None for a text `$toDate` rejects.
 */
module Normalization {
  import opened Wrappers
  import opened Records

  /** The `$cond` on `$type` of the date: parse text, pass a native date through. */
  function NormalizeDate(d: DateValue, parse: string -> Option<Instant>): (r: Result<Instant, Failure>)
  {
    match d
    case Date(i) => Ok(i)
    case Text(s) => if parse(s).Some? then Ok(parse(s).value) else Err(UnparsableDate(s))
  }

  /**
   * Only text dates are changed; a native date comes back unchanged, so
   * normalizing a normalized date is the identity (normalizing twice equals
   * normalizing once).
   */
  lemma NormalizeDateIdempotent(d: DateValue, parse: string -> Option<Instant>)
    ensures d.Date? ==> NormalizeDate(d, parse) == Ok(d.instant)
    ensures d.Text? ==> (NormalizeDate(d, parse).Ok? <==> parse(d.text).Some?)
    ensures d.Text? && parse(d.text).Some? ==> NormalizeDate(d, parse) == Ok(parse(d.text).value)
    ensures d.Text? && parse(d.text).None? ==> NormalizeDate(d, parse) == Err(UnparsableDate(d.text))
    ensures NormalizeDate(d, parse).Ok? ==> NormalizeDate(Date(NormalizeDate(d, parse).value), parse) == NormalizeDate(d, parse)
  {
  }

  /** The stage applied to one transaction: the pushed record, or the failure. */
  function NormalizeTransaction(t: Transaction, parse: string -> Option<Instant>): (r: Result<Item, Failure>)
    ensures r.Ok? <==> Parses(t, parse)
    ensures r.Ok? ==> r.value.kind == t.kind && r.value.amount == t.amount && NormalizeDate(t.date, parse) == Ok(r.value.date)
    ensures r.Err? ==> t.date.Text? && r.error == UnparsableDate(t.date.text)
  {
    match NormalizeDate(t.date, parse)
    case Ok(i) => Ok(Item(t.kind, t.amount, i))
    case Err(e) => Err(e)
  }

  /** Does `$toDate` accept this transaction's date? */
  predicate Parses(t: Transaction, parse: string -> Option<Instant>) {
    t.date.Text? ==> parse(t.date.text).Some?
  }

  /** `ts[i]` is the first transaction whose date `$toDate` rejects. */
  predicate FirstUnparsable(ts: seq<Transaction>, i: int, parse: string -> Option<Instant>) {
    0 <= i < |ts| && !Parses(ts[i], parse) && forall j :: 0 <= j < i ==> Parses(ts[j], parse)
  }

  /**
   * The stage over the whole unwound stream. A date `$toDate` cannot read
   * aborts the aggregation, and the first such date is reported.
   */
  function NormalizeAll(ts: seq<Transaction>, parse: string -> Option<Instant>): (r: Result<seq<Item>, Failure>)
    ensures r.Ok? <==> forall i :: 0 <= i < |ts| ==> Parses(ts[i], parse)
    ensures r.Ok? ==> (|r.value| == |ts| &&
      forall i :: 0 <= i < |ts| ==> NormalizeTransaction(ts[i], parse) == Ok(r.value[i]))
    ensures r.Err? ==> exists i :: FirstUnparsable(ts, i, parse) && r.error == UnparsableDate(ts[i].date.text)
  {
    if ts == [] then Ok([])
    else
      match NormalizeTransaction(ts[0], parse)
      case Err(e) => Err(e)
      case Ok(item) =>
        match NormalizeAll(ts[1..], parse)
        case Err(e) => Err(e)
        case Ok(items) => Ok([item] + items)
  }

  /** Two streams whose dates normalize to the same thing, record by record. */
  predicate NormalizeAlike(ts: seq<Transaction>, us: seq<Transaction>, parse: string -> Option<Instant>) {
    |ts| == |us| &&
    forall i :: 0 <= i < |ts| ==>
      ts[i].kind == us[i].kind && ts[i].amount == us[i].amount &&
      NormalizeDate(ts[i].date, parse) == NormalizeDate(us[i].date, parse)
  }

  /**
   * A text date and a native date denoting the same instant are interchangeable:
   * streams that normalize alike give the same outcome.
   */
  lemma {:induction false} NormalizeAllAlike(ts: seq<Transaction>, us: seq<Transaction>, parse: string -> Option<Instant>)
    requires NormalizeAlike(ts, us, parse)
    ensures NormalizeAll(ts, parse) == NormalizeAll(us, parse)
  {
    if ts != [] {
      assert NormalizeTransaction(ts[0], parse) == NormalizeTransaction(us[0], parse);
      assert NormalizeAlike(ts[1..], us[1..], parse);
      NormalizeAllAlike(ts[1..], us[1..], parse);
    }
  }

  /** Normalizing a stream with a readable head. */
  lemma NormalizeCons(t: Transaction, rest: seq<Transaction>, it: Item, items: seq<Item>, parse: string -> Option<Instant>)
    requires NormalizeTransaction(t, parse) == Ok(it) && NormalizeAll(rest, parse) == Ok(items)
    ensures NormalizeAll([t] + rest, parse) == Ok([it] + items)
  {
    assert ([t] + rest)[0] == t && ([t] + rest)[1..] == rest;
  }
}
