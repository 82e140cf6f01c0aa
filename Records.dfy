/**
 * The records the aggregation reads and produces. A user document holds an
 * ObjectId and, optionally, an embedded list of transactions; a transaction
 * carries a free-form type label, an amount and a date stored either as text
 * or as a native BSON date.
 */
module Records {
  import opened Wrappers
  import opened ObjectIds

  type Month = m: int | 1 <= m <= 12 witness 1
  type DayOfMonth = d: int | 1 <= d <= 31 witness 1
  type MillisOfDay = n: int | 0 <= n < 86_400_000

  /**
   * A native date, represented by its UTC calendar decomposition: `$year` and
   * `$month` (which read a date in UTC) are the `year` and `month` fields.
   */
  datatype Instant = Instant(year: int, month: Month, day: DayOfMonth, millisOfDay: MillisOfDay)

  /** A stored date: text still to be parsed, or a native date. */
  datatype DateValue = Text(text: string) | Date(instant: Instant)

  /** An embedded transaction; `kind` is the document's `type` field. Amounts are integers (cents). */
  datatype Transaction = Transaction(kind: string, amount: int, date: DateValue)

  /** A user document; `transactions` is None when the field is absent. */
  datatype Account = Account(id: ObjectId, transactions: Option<seq<Transaction>>)

  /** The `users` collection, in its natural order. */
  datatype Store = Store(users: seq<Account>)

  /** The `{type, amount, date}` record pushed into a group, its date normalized. */
  datatype Item = Item(kind: string, amount: int, date: Instant)

  /** The `_id` of a group: calendar year and month. */
  datatype MonthKey = MonthKey(year: int, month: Month)

  /** One output document of the `$group` stage. */
  datatype Group = Group(id: MonthKey, count: int, totalAmount: int, items: seq<Item>)

  /** Why an aggregation fails: `$toDate` met a text it cannot read. */
  datatype Failure = UnparsableDate(text: string)
}
