/** The records the finance tracker's server stores and its browser client shows:
    a transaction, the income/expense summary, and the entry form's data. */
module Types {

  datatype Option<T> = None | Some(value: T)

  datatype Result<T, E> = Success(value: T) | Failure(error: E)

  /** The direction of a transaction. The amount itself carries no sign. */
  datatype TxType = Income | Expense

  /** The text the store keeps in the `type` column for each direction. */
  function TypeText(k: TxType): string
  {
    match k
    case Income => "income"
    case Expense => "expense"
  }

  /** A timestamp as the store writes it, "YYYY-MM-DD HH:MM:SS": year, month,
      day and second of the day. Comparing the fields in this order is
      comparing the text. */
  datatype Date = Date(year: int, month: int, day: int, second: int)

  /** `a` is at or before `b` in the order of the stored date text. */
  predicate NotAfter(a: Date, b: Date)
  {
    || a.year < b.year
    || (a.year == b.year && a.month < b.month)
    || (a.year == b.year && a.month == b.month && a.day < b.day)
    || (a.year == b.year && a.month == b.month && a.day == b.day && a.second <= b.second)
  }

  lemma NotAfterTotal(a: Date, b: Date)
    ensures NotAfter(a, b) || NotAfter(b, a)
    ensures NotAfter(a, b) && NotAfter(b, a) ==> a == b
  {
  }

  lemma NotAfterTransitive(a: Date, b: Date, c: Date)
    requires NotAfter(a, b) && NotAfter(b, c)
    ensures NotAfter(a, c)
  {
  }

  datatype Transaction = Transaction(
    id: int,
    description: string,
    amount: real,
    txType: TxType,
    category: string,
    date: Date)

  datatype Summary = Summary(totalIncome: real, totalExpenses: real, balance: real)

  /** What the entry form holds; the amount is the text typed into its field. */
  datatype FormData = FormData(
    description: string,
    amount: string,
    txType: TxType,
    category: string)
}
