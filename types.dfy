/** The cash-book record and the small value types around it. */
module Types {

  datatype Option<T> = None | Some(value: T)

  /** A calendar month index as `Date.getMonth()` reports it: 0 is January, 11 is December. */
  type Month = m: int | 0 <= m < 12

  /** A point in time, seen through the two observations the application makes of it:
      `millis` is what `getTime()` returns and orders records; `localMonth` is what
      `getMonth()` returns in the host's time zone, kept abstract. */
  datatype Date = Date(millis: int, localMonth: Month)

  /** Cash in or cash out (`"in" | "out"`). */
  datatype Kind = In | Out

  /** One cash-book entry. The source's `type` field is called `kind` here. */
  datatype Transaction = Transaction(
    id: string,
    kind: Kind,
    amount: int,
    description: string,
    date: Date)

  /** The fields a caller supplies when it creates an entry: everything but `id` and `date`. */
  datatype Draft = Draft(kind: Kind, amount: int, description: string)
}
