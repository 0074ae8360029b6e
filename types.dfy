/** The records of types/student.ts and the calendar values the core reads out
    of JavaScript `Date` objects. */
module Types {
  import opened Wrappers

  type Month = m: int | 1 <= m <= 12 witness 1
  type Day = d: int | 1 <= d <= 31 witness 1

  /** A date as a JavaScript `Date` shows it in the browser's time zone
      (`getFullYear`, `getMonth() + 1`, `getDate`). */
  datatype CalendarDate = CalendarDate(year: nat, month: Month, day: Day)

  /** `new Date(text)` read in the browser's time zone; `None` is an Invalid Date,
      whose fields are all `NaN`. */
  type DateParser = string -> Option<CalendarDate>

  /** The value of an `<input type="month">`, "YYYY-MM", split into numbers. */
  datatype YearMonth = YearMonth(year: nat, month: Month)

  /** A roster entry. `id` is the internal key the selection sets hold;
      `idNumber` is the human-facing number a CSV allow-list is matched against. */
  datatype Student = Student(
    id: string,
    name: string,
    degree: string,
    programme: string,
    idNumber: string,
    expirationDate: string,
    photoUrl: string,
    email: Option<string>,
    status: Option<string>,
    arrivalDate: Option<string>,
    campus: Option<string>)

  /** JavaScript truthiness of an optional string: present and not empty. */
  predicate Truthy(o: Option<string>) {
    o.Some? && o.value != ""
  }
}
