/** Calendar days as day keys, and the weekday of a day. */
module Calendar {

  /** A calendar day, counted in days since 1970-01-01 (an ISO 8601 epoch day). */
  type Day = int

  datatype Weekday = Monday | Tuesday | Wednesday | Thursday | Friday | Saturday | Sunday

  /** The weekday of an epoch day, as java.time computes it: 1970-01-01 was a
      Thursday, and the weekday index is the floor remainder of day + 3 by 7
      (Dafny's `%` is Euclidean, which agrees with a floor remainder by a
      positive divisor, so days before 1970 are covered too). */
  function DayOfWeek(d: Day): (w: Weekday)
    ensures d == 0 ==> w == Thursday
  {
    match (d + 3) % 7
    case 0 => Monday
    case 1 => Tuesday
    case 2 => Wednesday
    case 3 => Thursday
    case 4 => Friday
    case 5 => Saturday
    case _ => Sunday
  }

}
