/** The stored records the API works on, reduced to the attributes the
    modelled operations read or write. */
module Entities {
  import opened Wrappers

  /** A calendar date as `strptime("%Y-%m-%d")` produces it. */
  datatype CalendarDate = CalendarDate(year: int, month: int, day: int)

  predicate IsLeapYear(y: int) {
    y % 4 == 0 && (y % 100 != 0 || y % 400 == 0)
  }

  function DaysInMonth(y: int, m: int): int
    requires 1 <= m <= 12
  {
    if m == 2 then (if IsLeapYear(y) then 29 else 28)
    else if m == 4 || m == 6 || m == 9 || m == 11 then 30
    else 31
  }

  /** The dates Python's `date` type can hold. */
  predicate ValidDate(d: CalendarDate) {
    1 <= d.year <= 9999 && 1 <= d.month <= 12 && 1 <= d.day <= DaysInMonth(d.year, d.month)
  }

  type Date = d: CalendarDate | ValidDate(d) witness CalendarDate(1, 1, 1)

  /** The signed-in caller; `id` is what `getUserId` derives from it. */
  datatype User = User(id: string, nickname: string, email: string)

  /** A user's profile; the attending list holds websafe conference keys. */
  datatype Profile = Profile(
    displayName: string,
    mainEmail: string,
    teeShirtSize: string,
    conferenceKeysToAttend: seq<string>)

  /** A stored conference. */
  datatype Conference = Conference(
    name: string,
    description: Option<string>,
    organizerUserId: string,
    topics: seq<string>,
    city: string,
    startDate: Option<Date>,
    month: int,
    endDate: Option<Date>,
    maxAttendees: int,
    seatsAvailable: int)

  /** The create-conference request; every field may be missing. Dates arrive
      already parsed as valid calendar dates. */
  datatype ConferenceForm = ConferenceForm(
    name: Option<string>,
    description: Option<string>,
    organizerUserId: Option<string>,
    topics: Option<seq<string>>,
    city: Option<string>,
    startDate: Option<Date>,
    month: Option<int>,
    maxAttendees: Option<int>,
    seatsAvailable: Option<int>,
    endDate: Option<Date>)
}
