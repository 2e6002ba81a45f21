/** Conference creation (`_createConferenceObject`) without the store: check
    the caller and the name, fill the missing fields from `DEFAULTS`, derive
    the month from the start date and open every seat. */
module Creation {
  import opened Wrappers
  import opened Entities

  /** The `DEFAULTS` table. */
  const DefaultCity: string := "Default City"
  const DefaultMaxAttendees: int := 0
  const DefaultSeatsAvailable: int := 0
  const DefaultTopics: seq<string> := ["Default", "Topic"]

  /** Python's `value in (None, [])`: only `None` and the empty list count as
      missing, so an empty city or a zero count is kept. */
  predicate MissingTopics(topics: Option<seq<string>>) {
    topics.None? || topics.value == []
  }

  /** The defaulting loop over `DEFAULTS`, applied to the request. */
  function ApplyDefaults(form: ConferenceForm): (f: ConferenceForm)
    ensures f.city.Some? && f.maxAttendees.Some? && f.seatsAvailable.Some?
    ensures f.topics.Some? && f.topics.value != []
    ensures form.city.Some? ==> f.city == form.city
    ensures form.maxAttendees.Some? ==> f.maxAttendees == form.maxAttendees
    ensures form.seatsAvailable.Some? ==> f.seatsAvailable == form.seatsAvailable
    ensures !MissingTopics(form.topics) ==> f.topics == form.topics
    ensures form.city.None? ==> f.city == Some(DefaultCity)
    ensures form.maxAttendees.None? ==> f.maxAttendees == Some(DefaultMaxAttendees)
    ensures form.seatsAvailable.None? ==> f.seatsAvailable == Some(DefaultSeatsAvailable)
    ensures MissingTopics(form.topics) ==> f.topics == Some(DefaultTopics)
    ensures f.(city := form.city, maxAttendees := form.maxAttendees,
               seatsAvailable := form.seatsAvailable, topics := form.topics) == form
  {
    form.(
      city := Some(form.city.GetOr(DefaultCity)),
      maxAttendees := Some(form.maxAttendees.GetOr(DefaultMaxAttendees)),
      seatsAvailable := Some(form.seatsAvailable.GetOr(DefaultSeatsAvailable)),
      topics := if MissingTopics(form.topics) then Some(DefaultTopics) else form.topics)
  }

  /** The month a conference is filed under. */
  function MonthOf(startDate: Option<Date>): (m: int)
    ensures 0 <= m <= 12
    ensures m == 0 <==> startDate.None?
    ensures startDate.Some? ==> m == startDate.value.month
  {
    match startDate
    case None => 0
    case Some(d) => d.month
  }

  /** `_createConferenceObject`: the conference to store and the request as it
      is echoed back. Every field the request leaves missing takes its default,
      the month follows the start date, and a positive capacity opens every
      seat. The echo carries the defaults and the organizer but not
      the derived month or seat count, which only the stored record gets. */
  function CreateConference(user: Option<User>, form: ConferenceForm): (r: Result<(Conference, ConferenceForm)>)
    ensures r.Ok? <==> user.Some? && form.name.Some? && form.name.value != ""
    ensures user.None? ==> r == Err(Unauthorized)
    ensures user.Some? && !r.Ok? ==> r == Err(BadRequest(NameRequired))
    ensures r.Ok? ==> var (conf, echo) := r.value;
      && conf.name == form.name.value
      && conf.organizerUserId == user.value.id
      && conf.city == (if form.city.None? then DefaultCity else form.city.value)
      && conf.topics == (if MissingTopics(form.topics) then DefaultTopics else form.topics.value)
      && conf.maxAttendees == (if form.maxAttendees.None? then DefaultMaxAttendees else form.maxAttendees.value)
      && conf.description == form.description
      && conf.startDate == form.startDate && conf.endDate == form.endDate
      && (form.startDate.Some? ==> conf.month == form.startDate.value.month)
      && (form.startDate.None? ==> conf.month == 0)
      && (conf.maxAttendees > 0 ==> conf.seatsAvailable == conf.maxAttendees)
      && (conf.maxAttendees <= 0 ==>
            conf.seatsAvailable == (if form.seatsAvailable.None? then DefaultSeatsAvailable else form.seatsAvailable.value))
      && echo == ApplyDefaults(form).(organizerUserId := Some(user.value.id))
  {
    if user.None? then Err(Unauthorized)
    else if form.name.None? || form.name.value == "" then Err(BadRequest(NameRequired))
    else
      var data := ApplyDefaults(form);
      var max := data.maxAttendees.value;
      var conf := Conference(
        name := form.name.value,
        description := data.description,
        organizerUserId := user.value.id,
        topics := data.topics.value,
        city := data.city.value,
        startDate := data.startDate,
        month := MonthOf(data.startDate),
        endDate := data.endDate,
        maxAttendees := max,
        seatsAvailable := if max > 0 then max else data.seatsAvailable.value);
      Ok((conf, data.(organizerUserId := Some(user.value.id))))
  }

  /** Filling defaults twice changes nothing more than filling them once, so the
      echoed request is already complete. */
  lemma ApplyDefaultsIdempotent(form: ConferenceForm)
    ensures ApplyDefaults(ApplyDefaults(form)) == ApplyDefaults(form)
  {
  }

  /** A conference created without a seat count starts with every seat open,
      provided its capacity is not negative: seats equal capacity. */
  lemma CreatedWithAllSeatsOpen(user: User, form: ConferenceForm)
    requires form.name.Some? && form.name.value != ""
    requires form.seatsAvailable.None?
    requires form.maxAttendees.None? || form.maxAttendees.value >= 0
    ensures var conf := CreateConference(Some(user), form).value.0;
      conf.seatsAvailable == conf.maxAttendees && conf.seatsAvailable >= 0
  {
  }

  /** The echoed request differs from the stored conference in the seat count
      whenever the request gave a positive capacity and no seat count: the
      record opens every seat while the echo keeps the default 0. */
  lemma EchoKeepsDefaultSeats(user: User, form: ConferenceForm)
    requires form.name.Some? && form.name.value != ""
    requires form.seatsAvailable.None? && form.maxAttendees.Some? && form.maxAttendees.value > 0
    ensures var (conf, echo) := CreateConference(Some(user), form).value;
      && echo.seatsAvailable == Some(DefaultSeatsAvailable)
      && conf.seatsAvailable == form.maxAttendees.value
      && echo.month == form.month
  {
  }
}
