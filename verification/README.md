# Conference Central: search filters, registration and conference creation

A Dafny model of the pure logic inside the Conference Central API service
(`conference.py`), with storage, RPC and caching stripped away:

- **Filter normalizer** (`_formatFilters`): each search filter names a field
  and an operator by token. Both tokens are translated through the fixed
  `FIELDS` and `OPERATORS` tables. An unknown token is a bad request, and so
  is a second field carrying a non-`=` operator. The result is the inequality
  field, if any, plus the translated list.
- **Query builder** (`_getQuery`): sorts by the inequality field (if any) and
  then by `name`. Values of `month` and `maxAttendees` pass through Python's
  `int()`.
- **Registration** (`_conferenceRegistration`): one atomic transition over the
  caller's profile (its attending list of websafe conference keys) and one
  conference (its `seatsAvailable`).
- **Conference creation** (`_createConferenceObject`): fills missing fields from
  `DEFAULTS`, derives `month` from the start date and opens every seat when the
  capacity is positive.

Modules, one per concern: `Wrappers` (Option, Result, the API error
taxonomy), `Lists` (Python's `list.index`/`list.remove`), `Numbers` (Python's
`int()` on text), `Filters`, `Query`, `Entities` (profiles, conferences, the
create request), `Creation`, `Registration`, and `Capacity`. `Capacity` holds
the seat-accounting invariant that ties creation and registration together.

Behaviour follows the code where a plain reading of the API might expect
otherwise:

- A non-integer value for `month` or `maxAttendees` raises Python's
  `ValueError`, which the code does not turn into a bad request. The model
  keeps it as its own error, `ValueError(text)`.
- Defaulting replaces only `None` and `[]`. Python's `"" in (None, [])` is
  false, so an empty city is kept. An empty topic list gets the default topics.
- The operators are the ASCII symbols `=`, `>`, `>=`, `<`, `<=`, `!=`.
- The request echoed back by creation carries the defaults and the organizer.
  It does not carry the derived month or the seats-equal-capacity rule, which
  only the stored record gets.
- An unregister that answers false still writes the caller's profile, which may
  have just been created lazily. On any error the transaction rolls back and
  nothing is written.
- `list.remove` deletes the first occurrence only. Removing a key therefore
  clears it from a list only when the list has no duplicates, and registration
  keeps lists duplicate-free.

## Model

| member | source | states |
|---|---|---|
| Lists.IndexOf | conference.py:526 | the position `list.remove` deletes is the first occurrence of the key |
| Lists.RemoveFirst | conference.py:526 | `list.remove` shortens the list by one and takes exactly one copy of the key out of its multiset; the entries before the first occurrence stay in place and the ones after it move up by one |
| Lists.RemoveAppended | conference.py:516-526 | removing a key that was just appended to a list lacking it gives the original list back |
| Lists.RemoveFirstKeepsOthers | conference.py:526 | removal never adds or drops any other key |
| Lists.RemoveFirstFromDistinct | conference.py:523-526 | on a duplicate-free list removal clears the key entirely and keeps the list duplicate-free |
| Numbers.ParseInt | conference.py:314-316 | `int()` succeeds exactly when the stripped text is an optional sign, optional whitespace after the sign, then a run of digits to the end, and it returns that run's decimal value, negated after '-'; any other text is rejected |
| Numbers.ParseLiteral | conference.py:316 | the same exact reading for text that has already been stripped: a sign prefix and digits give their signed value, anything else gives nothing |
| Numbers.ParseIntRoundTrip | conference.py:316 | `int()` reads back the decimal rendering of every integer, negative ones included |
| Numbers.ParseIntSigned | conference.py:316 | a leading '-' negates the digits that follow and a leading '+' keeps their value |
| Numbers.ParseIntSpaceAfterSign | conference.py:316 | any run of whitespace between the sign and the digits is skipped, so `int("- 5")` is -5 |
| Numbers.ParseIntRejectsStrayText | conference.py:316 | digits followed by a character that is neither digit nor whitespace, or two runs of digits (the same or different) split by a space, are rejected, as `int("1.5")`, `int("12abc")` and `int("1 2")` raise |
| Numbers.ParseIntIgnoresPadding | conference.py:316 | whitespace added before or after the text does not change what `int()` returns |
| Filters.FormatFilters | conference.py:322-347 | succeeds exactly when every token is in its table and no two inequalities are on different fields (repeats on one field are fine); on success the list keeps length and order, each entry is the table image of its tokens with its value unchanged, and the reported inequality field is the field of every inequality, absent exactly when there is none; on failure the error is that of the first filter the scan stops at (unknown token, or an inequality on a second field) |
| Query.NumericRenderingCoerced | conference.py:315-316 | a `month` or `maxAttendees` filter whose value is the decimal rendering of an integer is coerced to that integer |
| Query.DigitlessValueRejected | conference.py:315-316 | a `month` or `maxAttendees` value with no digit in it raises `ValueError` carrying that value; other fields keep any text unchanged |
| Query.CoerceValues | conference.py:314-316 | numeric-field values become the integer they denote and the rest stay text; the first non-integer numeric value raises `ValueError` |
| Query.SortOrderFollowsInequality | conference.py:307-312 | the sort keys are exactly [inequality field, name] when the normalizer reports one and [name] otherwise |
| Query.GetQuery | conference.py:302-319 | a filter error is reported before any value error; otherwise the query's filters are the translated filters with coerced values, sorted by [F, name] where F is the field of any inequality, or by [name] when there is none |
| Creation.ApplyDefaults | conference.py:177-180 | a missing city, capacity or seat count becomes "Default City", 0 or 0, and missing or empty topics become ["Default", "Topic"]; present values are kept, and fields outside `DEFAULTS` are untouched |
| Creation.MonthOf | conference.py:183-187 | the month is the start date's month, or 0 exactly when there is no start date |
| Creation.CreateConference | conference.py:160-209 | creation needs a signed-in user (else Unauthorized) and a non-empty name (else bad request); the stored conference takes defaults for a missing city, capacity, seat count and missing or empty topics, the start date's month (0 without one), the caller as organizer, and seats equal to capacity whenever capacity is positive; the echoed request is the defaulted request with the organizer set |
| Creation.ApplyDefaultsIdempotent | conference.py:177-180 | filling defaults a second time changes nothing |
| Creation.CreatedWithAllSeatsOpen | conference.py:191-193 | a conference created without a seat count and with a non-negative capacity starts with seats equal to capacity |
| Creation.EchoKeepsDefaultSeats | conference.py:177-193 | with a positive capacity and no seat count, the stored record opens every seat while the echoed request keeps seat count 0 and the request's own month |
| Registration.ProfileOf | conference.py:392-413 | the caller's stored profile is used when there is one; a first-time caller gets a fresh profile with their nickname and email, tee-shirt size "NOT_SPECIFIED" and no conferences |
| Registration.ConferenceRegistration | conference.py:489-535 | a successful call writes only the caller's profile and the one conference; every other profile and conference is unchanged, and no conference appears or disappears |
| Registration.RegisterOutcome | conference.py:489-518 | register succeeds exactly when the caller is signed in, the conference exists, the key is not yet in the caller's list and a seat is left; it then appends the key to the caller's profile and takes exactly one seat, changing no other field of either record, and answers true; the refusals are Unauthorized, NotFound, Conflict (already registered), Conflict (no seats), in that order |
| Registration.UnregisterOutcome | conference.py:489-530 | unregister fails exactly when the caller is not signed in (Unauthorized) or the conference does not exist (NotFound); otherwise it answers true exactly when the key was in the list, then removes it and returns exactly one seat, changing no other field of either record; when the key was absent it answers false and changes neither list nor seats |
| Registration.RegisterThenUnregister | conference.py:504-530 | register then unregister restores the attending list and the seat count; only a first-time caller's new profile remains |
| Registration.UnregisterThenRegister | conference.py:504-530 | unregister then register succeeds and restores every seat count and the multiset of attended keys |
| Registration.RegisterTwiceConflicts | conference.py:505-508 | a second registration by the same caller is refused as already registered |
| Registration.LastSeatTaken | conference.py:510-517 | once the last seat is taken, another caller's registration is refused for want of seats |
| Capacity.RegistrationPreservesNoDuplicates | conference.py:505-526 | registration keeps every attending list free of a repeated key string (spellings of one key that differ are distinct strings) |
| Capacity.RegistrationPreservesSeatsNonNegative | conference.py:510-527 | registration never makes a seat count negative |
| Capacity.RegistrationConservesTally | conference.py:489-535 | for every stored key (one spelling of a conference's websafe key), open seats plus the profiles listing that exact key is unchanged by a registration, because profile and conference change together |
| Capacity.RegistrationPreservesBalance | conference.py:489-535 | a stored key whose seats plus the profiles listing that exact key equal its capacity keeps that balance, so its open seats never exceed its capacity |
| Capacity.AddConference | conference.py:204 | storing a new conference leaves the profiles alone, files the record under its key, adds that key alone to the stored keys and leaves every other conference as it was |
| Capacity.CreationBalanced | conference.py:191-204 | a conference created with positive capacity under a fresh key starts balanced, and every other conference keeps its tally |

## Left out

- Cloud Endpoints request containers, datastore keys and `put`/`get`/`get_multi`, memcache, the task queue (confirmation email, featured speaker) and announcements: these are foreign services. The store is a pair of maps and a write is a map update.
- Transactions and concurrency: each registration is one atomic function from store to store. The cross-group transaction that makes this true in the service is not modelled.
- Key allocation for a new conference: the caller supplies a fresh key to `Capacity.AddConference`.
- Websafe key decoding: every string is treated as a key, and one with no stored conference gives NotFound. A malformed key raises a decoding error in the service instead. A well-formed key of another kind, such as the `websafeKey` of a session that the session queries return (conference.py:684), decodes to that stored entity, so the service does not answer NotFound (conference.py:498-501): unregister then answers false and writes both entities back, and register fails reading `seatsAvailable` (conference.py:511). The model answers NotFound for both, so `Registration.UnregisterOutcome`'s "fails exactly when the conference does not exist" holds only for keys that name a conference or nothing.
- Websafe key aliasing: the model files each conference under one exact string. The service looks the conference up by decoding the string (conference.py:498), which restores missing '=' padding, but it checks "already registered" against the raw string (conference.py:506, 523). Two spellings of one key therefore reach one conference while passing the duplicate check, so one caller can take two seats. The duplicate-free, tally and balance invariants in `Capacity` hold per spelling of a key, not per conference; they hold per conference only when clients use one canonical spelling.
- `getUserId` (utils.py) is not part of this model. The caller's id is part of `User`.
- Date parsing (`strptime` and the `[:10]` truncation): start and end dates arrive already parsed as valid dates. A parse failure is not modelled.
- An empty start or end date string: the code skips parsing it and the store then rejects the string when the conference is written, so creation fails. A model date is either a valid date or missing, so this failure is not modelled.
- Numbers.ParseInt: only the ASCII digits and six whitespace characters are modelled: space, tab, newline, vertical tab, form feed and carriage return. Python 2's `int()` on unicode text also treats other Unicode whitespace as whitespace, including the ASCII separators \x1c-\x1f, and accepts other Unicode digits; these are left out.
- A filter whose value is missing (`int(None)` raises `TypeError`): values are modelled as text.
- Evaluation of the query by the store (which conferences match): the model stops at the query's sort keys and conjunctive filters.
- `_updateConferenceObject`, `getConference`, `getConferencesCreated`, the organizer display names of `queryConferences`, and `getConferencesToAttend`: these are store reads and writes outside the modelled core.
- Profile reading and saving (`_doProfile`), apart from the lazy profile creation that registration performs.
- The form copiers (`_copyConferenceToForm`, `_copyProfileToForm`, `_copySessionToForm`): mechanical field-by-field marshaling. The `websafeKey` and `organizerDisplayName` form fields, which creation deletes, are absent from the request type.
- Sessions, session queries, wishlists and `filterPlayground`: direct store lookups or a hard-coded demo query.
