/** Seat accounting across profiles and conferences. Because a registration
    writes the profile and the conference in one transaction, the number of
    open seats plus the number of attending profiles never changes; a
    conference created with a positive capacity starts with that sum equal to
    its capacity, so it never oversells. */
module Capacity {
  import opened Wrappers
  import opened Lists
  import opened Entities
  import opened Creation
  import opened Registration

  /** The users whose profile lists `key`. */
  ghost function Attendees(s: Store, key: string): set<string> {
    set id | id in s.profiles && key in s.profiles[id].conferenceKeysToAttend
  }

  /** No profile lists a conference twice. */
  ghost predicate NoDuplicateRegistrations(s: Store) {
    forall id :: id in s.profiles ==> NoDuplicates(s.profiles[id].conferenceKeysToAttend)
  }

  /** No conference has a negative seat count. */
  ghost predicate SeatsNonNegative(s: Store) {
    forall key :: key in s.conferences ==> s.conferences[key].seatsAvailable >= 0
  }

  /** Open seats plus attendees of a stored conference. */
  ghost function Tally(s: Store, key: string): int
    requires key in s.conferences
  {
    s.conferences[key].seatsAvailable + |Attendees(s, key)|
  }

  /** Every seat of the conference is either open or held by one attendee. */
  ghost predicate Balanced(s: Store, key: string)
    requires key in s.conferences
  {
    Tally(s, key) == s.conferences[key].maxAttendees
  }

  /** Replacing one profile changes the attendees of `key` by that user alone. */
  lemma AttendeesAfterPut(s: Store, s': Store, id: string, p: Profile, key: string)
    requires s'.profiles == s.profiles[id := p]
    ensures key in p.conferenceKeysToAttend ==> Attendees(s', key) == Attendees(s, key) + {id}
    ensures key !in p.conferenceKeysToAttend ==> Attendees(s', key) == Attendees(s, key) - {id}
  {
  }

  /** Registration keeps every attending list free of duplicates. */
  lemma RegistrationPreservesNoDuplicates(s: Store, user: User, key: string, reg: bool)
    requires NoDuplicateRegistrations(s)
    requires ConferenceRegistration(s, Some(user), key, reg).Ok?
    ensures NoDuplicateRegistrations(ConferenceRegistration(s, Some(user), key, reg).value.0)
  {
    var s' := ConferenceRegistration(s, Some(user), key, reg).value.0;
    var keys := ProfileOf(s, user).conferenceKeysToAttend;
    var p := s'.profiles[user.id];
    assert s'.profiles == s.profiles[user.id := p];
    assert NoDuplicates(keys);
    if reg {
      assert p.conferenceKeysToAttend == keys + [key];
    } else if key in keys {
      RemoveFirstFromDistinct(keys, key);
    } else {
      assert p.conferenceKeysToAttend == keys;
    }
  }

  /** Registration never drives a seat count below zero. */
  lemma RegistrationPreservesSeatsNonNegative(s: Store, user: Option<User>, key: string, reg: bool)
    requires SeatsNonNegative(s)
    requires ConferenceRegistration(s, user, key, reg).Ok?
    ensures SeatsNonNegative(ConferenceRegistration(s, user, key, reg).value.0)
  {
  }

  /** The transaction moves a seat between the conference and the profile and
      never loses or duplicates one: every conference's tally is unchanged. */
  lemma RegistrationConservesTally(s: Store, user: User, key: string, reg: bool)
    requires NoDuplicateRegistrations(s)
    requires ConferenceRegistration(s, Some(user), key, reg).Ok?
    ensures var s' := ConferenceRegistration(s, Some(user), key, reg).value.0;
      forall k :: k in s.conferences ==> k in s'.conferences && Tally(s', k) == Tally(s, k)
  {
    var s' := ConferenceRegistration(s, Some(user), key, reg).value.0;
    forall k | k in s.conferences
      ensures k in s'.conferences && Tally(s', k) == Tally(s, k)
    {
      if k == key {
        TallyOfRegisteredConference(s, user, key, reg);
      } else {
        TallyOfOtherConference(s, user, key, reg, k);
      }
    }
  }

  /** The conference itself: one seat and one attendee trade places. */
  lemma TallyOfRegisteredConference(s: Store, user: User, key: string, reg: bool)
    requires NoDuplicateRegistrations(s)
    requires ConferenceRegistration(s, Some(user), key, reg).Ok?
    ensures var s' := ConferenceRegistration(s, Some(user), key, reg).value.0;
      key in s.conferences && key in s'.conferences && Tally(s', key) == Tally(s, key)
  {
    var s' := ConferenceRegistration(s, Some(user), key, reg).value.0;
    var keys := ProfileOf(s, user).conferenceKeysToAttend;
    var p := s'.profiles[user.id];
    assert s'.profiles == s.profiles[user.id := p];
    assert user.id in Attendees(s, key) <==> key in keys;
    AttendeesAfterPut(s, s', user.id, p, key);
    if reg {
      assert key in p.conferenceKeysToAttend;
    } else if key in keys {
      RemoveFirstFromDistinct(keys, key);
      assert key !in p.conferenceKeysToAttend;
    } else {
      assert key !in p.conferenceKeysToAttend;
    }
  }

  /** Any other conference: neither its seats nor its attendees move. */
  lemma TallyOfOtherConference(s: Store, user: User, key: string, reg: bool, k: string)
    requires ConferenceRegistration(s, Some(user), key, reg).Ok?
    requires k in s.conferences && k != key
    ensures var s' := ConferenceRegistration(s, Some(user), key, reg).value.0;
      k in s'.conferences && Tally(s', k) == Tally(s, k)
  {
    var s' := ConferenceRegistration(s, Some(user), key, reg).value.0;
    RegistrationTouchesOnlyKey(s, user, key, reg);
    TallyUnaffected(s, s', user.id, s'.profiles[user.id], k);
  }

  /** A registration rewrites the caller's profile and the one conference, and
      the caller's list changes in `key` alone. */
  lemma RegistrationTouchesOnlyKey(s: Store, user: User, key: string, reg: bool)
    requires ConferenceRegistration(s, Some(user), key, reg).Ok?
    ensures var s' := ConferenceRegistration(s, Some(user), key, reg).value.0;
      var p := s'.profiles[user.id];
      && s'.profiles == s.profiles[user.id := p]
      && key in s.conferences
      && s'.conferences == s.conferences[key := s'.conferences[key]]
      && forall y :: y != key ==> (y in p.conferenceKeysToAttend <==> y in ProfileOf(s, user).conferenceKeysToAttend)
  {
    var keys := ProfileOf(s, user).conferenceKeysToAttend;
    if !reg && key in keys {
      forall y | y != key
        ensures y in RemoveFirst(keys, key) <==> y in keys
      {
        RemoveFirstKeepsOthers(keys, key, y);
      }
    }
  }

  /** Replacing one profile without changing whether it lists `k`, and leaving
      conference `k`'s seats alone, leaves `k`'s tally alone. */
  lemma TallyUnaffected(s: Store, s': Store, id: string, p: Profile, k: string)
    requires s'.profiles == s.profiles[id := p]
    requires k in s.conferences && k in s'.conferences
    requires s'.conferences[k].seatsAvailable == s.conferences[k].seatsAvailable
    requires k in p.conferenceKeysToAttend <==> (id in s.profiles && k in s.profiles[id].conferenceKeysToAttend)
    ensures Tally(s', k) == Tally(s, k)
  {
    AttendeesAfterPut(s, s', id, p, k);
    assert Attendees(s', k) == Attendees(s, k);
  }

  /** A balanced conference stays balanced through any registration, so its
      open seats never exceed its capacity. */
  lemma RegistrationPreservesBalance(s: Store, user: User, key: string, reg: bool, k: string)
    requires NoDuplicateRegistrations(s)
    requires k in s.conferences && Balanced(s, k)
    requires ConferenceRegistration(s, Some(user), key, reg).Ok?
    ensures var s' := ConferenceRegistration(s, Some(user), key, reg).value.0;
      k in s'.conferences && Balanced(s', k)
      && s'.conferences[k].seatsAvailable <= s'.conferences[k].maxAttendees
  {
    RegistrationConservesTally(s, user, key, reg);
  }

  /** The store after `Conference(**data).put()` under a freshly allocated key. */
  function AddConference(s: Store, key: string, conf: Conference): (s': Store)
    ensures s'.profiles == s.profiles
    ensures key in s'.conferences && s'.conferences[key] == conf
    ensures s'.conferences.Keys == s.conferences.Keys + {key}
    ensures forall k :: k in s.conferences && k != key ==> s'.conferences[k] == s.conferences[k]
  {
    s.(conferences := s.conferences[key := conf])
  }

  /** A conference created with a positive capacity under a fresh key (no
      profile lists it yet) is balanced, and every other conference keeps its
      tally. */
  lemma CreationBalanced(s: Store, user: User, form: ConferenceForm, key: string)
    requires key !in s.conferences && Attendees(s, key) == {}
    requires CreateConference(Some(user), form).Ok?
    requires CreateConference(Some(user), form).value.0.maxAttendees > 0
    ensures var s' := AddConference(s, key, CreateConference(Some(user), form).value.0);
      && Balanced(s', key)
      && forall k :: k in s.conferences ==> k in s'.conferences && Tally(s', k) == Tally(s, k)
  {
  }
}
