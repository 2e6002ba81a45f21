/** Registration (`_conferenceRegistration`): one atomic transition over the
    caller's profile and one conference, adding or removing the conference
    from the profile's attending list and taking or returning one seat. */
module Registration {
  import opened Wrappers
  import opened Lists
  import opened Entities

  /** The records registration touches: profiles by user id and conferences
      by websafe key. */
  datatype Store = Store(profiles: map<string, Profile>, conferences: map<string, Conference>)

  /** The profile `_getProfileFromUser` creates on a user's first call. */
  function NewProfile(user: User): Profile {
    Profile(user.nickname, user.email, "NOT_SPECIFIED", [])
  }

  /** The caller's profile (`_getProfileFromUser`): the stored one, or for a
      first-time caller a fresh one named after the user, with the default
      tee-shirt size and no conferences. */
  function ProfileOf(s: Store, user: User): (p: Profile)
    ensures user.id in s.profiles ==> p == s.profiles[user.id]
    ensures user.id !in s.profiles ==>
      && p.conferenceKeysToAttend == []
      && p.displayName == user.nickname && p.mainEmail == user.email
      && p.teeShirtSize == "NOT_SPECIFIED"
  {
    if user.id in s.profiles then s.profiles[user.id] else NewProfile(user)
  }

  /** The transaction's final writes: `prof.put()` and `conf.put()`. */
  function Put(s: Store, userId: string, prof: Profile, key: string, conf: Conference): Store {
    Store(s.profiles[userId := prof], s.conferences[key := conf])
  }

  /** `_conferenceRegistration(request, reg)`. On an error nothing is written:
      the transaction rolls back, the lazily created profile with it. On
      success both records are written, even when unregistering changes
      nothing. */
  function ConferenceRegistration(s: Store, user: Option<User>, key: string, reg: bool): (r: Result<(Store, bool)>)
    ensures r.Ok? ==> r.value.0.conferences.Keys == s.conferences.Keys
    ensures user.Some? && r.Ok? ==> r.value.0.profiles.Keys == s.profiles.Keys + {user.value.id}
    ensures r.Ok? ==> forall k :: k in s.conferences && k != key ==> r.value.0.conferences[k] == s.conferences[k]
    ensures user.Some? && r.Ok? ==> forall id :: id in s.profiles && id != user.value.id ==> r.value.0.profiles[id] == s.profiles[id]
  {
    if user.None? then Err(Unauthorized)
    else
      var prof := ProfileOf(s, user.value);
      if key !in s.conferences then Err(NotFound(key))
      else
        var conf := s.conferences[key];
        var keys := prof.conferenceKeysToAttend;
        if reg then
          if key in keys then Err(Conflict(AlreadyRegistered))
          else if conf.seatsAvailable <= 0 then Err(Conflict(NoSeatsAvailable))
          else
            Ok((Put(s, user.value.id, prof.(conferenceKeysToAttend := keys + [key]),
                    key, conf.(seatsAvailable := conf.seatsAvailable - 1)), true))
        else if key in keys then
          Ok((Put(s, user.value.id, prof.(conferenceKeysToAttend := RemoveFirst(keys, key)),
                  key, conf.(seatsAvailable := conf.seatsAvailable + 1)), true))
        else
          Ok((Put(s, user.value.id, prof, key, conf), false))
  }

  /** `registerForConference`. */
  function Register(s: Store, user: Option<User>, key: string): Result<(Store, bool)> {
    ConferenceRegistration(s, user, key, true)
  }

  /** `unregisterFromConference`. */
  function Unregister(s: Store, user: Option<User>, key: string): Result<(Store, bool)> {
    ConferenceRegistration(s, user, key, false)
  }

  /** The store with the caller's profile written, as every successful call
      leaves it when nothing else changes. */
  function WithProfile(s: Store, user: User): Store {
    s.(profiles := s.profiles[user.id := ProfileOf(s, user)])
  }

  /** Registering succeeds exactly when the caller is signed in, the conference
      exists, the caller is not yet attending and a seat is left; it then
      appends the key, takes exactly one seat and answers true. Each refusal
      carries its own error, checked in this order. */
  lemma RegisterOutcome(s: Store, user: Option<User>, key: string)
    ensures user.None? ==> Register(s, user, key) == Err(Unauthorized)
    ensures user.Some? && key !in s.conferences ==> Register(s, user, key) == Err(NotFound(key))
    ensures user.Some? && key in s.conferences && key in ProfileOf(s, user.value).conferenceKeysToAttend ==>
      Register(s, user, key) == Err(Conflict(AlreadyRegistered))
    ensures user.Some? && key in s.conferences && key !in ProfileOf(s, user.value).conferenceKeysToAttend
            && s.conferences[key].seatsAvailable <= 0 ==>
      Register(s, user, key) == Err(Conflict(NoSeatsAvailable))
    ensures Register(s, user, key).Ok? <==>
      && user.Some? && key in s.conferences
      && key !in ProfileOf(s, user.value).conferenceKeysToAttend
      && s.conferences[key].seatsAvailable > 0
    ensures Register(s, user, key).Ok? ==>
      var (s', result) := Register(s, user, key).value;
      var prof := ProfileOf(s, user.value);
      && result
      && s'.profiles[user.value.id] == prof.(conferenceKeysToAttend := prof.conferenceKeysToAttend + [key])
      && s'.conferences[key] == s.conferences[key].(seatsAvailable := s.conferences[key].seatsAvailable - 1)
  {
  }

  /** Unregistering fails only for a caller who is not signed in or a
      conference that does not exist. Unregistering an attended conference
      removes its key and returns exactly one seat; unregistering one not
      attended answers false and leaves the list and every seat count as they
      were. */
  lemma UnregisterOutcome(s: Store, user: Option<User>, key: string)
    ensures user.None? ==> Unregister(s, user, key) == Err(Unauthorized)
    ensures user.Some? && key !in s.conferences ==> Unregister(s, user, key) == Err(NotFound(key))
    ensures Unregister(s, user, key).Ok? <==> user.Some? && key in s.conferences
    ensures Unregister(s, user, key).Ok? ==>
      var (s', result) := Unregister(s, user, key).value;
      var prof := ProfileOf(s, user.value);
      && (result <==> key in prof.conferenceKeysToAttend)
      && (result ==>
            && s'.profiles[user.value.id] == prof.(conferenceKeysToAttend := RemoveFirst(prof.conferenceKeysToAttend, key))
            && s'.conferences[key] == s.conferences[key].(seatsAvailable := s.conferences[key].seatsAvailable + 1))
      && (!result ==> s' == WithProfile(s, user.value))
  {
  }

  /** Registering and then unregistering restores both the attending list and
      the seat count: the store is as before, save that a first-time caller now
      has a profile. */
  lemma RegisterThenUnregister(s: Store, user: User, key: string)
    requires Register(s, Some(user), key).Ok?
    ensures var s1 := Register(s, Some(user), key).value.0;
      Unregister(s1, Some(user), key) == Ok((WithProfile(s, user), true))
    ensures user.id in s.profiles ==> WithProfile(s, user) == s
  {
    var prof := ProfileOf(s, user);
    var conf := s.conferences[key];
    var prof1 := prof.(conferenceKeysToAttend := prof.conferenceKeysToAttend + [key]);
    var conf1 := conf.(seatsAvailable := conf.seatsAvailable - 1);
    var s1 := Put(s, user.id, prof1, key, conf1);
    assert Register(s, Some(user), key) == Ok((s1, true));
    UndoRegistration(s, user, key, prof, conf);
    if user.id in s.profiles {
      assert s.profiles[user.id := prof] == s.profiles;
    }
  }

  /** The unregistration half of `RegisterThenUnregister`. */
  lemma UndoRegistration(s: Store, user: User, key: string, prof: Profile, conf: Conference)
    requires key in s.conferences && conf == s.conferences[key] && prof == ProfileOf(s, user)
    requires key !in prof.conferenceKeysToAttend
    ensures
      var s1 := Put(s, user.id, prof.(conferenceKeysToAttend := prof.conferenceKeysToAttend + [key]),
                    key, conf.(seatsAvailable := conf.seatsAvailable - 1));
      Unregister(s1, Some(user), key) == Ok((WithProfile(s, user), true))
  {
    var prof1 := prof.(conferenceKeysToAttend := prof.conferenceKeysToAttend + [key]);
    var conf1 := conf.(seatsAvailable := conf.seatsAvailable - 1);
    var s1 := Put(s, user.id, prof1, key, conf1);
    assert ProfileOf(s1, user) == prof1;
    RemoveAppended(prof.conferenceKeysToAttend, key);
    assert prof1.(conferenceKeysToAttend := RemoveFirst(prof1.conferenceKeysToAttend, key)) == prof;
    assert conf1.(seatsAvailable := conf1.seatsAvailable + 1) == conf;
    assert Unregister(s1, Some(user), key) == Ok((Put(s1, user.id, prof, key, conf), true));
    assert s1.conferences[key := conf] == s.conferences;
    assert s1.profiles[user.id := prof] == s.profiles[user.id := prof];
  }

  /** Unregistering and registering again returns the seat count to what it was
      and the attending list to the same keys, the re-registered one now last. */
  lemma UnregisterThenRegister(s: Store, user: User, key: string)
    requires key in s.conferences && s.conferences[key].seatsAvailable >= 0
    requires key in ProfileOf(s, user).conferenceKeysToAttend
    requires NoDuplicates(ProfileOf(s, user).conferenceKeysToAttend)
    ensures var s1 := Unregister(s, Some(user), key).value.0;
      && Register(s1, Some(user), key).Ok?
      && var s2 := Register(s1, Some(user), key).value.0;
      && s2.conferences == s.conferences
      && multiset(s2.profiles[user.id].conferenceKeysToAttend) == multiset(ProfileOf(s, user).conferenceKeysToAttend)
  {
  }

  /** A second registration for the same conference is refused as a duplicate. */
  lemma RegisterTwiceConflicts(s: Store, user: User, key: string)
    requires Register(s, Some(user), key).Ok?
    ensures Register(Register(s, Some(user), key).value.0, Some(user), key) == Err(Conflict(AlreadyRegistered))
  {
  }

  /** Taking the last seat makes every later registration by another caller
      fail for want of seats. */
  lemma LastSeatTaken(s: Store, user: User, other: User, key: string)
    requires Register(s, Some(user), key).Ok?
    requires s.conferences[key].seatsAvailable == 1
    requires other.id != user.id && key !in ProfileOf(s, other).conferenceKeysToAttend
    ensures Register(Register(s, Some(user), key).value.0, Some(other), key) == Err(Conflict(NoSeatsAvailable))
  {
  }
}
