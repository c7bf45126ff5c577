/**
 * The session store (app/context/AuthContext.tsx): the active user, the copy
 * in the device storage slot '@BeexSports:user', and the transitions the
 * screens call. `Date.now()` ids are a parameter, `freshId`; storage is the
 * `stored` slot, without JSON serialisation.
 */
module Session {
  import opened Wrappers
  import opened Seqs
  import opened Text
  import opened Levels

  datatype User = User(
    id: string,
    email: string,
    name: string,
    city: Option<string>,
    level: Option<Level>,
    profileCompleted: int)

  /** The keys `calculateProfileCompletion` inspects, in its order. */
  const RequiredFields: seq<string> := ["name", "email", "city", "level"]

  /**
   * `!!userData[field]` for the inspected keys: a string is truthy when it is
   * not empty, an absent value never is, and every level name is non-empty.
   */
  predicate FieldTruthy(u: User, field: string)
  {
    match field
    case "name" => u.name != ""
    case "email" => u.email != ""
    case "city" => u.city.Some? && u.city.value != ""
    case "level" => u.level.Some?
    case _ => false
  }

  function IsTruthyIn(u: User): string -> bool
  {
    (f: string) => FieldTruthy(u, f)
  }

  /** `Math.round`: the nearest integer, halves rounded up. */
  function RoundHalfUp(x: real): (r: int)
    ensures x - 0.5 < r as real <= x + 0.5
  {
    (x + 0.5).Floor
  }

  /** One for each of name, email, city and level that is set and non-empty. */
  function FilledFields(u: User): (n: nat)
    ensures n <= 4
  {
    (if u.name != "" then 1 else 0) + (if u.email != "" then 1 else 0)
    + (if u.city.Some? && u.city.value != "" then 1 else 0) + (if u.level.Some? then 1 else 0)
  }

  /** `calculateProfileCompletion`: the rounded percentage of inspected keys that are truthy. */
  function ProfileCompletion(u: User): (r: int)
    ensures r == 25 * FilledFields(u)
    ensures r == 0 || r == 25 || r == 50 || r == 75 || r == 100
  {
    CountTruthyFields(u);
    var completed := |Filter(RequiredFields, IsTruthyIn(u))|;
    RoundQuarters(completed);
    RoundHalfUp((completed as real / |RequiredFields| as real) * 100.0)
  }

  /** A count out of four rounds to an exact multiple of 25 percent. */
  lemma RoundQuarters(k: nat)
    requires k <= 4
    ensures RoundHalfUp((k as real / 4 as real) * 100.0) == 25 * k
  {
    if k == 0 {
    } else if k == 1 {
      assert (k as real / 4 as real) * 100.0 == 25.0;
    } else if k == 2 {
      assert (k as real / 4 as real) * 100.0 == 50.0;
    } else if k == 3 {
      assert (k as real / 4 as real) * 100.0 == 75.0;
    } else {
      assert (k as real / 4 as real) * 100.0 == 100.0;
    }
  }

  lemma CountTruthyFields(u: User)
    ensures |Filter(RequiredFields, IsTruthyIn(u))| == FilledFields(u)
  {
    var p := IsTruthyIn(u);
    FilterFourCount(RequiredFields, p);
    assert p(RequiredFields[0]) == (u.name != "");
    assert p(RequiredFields[1]) == (u.email != "");
    assert p(RequiredFields[2]) == (u.city.Some? && u.city.value != "");
    assert p(RequiredFields[3]) == u.level.Some?;
  }

  /** A four-element filter keeps one entry for each element the predicate holds of. */
  lemma FilterFourCount<T(!new)>(s: seq<T>, p: T -> bool)
    requires |s| == 4
    ensures |Filter(s, p)| ==
      (if p(s[0]) then 1 else 0) + (if p(s[1]) then 1 else 0) + (if p(s[2]) then 1 else 0) + (if p(s[3]) then 1 else 0)
  {
    var s3: seq<T> := [s[3]];
    var s2 := [s[2]] + s3;
    var s1 := [s[1]] + s2;
    assert s == [s[0]] + s1;
    FilterCons(s[3], [], p);
    assert [s[3]] + [] == s3;
    FilterCons(s[2], s3, p);
    FilterCons(s[1], s2, p);
    FilterCons(s[0], s1, p);
  }

  /** The stored score agrees with the fields it summarises. */
  predicate ScoreConsistent(u: User)
  {
    u.profileCompleted == ProfileCompletion(u)
  }

  /** An empty string scores as a missing field: filling in an empty name adds exactly 25. */
  lemma EmptyNameCountsMissing(u: User, name: string)
    requires u.name == "" && name != ""
    ensures ProfileCompletion(u.(name := name)) == ProfileCompletion(u) + 25
  {
  }

  /** An empty city scores exactly like an absent one. */
  lemma EmptyCityIsAbsent(u: User)
    ensures ProfileCompletion(u.(city := Some(""))) == ProfileCompletion(u.(city := None))
  {
  }

  /**
   * `Partial<User>`: for each key, None when the key is absent, `Some(v)` when
   * it is present. City and level may be present with the value `undefined`,
   * which is `Some(None)`.
   */
  datatype UserPatch = UserPatch(
    id: Option<string>,
    email: Option<string>,
    name: Option<string>,
    city: Option<Option<string>>,
    level: Option<Option<Level>>,
    profileCompleted: Option<int>)

  /** `{ ...user, ...userData }`: every key present in the patch overrides, every absent key keeps its value. */
  function Merge(u: User, p: UserPatch): (m: User)
    ensures p.id.Some? ==> m.id == p.id.value
    ensures p.id.None? ==> m.id == u.id
    ensures p.email.Some? ==> m.email == p.email.value
    ensures p.email.None? ==> m.email == u.email
    ensures p.name.Some? ==> m.name == p.name.value
    ensures p.name.None? ==> m.name == u.name
    ensures p.city.Some? ==> m.city == p.city.value
    ensures p.city.None? ==> m.city == u.city
    ensures p.level.Some? ==> m.level == p.level.value
    ensures p.level.None? ==> m.level == u.level
    ensures p.profileCompleted.Some? ==> m.profileCompleted == p.profileCompleted.value
    ensures p.profileCompleted.None? ==> m.profileCompleted == u.profileCompleted
  {
    User(
      p.id.GetOr(u.id),
      p.email.GetOr(u.email),
      p.name.GetOr(u.name),
      p.city.GetOr(u.city),
      p.level.GetOr(u.level),
      p.profileCompleted.GetOr(u.profileCompleted))
  }

  /**
   * The provider's state: the active user, the last user written to storage,
   * and the `loading` flag that stays set until storage has been read.
   */
  datatype Session = Session(active: Option<User>, stored: Option<User>, loading: bool)

  /** What the screens show is what storage holds. */
  predicate Synced(s: Session)
  {
    s.active == s.stored
  }

  /** The provider as first rendered: no user, storage not yet read. */
  function Mount(stored: Option<User>): (s: Session)
    ensures s.active.None? && s.loading && s.stored == stored
  {
    Session(None, stored, true)
  }

  /** `loadStoredData`: a stored user becomes the active one; loading ends either way. */
  function LoadStoredUser(s: Session): (r: Session)
    ensures !r.loading && r.stored == s.stored
    ensures s.stored.Some? ==> r.active == s.stored
    ensures s.stored.None? ==> r.active == s.active
  {
    match s.stored
    case Some(u) => s.(active := Some(u), loading := false)
    case None => s.(loading := false)
  }

  /** After mounting and reading storage, the active user is the stored one. */
  lemma HydratedIsSynced(stored: Option<User>)
    ensures Synced(LoadStoredUser(Mount(stored)))
    ensures LoadStoredUser(Mount(stored)).active == stored
  {
  }

  /** `updateUser`: nothing without an active user; otherwise merge, recompute the score, show and store. */
  function UpdateUser(s: Session, p: UserPatch): (r: Session)
    ensures s.active.None? ==> r == s
    ensures s.active.Some? ==> r.active.Some? && Synced(r) && r.loading == s.loading
    ensures s.active.Some? ==> r.active.value == Merge(s.active.value, p).(profileCompleted := r.active.value.profileCompleted)
    ensures s.active.Some? ==> ScoreConsistent(r.active.value)
  {
    match s.active
    case None => s
    case Some(u) =>
      var merged := Merge(u, p);
      var updated := merged.(profileCompleted := ProfileCompletion(merged));
      s.(active := Some(updated), stored := Some(updated))
  }

  /** The score a patch carries is ignored: it is always recomputed. */
  lemma UpdateIgnoresPatchScore(s: Session, p: UserPatch, score: int)
    ensures UpdateUser(s, p.(profileCompleted := Some(score))) == UpdateUser(s, p.(profileCompleted := None))
  {
  }

  /** Applying the same patch twice is applying it once. */
  lemma UpdateIdempotent(s: Session, p: UserPatch)
    ensures UpdateUser(UpdateUser(s, p), p) == UpdateUser(s, p)
  {
  }

  /** `signIn`'s made-up user: the text before the first '@' as name, no city or level, and a fixed score of 50. */
  function SignInUser(email: string, freshId: string): (u: User)
    ensures u.id == freshId && u.email == email
    ensures u.name <= email && '@' !in u.name
    ensures |u.name| < |email| ==> email[|u.name|] == '@'
    ensures u.city.None? && u.level.None?
    ensures u.profileCompleted == 50
  {
    User(freshId, email, BeforeFirst(email, '@'), None, None, 50)
  }

  /** The stored user whose email is exactly `email`, if there is one. */
  predicate StoredMatches(s: Session, email: string)
  {
    s.stored.Some? && s.stored.value.email == email
  }

  /**
   * `signIn`: a stored user with exactly this email becomes active and nothing
   * is written; otherwise a user is made up, activated and written over
   * whatever was stored. The password is never looked at.
   */
  function SignIn(s: Session, email: string, password: string, freshId: string): (r: Session)
    ensures Synced(r) && r.loading == s.loading
    ensures StoredMatches(s, email) ==> r.stored == s.stored
    ensures !StoredMatches(s, email) ==> r.active == Some(SignInUser(email, freshId))
    ensures StoredMatches(r, email)
  {
    if StoredMatches(s, email) then s.(active := s.stored)
    else
      var u := SignInUser(email, freshId);
      s.(active := Some(u), stored := Some(u))
  }

  /** The password plays no part in signing in. */
  lemma SignInIgnoresPassword(s: Session, email: string, p1: string, p2: string, freshId: string)
    ensures SignIn(s, email, p1, freshId) == SignIn(s, email, p2, freshId)
  {
  }

  /** A second sign-in with the same email finds the record the first one left, whatever its fresh id. */
  lemma SignInTwice(s: Session, email: string, p1: string, p2: string, id1: string, id2: string)
    ensures SignIn(SignIn(s, email, p1, id1), email, p2, id2) == SignIn(s, email, p1, id1)
  {
  }

  /** The hard-coded 50 agrees with the fields exactly when the name before '@' is not empty. */
  lemma SignInScoreConsistentIff(email: string, freshId: string)
    ensures ScoreConsistent(SignInUser(email, freshId)) <==> BeforeFirst(email, '@') != ""
  {
    var u := SignInUser(email, freshId);
    if u.name != "" {
      assert email != "";
    }
  }

  /** `signUp`'s new user: the given name and email, no city or level, and a computed score. */
  function SignUpUser(name: string, email: string, freshId: string): (u: User)
    ensures u.id == freshId && u.name == name && u.email == email
    ensures u.city.None? && u.level.None?
    ensures ScoreConsistent(u)
  {
    var draft := User(freshId, email, name, None, None, 50);
    draft.(profileCompleted := ProfileCompletion(draft))
  }

  /** `signUp`: always a new user, activated and written over whatever was stored; the password is not kept. */
  function SignUp(s: Session, name: string, email: string, password: string, freshId: string): (r: Session)
    ensures r.active == Some(SignUpUser(name, email, freshId))
    ensures Synced(r) && r.loading == s.loading
  {
    var u := SignUpUser(name, email, freshId);
    s.(active := Some(u), stored := Some(u))
  }

  /** The sign-up score counts only the name and the email. */
  lemma SignUpScore(name: string, email: string, freshId: string)
    ensures SignUpUser(name, email, freshId).profileCompleted ==
      25 * ((if name != "" then 1 else 0) + (if email != "" then 1 else 0))
  {
  }

  /** `signOut`: storage cleared and no active user. */
  function SignOut(s: Session): (r: Session)
    ensures r.active.None? && r.stored.None?
    ensures r.loading == s.loading
  {
    s.(active := None, stored := None)
  }

  /** After signing out, `updateUser` does nothing and the next sign-in makes up a new user. */
  lemma AfterSignOut(s: Session, p: UserPatch, email: string, password: string, freshId: string)
    ensures UpdateUser(SignOut(s), p) == SignOut(s)
    ensures SignIn(SignOut(s), email, password, freshId).active == Some(SignInUser(email, freshId))
  {
  }

  /** Every transition keeps what is shown equal to what is stored. */
  lemma TransitionsKeepSynced(s: Session, p: UserPatch, name: string, email: string, password: string, freshId: string)
    requires Synced(s)
    ensures Synced(UpdateUser(s, p))
    ensures Synced(SignIn(s, email, password, freshId))
    ensures Synced(SignUp(s, name, email, password, freshId))
    ensures Synced(SignOut(s))
  {
  }

  /**
   * `handleSaveProfile`'s patch: name and city are always present (possibly
   * empty strings), level is present even when it is `undefined`.
   */
  function ProfileSavePatch(name: string, city: string, level: Option<Level>): (p: UserPatch)
    ensures p.name == Some(name) && p.city == Some(Some(city)) && p.level == Some(level)
    ensures p.id.None? && p.email.None? && p.profileCompleted.None?
  {
    UserPatch(None, None, Some(name), Some(Some(city)), Some(level), None)
  }

  /** Saving the profile with the level unset clears a level that was set, and the level no longer scores. */
  lemma SaveWithoutLevelClearsIt(s: Session, name: string, city: string)
    requires s.active.Some? && s.active.value.level.Some?
    ensures UpdateUser(s, ProfileSavePatch(name, city, None)).active.value.level.None?
    ensures UpdateUser(s, ProfileSavePatch(name, city, None)).active.value.profileCompleted ==
      25 * ((if name != "" then 1 else 0) + (if s.active.value.email != "" then 1 else 0) + (if city != "" then 1 else 0))
  {
  }
}
