/** Google sign-in on the server (server/auth.js): users are found by their
    Google id or created, and the session stores a user's id and finds the
    user by it again. The users file is the `users` field; the clock is a
    parameter. */
module Users {
  import opened Options
  import Seqs

  datatype User = User(id: string, googleId: string, email: string, name: string, picture: string,
                       createdAt: string, lastLogin: string)

  /** The parts of a Google profile the source reads: its id, the e-mail
      values, the display name and the photo values; `photos` is `None` when
      the profile carries no photo list at all. */
  datatype Profile = Profile(id: string, emails: seq<string>, displayName: string, photos: Option<seq<string>>)

  const IdPrefix: string := "google_"

  /** Every user's id is derived from its Google id, and no Google id
      belongs to two users. */
  predicate WellFormed(users: seq<User>) {
    && (forall i :: 0 <= i < |users| ==> users[i].id == IdPrefix + users[i].googleId)
    && (forall i, j :: 0 <= i < j < |users| ==> users[i].googleId != users[j].googleId)
  }

  /** `usersData.users.findIndex(u => u.googleId === profile.id)`. */
  function UserIndex(users: seq<User>, googleId: string): (r: Option<nat>)
    ensures r.Some? ==> r.value < |users| && users[r.value].googleId == googleId
    ensures r.None? <==> forall j :: 0 <= j < |users| ==> users[j].googleId != googleId
  {
    Seqs.FindIndex(users, (u: User) => u.googleId == googleId)
  }

  /** The user created for a first sign-in. Reading `.value` of the first
      e-mail of an empty list throws, and so does indexing a photo list that
      is absent; an empty photo list only leaves the picture empty. */
  function NewUser(profile: Profile, now: string): (r: Result<User>)
    ensures r.Ok? <==> |profile.emails| > 0 && profile.photos.Some?
    ensures |profile.emails| == 0 ==> r == Err(NoEmail)
    ensures r.Ok? ==> r.value.id == IdPrefix + profile.id && r.value.googleId == profile.id
    ensures r.Ok? ==> r.value.email == profile.emails[0] && r.value.createdAt == now == r.value.lastLogin
    ensures r.Ok? && |profile.photos.value| > 0 ==> r.value.picture == profile.photos.value[0]
    ensures profile.photos == Some([]) && r.Ok? ==> r.value.picture == ""
  {
    if |profile.emails| == 0 then Err(NoEmail)
    else if profile.photos.None? then Err(NoPhotos)
    else
      var photos := profile.photos.value;
      Ok(User(IdPrefix + profile.id, profile.id, profile.emails[0], profile.displayName,
              if |photos| > 0 then photos[0] else "", now, now))
  }

  const NoEmail: string := "TypeError: emails[0] is undefined"
  const NoPhotos: string := "TypeError: photos is undefined"

  /** The user list and the user after `findOrCreateUser`. */
  function SignedIn(users: seq<User>, profile: Profile, now: string): (seq<User>, Result<User>) {
    match UserIndex(users, profile.id)
    case Some(k) =>
      var u := users[k].(lastLogin := now);
      (users[k := u], Ok(u))
    case None =>
      var n := NewUser(profile, now);
      if n.Ok? then (users + [n.value], n) else (users, n)
  }

  /** `serializeUser`: the session keeps the user's id. */
  function Serialize(u: User): string {
    u.id
  }

  /** `deserializeUser`: the first user with that id, if any. */
  function Deserialize(users: seq<User>, id: string): (r: Option<User>)
    ensures r.Some? ==> r.value in users && r.value.id == id
    ensures r.None? <==> forall j :: 0 <= j < |users| ==> users[j].id != id
  {
    Seqs.Find(users, (u: User) => u.id == id)
  }

  class UserStore {
    var users: seq<User>

    /** `ensureUsersFile`: a missing file starts with no users. */
    constructor ()
      ensures users == []
    {
      users := [];
    }

    /** `findOrCreateUser`: a known Google id only gets a new `lastLogin`;
        an unknown one is appended as a new user. */
    method FindOrCreateUser(profile: Profile, now: string) returns (r: Result<User>)
      modifies this
      ensures (users, r) == SignedIn(old(users), profile, now)
    {
      var k := UserIndex(users, profile.id);
      if k.Some? {
        var u := users[k.value].(lastLogin := now);
        users := users[k.value := u];
        return Ok(u);
      }
      r := NewUser(profile, now);
      if r.Ok? {
        users := users + [r.value];
      }
    }
  }

  // ---- properties ----

  /** A returning user keeps the list's length and every other user, and
      only its `lastLogin` changes. */
  lemma ReturningUserOnlyStamped(users: seq<User>, profile: Profile, now: string)
    requires UserIndex(users, profile.id).Some?
    ensures var (after, r) := SignedIn(users, profile, now);
      var k := UserIndex(users, profile.id).value;
      |after| == |users| && r == Ok(after[k]) && after[k] == users[k].(lastLogin := now)
      && forall j :: 0 <= j < |users| && j != k ==> after[j] == users[j]
  {
  }

  /** A first sign-in appends exactly one user, keyed by the Google id,
      with an empty picture when the profile has no photo. */
  lemma NewcomerAppended(users: seq<User>, profile: Profile, now: string)
    requires UserIndex(users, profile.id).None? && |profile.emails| > 0 && profile.photos.Some?
    ensures var (after, r) := SignedIn(users, profile, now);
      r.Ok? && after == users + [r.value] && r.value.id == "google_" + profile.id
      && (profile.photos == Some([]) ==> r.value.picture == "")
  {
  }

  /** A sign-in keeps the list well formed. */
  lemma SignInKeepsWellFormed(users: seq<User>, profile: Profile, now: string)
    requires WellFormed(users)
    ensures WellFormed(SignedIn(users, profile, now).0)
  {
    var after := SignedIn(users, profile, now).0;
    match UserIndex(users, profile.id)
    case Some(k) =>
      assert forall j :: 0 <= j < |after| ==> after[j].id == users[j].id && after[j].googleId == users[j].googleId;
    case None =>
  }

  /** Distinct Google ids give distinct user ids. */
  lemma IdsDistinct(users: seq<User>, i: nat, j: nat)
    requires WellFormed(users) && i < j < |users|
    ensures users[i].id != users[j].id
  {
    assert users[i].id[|IdPrefix|..] == users[i].googleId;
    assert users[j].id[|IdPrefix|..] == users[j].googleId;
  }

  /** In a well-formed list the session round trip finds the same user. */
  lemma SessionRoundTrip(users: seq<User>, u: User)
    requires WellFormed(users) && u in users
    ensures Deserialize(users, Serialize(u)) == Some(u)
  {
    var r := Deserialize(users, u.id);
    var i :| 0 <= i < |users| && users[i] == u;
    var j :| 0 <= j < |users| && users[j] == r.value;
    if i < j { IdsDistinct(users, i, j); }
    if j < i { IdsDistinct(users, j, i); }
  }

  /** The user a sign-in returns is the one the session finds afterwards. */
  lemma SignInThenSession(users: seq<User>, profile: Profile, now: string)
    requires WellFormed(users)
    requires SignedIn(users, profile, now).1.Ok?
    ensures var (after, r) := SignedIn(users, profile, now);
      Deserialize(after, Serialize(r.value)) == Some(r.value)
  {
    SignInKeepsWellFormed(users, profile, now);
    var (after, r) := SignedIn(users, profile, now);
    match UserIndex(users, profile.id) {
      case Some(k) => assert after[k] == r.value;
      case None => assert after[|users|] == r.value;
    }
    SessionRoundTrip(after, r.value);
  }

  /** Signing in twice leaves one user for the profile. */
  lemma SecondSignInAddsNobody(users: seq<User>, profile: Profile, t1: string, t2: string)
    requires SignedIn(users, profile, t1).1.Ok?
    ensures var once := SignedIn(users, profile, t1).0;
      |SignedIn(once, profile, t2).0| == |once|
  {
    var (once, r) := SignedIn(users, profile, t1);
    match UserIndex(users, profile.id)
    case Some(k) => assert once[k].googleId == profile.id;
    case None => assert once[|users|].googleId == profile.id;
  }
}
