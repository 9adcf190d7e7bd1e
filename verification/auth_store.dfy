/**
 * The authentication store (`client/src/store/authStore.js`): the signed-in
 * user, whether someone is signed in, a loading flag and an error. Signing in
 * accepts one fixed demonstration account.
 */
module AuthStore {
  import opened Wrappers

  /** A preference value: a string, a flag, or a map of named flags (the notification settings). */
  datatype PrefValue = Str(s: string) | Flag(b: bool) | Flags(flags: map<string, bool>)

  datatype User = User(
    id: string,
    name: string,
    email: string,
    avatar: string,
    preferences: map<string, PrefValue>)

  /** The keys an update object carries; `None` is a key the object does not have. */
  datatype UserPatch = UserPatch(
    id: Option<string>,
    name: Option<string>,
    email: Option<string>,
    avatar: Option<string>,
    preferences: Option<map<string, PrefValue>>)

  const DemoEmail := "demo@example.com"
  const DemoPassword := "password"
  const InvalidCredentials := "Invalid email or password"

  /** `DEMO_USER`. */
  const DemoUser := User(
    "user-1",
    "John Smith",
    "john@example.com",
    "https://images.unsplash.com/photo-1472099645785-5658abf4ff4e?w=400&h=400&fit=crop&crop=faces",
    map["theme" := Str("light"), "notifications" := Flag(true)])

  /** The one credential pair `login` accepts. */
  predicate AcceptsLogin(email: string, password: string) {
    email == DemoEmail && password == DemoPassword
  }

  /** `{ ...user, ...updates }`. */
  function MergeUser(u: User, p: UserPatch): User {
    User(
      p.id.GetOr(u.id), p.name.GetOr(u.name), p.email.GetOr(u.email),
      p.avatar.GetOr(u.avatar), p.preferences.GetOr(u.preferences))
  }

  /** `{ ...user.preferences, ...preferences }`. */
  function MergePreferences(current: map<string, PrefValue>, updates: map<string, PrefValue>): (r: map<string, PrefValue>)
    ensures r.Keys == current.Keys + updates.Keys
    ensures forall k :: k in updates ==> r[k] == updates[k]
    ensures forall k :: k in current && k !in updates ==> r[k] == current[k]
  {
    current + updates
  }

  /**
   * Updates override key by key: an update with no keys changes nothing,
   * applying an update twice is applying it once, and keys the update does
   * not name keep their values.
   */
  lemma {:induction false} MergeUserLaws(u: User, p: UserPatch)
    ensures MergeUser(u, UserPatch(None, None, None, None, None)) == u
    ensures MergeUser(MergeUser(u, p), p) == MergeUser(u, p)
    ensures p.preferences.None? ==> MergeUser(u, p).preferences == u.preferences
  {
  }

  /** Merging preferences twice with the same update is merging once; merging nothing changes nothing. */
  lemma {:induction false} MergePreferencesLaws(current: map<string, PrefValue>, updates: map<string, PrefValue>)
    ensures MergePreferences(MergePreferences(current, updates), updates) == MergePreferences(current, updates)
    ensures MergePreferences(current, map[]) == current
  {
    var once := MergePreferences(current, updates);
    var twice := MergePreferences(once, updates);
    assert twice.Keys == once.Keys;
    assert forall k :: k in twice ==> twice[k] == once[k];
  }

  /** The store's state and its actions. */
  class Store {
    var user: Option<User>
    var isAuthenticated: bool
    var isLoading: bool
    var error: Option<string>

    constructor ()
      ensures user == None && !isAuthenticated && !isLoading && error == None
    {
      user := None;
      isAuthenticated := false;
      isLoading := false;
      error := None;
    }

    /** The first step of `login`, before the simulated wait. */
    method BeginLogin()
      modifies this
      ensures isLoading && error == None
      ensures user == old(user) && isAuthenticated == old(isAuthenticated)
    {
      isLoading := true;
      error := None;
    }

    /** The step of `login` after the simulated wait: accept the demonstration account, refuse anything else. */
    method CompleteLogin(email: string, password: string)
      modifies this
      ensures AcceptsLogin(email, password) ==>
        user == Some(DemoUser) && isAuthenticated && !isLoading && error == old(error)
      ensures !AcceptsLogin(email, password) ==>
        error == Some(InvalidCredentials) && !isLoading
        && user == old(user) && isAuthenticated == old(isAuthenticated)
    {
      if email == DemoEmail && password == DemoPassword {
        user := Some(DemoUser);
        isAuthenticated := true;
        isLoading := false;
      } else {
        error := Some(InvalidCredentials);
        isLoading := false;
      }
    }

    /**
     * `login`, its wait collapsed: success signs in the demonstration user
     * with no error; failure reports the error and leaves who is signed in.
     */
    method Login(email: string, password: string)
      modifies this
      ensures AcceptsLogin(email, password) ==>
        user == Some(DemoUser) && isAuthenticated && !isLoading && error == None
      ensures !AcceptsLogin(email, password) ==>
        error == Some(InvalidCredentials) && !isLoading
        && user == old(user) && isAuthenticated == old(isAuthenticated)
    {
      BeginLogin();
      CompleteLogin(email, password);
    }

    /** `logout`: the loading flag is left as it is. */
    method Logout()
      modifies this
      ensures user == None && !isAuthenticated && error == None
      ensures isLoading == old(isLoading)
    {
      user := None;
      isAuthenticated := false;
      error := None;
    }

    /** `updateUser`: no user stays no user. */
    method UpdateUser(p: UserPatch)
      modifies this
      ensures user == if old(user).Some? then Some(MergeUser(old(user).value, p)) else None
      ensures isAuthenticated == old(isAuthenticated) && isLoading == old(isLoading) && error == old(error)
    {
      if user.Some? {
        user := Some(MergeUser(user.value, p));
      }
    }

    /** `updatePreferences`: only the preferences change, and no user stays no user. */
    method UpdatePreferences(prefs: map<string, PrefValue>)
      modifies this
      ensures old(user).None? ==> user == None
      ensures old(user).Some? ==>
        user == Some(old(user).value.(preferences := MergePreferences(old(user).value.preferences, prefs)))
      ensures isAuthenticated == old(isAuthenticated) && isLoading == old(isLoading) && error == old(error)
    {
      if user.Some? {
        user := Some(user.value.(preferences := MergePreferences(user.value.preferences, prefs)));
      }
    }
  }
}
