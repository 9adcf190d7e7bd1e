/**
 * The settings page (`client/src/pages/Settings.jsx`): the notification
 * switches, the labels shown for them, the password-change check and the
 * profile form's preferences.
 */
module SettingsPage {
  import opened Wrappers
  import Text
  import AuthStore

  type User = AuthStore.User
  type Prefs = map<string, AuthStore.PrefValue>

  /** The page's notification switches as it opens. */
  const InitialNotifications: map<string, bool> :=
    map["medicationReminders" := true, "journalReminders" := true, "healthAlerts" := true]

  /** `{ ...prev, [key]: !prev[key] }`: a missing key reads `undefined`, so it becomes `true`. */
  function Toggle(n: map<string, bool>, key: string): map<string, bool> {
    n[key := !(key in n && n[key])]
  }

  /**
   * A toggle flips exactly the named switch (a missing one is switched on)
   * and leaves every other switch as it was; toggling a switch twice restores
   * the switches.
   */
  lemma {:induction false} ToggleSpec(n: map<string, bool>, key: string)
    ensures Toggle(n, key).Keys == n.Keys + {key}
    ensures Toggle(n, key)[key] == (key !in n || !n[key])
    ensures forall k :: k in n && k != key ==> Toggle(n, key)[k] == n[k]
    ensures key in n ==> Toggle(Toggle(n, key), key) == n
  {
    if key in n {
      var twice := Toggle(Toggle(n, key), key);
      assert twice.Keys == n.Keys;
      assert forall k :: k in twice ==> twice[k] == n[k];
    }
  }

  /** `key.replace(/([A-Z])/g, ' $1')`: a space before every capital letter. */
  function SpaceCapitals(s: string): (r: string)
    ensures |r| >= |s|
    ensures s != [] && !Text.IsUpper(s[0]) ==> r != [] && r[0] == s[0]
  {
    if s == [] then []
    else (if Text.IsUpper(s[0]) then [' ', s[0]] else [s[0]]) + SpaceCapitals(s[1..])
  }

  /** The characters `.` does not match. */
  predicate IsLineTerminator(c: char) {
    c == '\n' || c == '\r' || c as int == 0x2028 || c as int == 0x2029
  }

  /** `s.replace(/^./, str => str.toUpperCase())`. */
  function UpperFirst(s: string): (r: string)
    ensures |r| == |s|
    ensures s != [] ==> r[1..] == s[1..]
  {
    if s != [] && !IsLineTerminator(s[0]) then [Text.UpperChar(s[0])] + s[1..] else s
  }

  /** The label shown for a notification key. */
  function FormatLabel(key: string): string {
    UpperFirst(SpaceCapitals(key))
  }

  /** The string without its spaces. */
  function RemoveSpaces(s: string): string {
    if s == [] then [] else (if s[0] == ' ' then [] else [s[0]]) + RemoveSpaces(s[1..])
  }

  /** Reading a label back as a key: drop the spaces and lower-case the first letter. */
  function LabelKey(shown: string): string {
    var t := RemoveSpaces(shown);
    if t == [] then [] else [Text.LowerChar(t[0])] + t[1..]
  }

  /** Spacing out capitals only adds spaces. */
  lemma {:induction false} RemoveSpacesSpaceCapitals(s: string)
    requires ' ' !in s
    ensures RemoveSpaces(SpaceCapitals(s)) == s
  {
    if s != [] {
      assert ' ' !in s[1..];
      RemoveSpacesSpaceCapitals(s[1..]);
      var head := if Text.IsUpper(s[0]) then [' ', s[0]] else [s[0]];
      RemoveSpacesAppend(head, SpaceCapitals(s[1..]));
      assert RemoveSpaces(head) == [s[0]] by {
        if Text.IsUpper(s[0]) {
          assert head[1..] == [s[0]];
        }
      }
      assert s == [s[0]] + s[1..];
    }
  }

  lemma {:induction false} RemoveSpacesAppend(a: string, b: string)
    ensures RemoveSpaces(a + b) == RemoveSpaces(a) + RemoveSpaces(b)
  {
    if a == [] {
      assert a + b == b;
    } else {
      assert (a + b)[0] == a[0] && (a + b)[1..] == a[1..] + b;
      RemoveSpacesAppend(a[1..], b);
    }
  }

  /**
   * A camel-case key (a lower-case first letter, no spaces) is read back from
   * its label, so distinct keys get distinct labels; the label starts with the
   * key's first letter in upper case.
   */
  lemma {:induction false} FormatLabelRoundTrip(key: string)
    requires key != [] && Text.IsLower(key[0]) && ' ' !in key
    ensures LabelKey(FormatLabel(key)) == key
    ensures FormatLabel(key)[0] == Text.UpperChar(key[0])
  {
    var spaced := SpaceCapitals(key);
    RemoveSpacesSpaceCapitals(key);
    var shown := FormatLabel(key);
    assert shown == [Text.UpperChar(key[0])] + spaced[1..];
    assert spaced == [key[0]] + spaced[1..];
    RemoveSpacesAppend([key[0]], spaced[1..]);
    RemoveSpacesAppend([Text.UpperChar(key[0])], spaced[1..]);
    assert RemoveSpaces(shown) == [Text.UpperChar(key[0])] + key[1..];
  }

  /** A string without capitals gets no spaces. */
  lemma {:induction false} SpaceCapitalsNone(s: string)
    requires forall i :: 0 <= i < |s| ==> !Text.IsUpper(s[i])
    ensures SpaceCapitals(s) == s
  {
    if s != [] {
      SpaceCapitalsNone(s[1..]);
      assert s == [s[0]] + s[1..];
    }
  }

  /**
   * A two-word camel-case key, `first` then a capital and `rest`, is shown as
   * the two words with the first capitalised and a space between.
   */
  lemma {:induction false} FormatTwoWords(first: string, capital: char, rest: string)
    requires first != [] && Text.IsLower(first[0]) && Text.IsUpper(capital)
    requires forall i :: 0 <= i < |first| ==> !Text.IsUpper(first[i])
    requires forall i :: 0 <= i < |rest| ==> !Text.IsUpper(rest[i])
    ensures FormatLabel(first + [capital] + rest) == [Text.UpperChar(first[0])] + first[1..] + [' ', capital] + rest
  {
    SpaceTwoWords(first, capital, rest);
    var spaced := first + [' ', capital] + rest;
    assert spaced[0] == first[0];
    assert spaced[1..] == first[1..] + [' ', capital] + rest;
  }

  /** Spacing out a two-word key puts one space before the capital. */
  lemma {:induction false} SpaceTwoWords(first: string, capital: char, rest: string)
    requires Text.IsUpper(capital)
    requires forall i :: 0 <= i < |first| ==> !Text.IsUpper(first[i])
    requires forall i :: 0 <= i < |rest| ==> !Text.IsUpper(rest[i])
    ensures SpaceCapitals(first + [capital] + rest) == first + [' ', capital] + rest
  {
    var tail := [capital] + rest;
    var spacedTail := [' ', capital] + rest;
    assert first + [capital] + rest == first + tail;
    assert first + spacedTail == first + [' ', capital] + rest;
    assert SpaceCapitals(first) == first by {
      SpaceCapitalsNone(first);
    }
    assert SpaceCapitals(tail) == spacedTail by {
      SpaceWord(capital, rest);
    }
    SpaceCapitalsJoin(first, tail, first, spacedTail);
  }

  /** Spacing out two pieces whose spaced forms are known. */
  lemma {:induction false} SpaceCapitalsJoin(a: string, b: string, a': string, b': string)
    requires SpaceCapitals(a) == a' && SpaceCapitals(b) == b'
    ensures SpaceCapitals(a + b) == a' + b'
  {
    SpaceCapitalsAppend(a, b);
  }

  /** A capitalised word gets one space, before its capital. */
  lemma {:induction false} SpaceWord(capital: char, rest: string)
    requires Text.IsUpper(capital)
    requires forall i :: 0 <= i < |rest| ==> !Text.IsUpper(rest[i])
    ensures SpaceCapitals([capital] + rest) == [' ', capital] + rest
  {
    SpaceCapitalsCons(capital, rest);
    SpaceCapitalsNone(rest);
  }

  /** Spacing out a string is spacing out its first character, then the rest. */
  lemma {:induction false} SpaceCapitalsCons(c: char, s: string)
    ensures SpaceCapitals([c] + s) == (if Text.IsUpper(c) then [' ', c] else [c]) + SpaceCapitals(s)
  {
    assert ([c] + s)[0] == c && ([c] + s)[1..] == s;
  }

  lemma {:induction false} SpaceCapitalsAppend(a: string, b: string)
    ensures SpaceCapitals(a + b) == SpaceCapitals(a) + SpaceCapitals(b)
  {
    if a == [] {
      assert a + b == b;
    } else {
      assert (a + b)[0] == a[0] && (a + b)[1..] == a[1..] + b;
      SpaceCapitalsAppend(a[1..], b);
    }
  }

  /** The first switch the page opens with is labelled in words. */
  lemma {:induction false} InitialLabel()
    ensures FormatLabel("medicationReminders") == "Medication Reminders"
  {
    var first, rest := "medication", "eminders";
    assert "medicationReminders" == first + ['R'] + rest;
    FormatTwoWords(first, 'R', rest);
    assert Text.UpperChar('m') == 'M';
    assert first[1..] == "edication";
    assert ['M'] + "edication" + [' ', 'R'] + rest == "Medication Reminders";
  }

  /** The password form. */
  datatype PasswordForm = PasswordForm(currentPassword: string, newPassword: string, confirmPassword: string)

  const EmptyPasswordForm := PasswordForm("", "", "")
  const PasswordMismatch := "New passwords do not match"
  const PasswordUpdated := "Password updated successfully"
  const ProfileUpdated := "Profile updated successfully"

  /** The check `handlePasswordChange` makes: the error it throws, if any. */
  function PasswordError(form: PasswordForm): Option<string> {
    if form.newPassword != form.confirmPassword then Some(PasswordMismatch) else None
  }

  /**
   * The change fails exactly when the new password and its confirmation
   * differ, and the current password plays no part in the decision.
   */
  lemma {:induction false} PasswordErrorSpec(form: PasswordForm, current: string)
    ensures PasswordError(form).Some? <==> form.newPassword != form.confirmPassword
    ensures PasswordError(form.(currentPassword := current)) == PasswordError(form)
  {
  }

  /** The profile form: the user's fields and preferences. */
  datatype ProfileForm = ProfileForm(name: string, email: string, avatar: string, preferences: Prefs)

  const DefaultUnits: Prefs := map["weightUnit" := AuthStore.Str("lbs"), "temperatureUnit" := AuthStore.Str("F")]

  /** `{ weightUnit: 'lbs', temperatureUnit: 'F', ...user?.preferences }`. */
  function InitialPreferences(user: Option<User>): (r: Prefs)
    ensures user.None? ==> r == DefaultUnits
    ensures user.Some? ==> r.Keys == DefaultUnits.Keys + user.value.preferences.Keys
    ensures user.Some? ==> forall k :: k in user.value.preferences ==> r[k] == user.value.preferences[k]
    ensures forall k :: k in DefaultUnits && (user.None? || k !in user.value.preferences) ==> r[k] == DefaultUnits[k]
  {
    match user
    case None => DefaultUnits
    case Some(u) => DefaultUnits + u.preferences
  }

  /** The profile form as the page opens: the user's fields (`''` without a user) and preferences. */
  function InitialProfile(user: Option<User>): ProfileForm {
    match user
    case None => ProfileForm("", "", "", InitialPreferences(user))
    case Some(u) => ProfileForm(u.name, u.email, u.avatar, InitialPreferences(user))
  }

  /**
   * `{ ...user, name, email, avatar, preferences: { ...user?.preferences, ...form.preferences } }`:
   * the update `handleProfileUpdate` sends.
   */
  function ProfilePatch(user: Option<User>, form: ProfileForm): AuthStore.UserPatch {
    var stored: Prefs := match user case None => map[] case Some(u) => u.preferences;
    AuthStore.UserPatch(
      match user case None => None case Some(u) => Some(u.id),
      Some(form.name), Some(form.email), Some(form.avatar),
      Some(AuthStore.MergePreferences(stored, form.preferences)))
  }

  /**
   * Saving keeps the user's id and takes the form's name, email and avatar;
   * the form's preferences override the stored ones key by key, and stored
   * keys the form lacks survive. Saving the form untouched only fills in the
   * default units the user had no value for.
   */
  lemma {:induction false} ProfileSaveSpec(u: User, form: ProfileForm)
    ensures var saved := AuthStore.MergeUser(u, ProfilePatch(Some(u), form));
      && saved.id == u.id && saved.name == form.name && saved.email == form.email && saved.avatar == form.avatar
      && saved.preferences.Keys == u.preferences.Keys + form.preferences.Keys
      && (forall k :: k in form.preferences ==> saved.preferences[k] == form.preferences[k])
      && (forall k :: k in u.preferences && k !in form.preferences ==> saved.preferences[k] == u.preferences[k])
    ensures AuthStore.MergeUser(u, ProfilePatch(Some(u), InitialProfile(Some(u))))
      == u.(preferences := DefaultUnits + u.preferences)
  {
    var init := InitialProfile(Some(u));
    var p := AuthStore.MergePreferences(u.preferences, init.preferences);
    assert p.Keys == (DefaultUnits + u.preferences).Keys;
    assert forall k :: k in p ==> p[k] == (DefaultUnits + u.preferences)[k];
  }

  /** The page state the handlers work on. */
  class Page {
    var notifications: map<string, bool>
    var profileForm: ProfileForm
    var passwordForm: PasswordForm
    var showPasswordModal: bool
    var isLoading: bool
    var error: Option<string>
    var successMessage: Option<string>

    constructor (user: Option<User>)
      ensures notifications == InitialNotifications && passwordForm == EmptyPasswordForm
      ensures profileForm == InitialProfile(user)
      ensures !showPasswordModal && !isLoading && error == None && successMessage == None
    {
      notifications := InitialNotifications;
      profileForm := InitialProfile(user);
      passwordForm := EmptyPasswordForm;
      showPasswordModal := false;
      isLoading := false;
      error := None;
      successMessage := None;
    }

    /**
     * `handleNotificationChange(key)`: flip the switch and hand the whole
     * updated switch map to the store as the `notifications` preference.
     */
    method HandleNotificationChange(key: string, auth: AuthStore.Store)
      modifies this, auth
      ensures notifications == Toggle(old(notifications), key)
      ensures old(auth.user).Some? ==>
        auth.user == Some(old(auth.user).value.(preferences :=
          AuthStore.MergePreferences(old(auth.user).value.preferences, map["notifications" := AuthStore.Flags(notifications)])))
      ensures old(auth.user).None? ==> auth.user == None
      ensures passwordForm == old(passwordForm) && isLoading == old(isLoading) && error == old(error)
      ensures profileForm == old(profileForm) && showPasswordModal == old(showPasswordModal)
        && successMessage == old(successMessage)
      ensures auth.isAuthenticated == old(auth.isAuthenticated) && auth.isLoading == old(auth.isLoading)
        && auth.error == old(auth.error)
    {
      notifications := Toggle(notifications, key);
      auth.UpdatePreferences(map["notifications" := AuthStore.Flags(notifications)]);
    }

    /**
     * `handleProfileUpdate`, its wait collapsed: the signed-in user takes the
     * form's fields and preferences, and success is reported.
     */
    method HandleProfileUpdate(auth: AuthStore.Store)
      modifies this, auth
      ensures old(auth.user).Some? ==>
        auth.user == Some(AuthStore.MergeUser(old(auth.user).value, ProfilePatch(old(auth.user), profileForm)))
      ensures old(auth.user).None? ==> auth.user == None
      ensures error == None && !isLoading && successMessage == Some(ProfileUpdated)
      ensures profileForm == old(profileForm) && notifications == old(notifications) && passwordForm == old(passwordForm)
      ensures showPasswordModal == old(showPasswordModal)
      ensures auth.isAuthenticated == old(auth.isAuthenticated) && auth.isLoading == old(auth.isLoading)
        && auth.error == old(auth.error)
    {
      isLoading := true;
      error := None;
      auth.UpdateUser(ProfilePatch(auth.user, profileForm));
      successMessage := Some(ProfileUpdated);
      isLoading := false;
    }

    /**
     * `handlePasswordChange`, its wait collapsed: a mismatch reports the error
     * and keeps the form; otherwise the modal closes, all three fields are
     * cleared and success is reported.
     */
    method HandlePasswordChange()
      modifies this
      ensures PasswordError(old(passwordForm)).Some? ==>
        error == Some(PasswordMismatch) && passwordForm == old(passwordForm)
        && showPasswordModal == old(showPasswordModal) && successMessage == old(successMessage)
      ensures PasswordError(old(passwordForm)).None? ==>
        error == None && passwordForm == EmptyPasswordForm && !showPasswordModal && successMessage == Some(PasswordUpdated)
      ensures !isLoading && notifications == old(notifications) && profileForm == old(profileForm)
    {
      isLoading := true;
      error := None;
      var failure := PasswordError(passwordForm);
      if failure.Some? {
        error := failure;
      } else {
        showPasswordModal := false;
        passwordForm := EmptyPasswordForm;
        successMessage := Some(PasswordUpdated);
      }
      isLoading := false;
    }
  }
}
