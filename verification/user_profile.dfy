/**
 * UserProfileDomain (src/domains/userProfile.domain.ts): a user's personal
 * details, display preferences and completion flag. Optional fields absent
 * are None; a date is its instant in milliseconds. `id` stands for
 * crypto.randomUUID() and `now` for new Date().
 */
module UserProfile {
  import opened Wrappers
  import opened Text

  datatype Theme = Light | Dark | Auto
  datatype Preferences = Preferences(emailNotifications: bool, smsNotifications: bool, marketingEmails: bool, theme: Theme)
  datatype Address = Address(street: string, city: string, state: string, country: string, postalCode: string)

  datatype Profile = Profile(
    id: string, userId: string, firstName: string, lastName: string, phone: Option<string>,
    avatar: Option<string>, bio: Option<string>, timezone: string, language: string,
    dateOfBirth: Option<int>, address: Option<Address>, preferences: Preferences,
    isCompleted: bool, createdAt: int, updatedAt: int)

  const DefaultTimezone: string := "UTC"
  const DefaultLanguage: string := "en"
  const DefaultPreferences: Preferences := Preferences(true, false, false, Auto)

  /** The constructor: UTC, English, e-mail notifications only, automatic theme, not complete. */
  function NewProfile(id: string, userId: string, firstName: string, lastName: string, now: int): (p: Profile)
    ensures p.id == id && p.userId == userId && p.firstName == firstName && p.lastName == lastName
    ensures p.timezone == "UTC" && p.language == "en"
    ensures p.preferences == Preferences(true, false, false, Auto)
    ensures !p.isCompleted && p.createdAt == now && p.updatedAt == now
    ensures p.phone.None? && p.avatar.None? && p.bio.None? && p.dateOfBirth.None? && p.address.None?
  {
    Profile(id, userId, firstName, lastName, None, None, None, DefaultTimezone, DefaultLanguage,
            None, None, DefaultPreferences, false, now, now)
  }

  /** getFullName: first and last name joined by a space, surrounding white space trimmed. */
  function FullName(p: Profile): (name: string)
    ensures |name| <= |p.firstName| + 1 + |p.lastName|
  {
    Trim(p.firstName + " " + p.lastName)
  }

  /** The checkCompletion rule: both names non-empty, a non-empty phone, and a date of birth. */
  predicate IsComplete(p: Profile) {
    p.firstName != "" && p.lastName != "" && p.phone.Some? && p.phone.value != "" && p.dateOfBirth.Some?
  }

  /** checkCompletion: sets the flag from the rule and changes nothing else. */
  function CheckCompletion(p: Profile): (p': Profile)
    ensures p'.isCompleted <==>
      p.firstName != "" && p.lastName != "" && p.phone.Some? && p.phone.value != "" && p.dateOfBirth.Some?
    ensures p'.(isCompleted := p.isCompleted) == p
  {
    p.(isCompleted := IsComplete(p))
  }

  /**
   * The fields updateProfile's Partial<…> may carry. id, userId and
   * createdAt are excluded by its type; isCompleted and updatedAt are
   * overwritten right after the assignment, so carrying them changes nothing.
   */
  datatype ProfileUpdate = ProfileUpdate(
    firstName: Option<string>, lastName: Option<string>, phone: Option<string>, avatar: Option<string>,
    bio: Option<string>, timezone: Option<string>, language: Option<string>, dateOfBirth: Option<int>,
    address: Option<Address>, preferences: Option<Preferences>)

  const NoChanges: ProfileUpdate := ProfileUpdate(None, None, None, None, None, None, None, None, None, None)

  /** A provided value replaces the current one. */
  function Override<T>(current: T, provided: Option<T>): (v: T)
    ensures provided.Some? ==> v == provided.value
    ensures provided.None? ==> v == current
  {
    if provided.Some? then provided.value else current
  }

  /** An optional field: provided values replace, absent ones keep what was there. */
  function OverrideOptional<T>(current: Option<T>, provided: Option<T>): (v: Option<T>)
    ensures provided.Some? ==> v == provided
    ensures provided.None? ==> v == current
  {
    if provided.Some? then provided else current
  }

  /** Object.assign of the provided fields, without stamping or recomputing anything. */
  function Assign(p: Profile, u: ProfileUpdate): (p': Profile)
    ensures p'.id == p.id && p'.userId == p.userId && p'.createdAt == p.createdAt
    ensures p'.isCompleted == p.isCompleted && p'.updatedAt == p.updatedAt
  {
    p.(firstName := Override(p.firstName, u.firstName), lastName := Override(p.lastName, u.lastName),
       phone := OverrideOptional(p.phone, u.phone), avatar := OverrideOptional(p.avatar, u.avatar),
       bio := OverrideOptional(p.bio, u.bio), timezone := Override(p.timezone, u.timezone),
       language := Override(p.language, u.language), dateOfBirth := OverrideOptional(p.dateOfBirth, u.dateOfBirth),
       address := OverrideOptional(p.address, u.address), preferences := Override(p.preferences, u.preferences))
  }

  /** updateProfile: exactly the provided fields overwritten, then stamped and its completion recomputed. */
  function UpdateProfile(p: Profile, u: ProfileUpdate, now: int): (p': Profile)
    ensures p'.firstName == u.firstName.GetOr(p.firstName) && p'.lastName == u.lastName.GetOr(p.lastName)
    ensures p'.phone == (if u.phone.Some? then u.phone else p.phone)
    ensures p'.avatar == (if u.avatar.Some? then u.avatar else p.avatar)
    ensures p'.bio == (if u.bio.Some? then u.bio else p.bio)
    ensures p'.timezone == u.timezone.GetOr(p.timezone) && p'.language == u.language.GetOr(p.language)
    ensures p'.dateOfBirth == (if u.dateOfBirth.Some? then u.dateOfBirth else p.dateOfBirth)
    ensures p'.address == (if u.address.Some? then u.address else p.address)
    ensures p'.preferences == u.preferences.GetOr(p.preferences)
    ensures p'.id == p.id && p'.userId == p.userId && p'.createdAt == p.createdAt && p'.updatedAt == now
    ensures p'.isCompleted <==> IsComplete(p')
  {
    CheckCompletion(Assign(p, u).(updatedAt := now))
  }

  /** The partial preferences updatePreferences accepts. */
  datatype PreferencesUpdate = PreferencesUpdate(
    emailNotifications: Option<bool>, smsNotifications: Option<bool>, marketingEmails: Option<bool>, theme: Option<Theme>)

  /** The object spread { ...current, ...provided }. */
  function Merge(current: Preferences, u: PreferencesUpdate): (m: Preferences)
    ensures m.emailNotifications == u.emailNotifications.GetOr(current.emailNotifications)
    ensures m.smsNotifications == u.smsNotifications.GetOr(current.smsNotifications)
    ensures m.marketingEmails == u.marketingEmails.GetOr(current.marketingEmails)
    ensures m.theme == u.theme.GetOr(current.theme)
  {
    Preferences(Override(current.emailNotifications, u.emailNotifications),
                Override(current.smsNotifications, u.smsNotifications),
                Override(current.marketingEmails, u.marketingEmails),
                Override(current.theme, u.theme))
  }

  /** updatePreferences: the merge, stamped; nothing else changes. */
  function UpdatePreferences(p: Profile, u: PreferencesUpdate, now: int): (p': Profile)
    ensures p'.preferences == Merge(p.preferences, u) && p'.updatedAt == now
    ensures p'.(preferences := p.preferences, updatedAt := p.updatedAt) == p
  {
    p.(preferences := Merge(p.preferences, u), updatedAt := now)
  }

  function SetAvatar(p: Profile, url: string, now: int): (p': Profile)
    ensures p'.avatar == Some(url) && p'.updatedAt == now
    ensures p'.(avatar := p.avatar, updatedAt := p.updatedAt) == p
  {
    p.(avatar := Some(url), updatedAt := now)
  }

  function RemoveAvatar(p: Profile, now: int): (p': Profile)
    ensures p'.avatar.None? && p'.updatedAt == now
    ensures p'.(avatar := p.avatar, updatedAt := p.updatedAt) == p
  {
    p.(avatar := None, updatedAt := now)
  }

  // ---------------------------------------------------------------------
  // Properties
  // ---------------------------------------------------------------------

  /** A string that does not start or end in white space is its own trim. */
  lemma TrimPlain(s: string)
    requires |s| > 0 && !IsSpace(s[0]) && !IsSpace(s[|s| - 1])
    ensures Trim(s) == s
  {
  }

  /** Two names without surrounding white space make the full name "first last". */
  lemma FullNameOfPlainNames(p: Profile)
    requires |p.firstName| > 0 && !IsSpace(p.firstName[0]) && !IsSpace(p.firstName[|p.firstName| - 1])
    requires |p.lastName| > 0 && !IsSpace(p.lastName[0]) && !IsSpace(p.lastName[|p.lastName| - 1])
    ensures FullName(p) == p.firstName + " " + p.lastName
  {
    var s := p.firstName + " " + p.lastName;
    assert s[0] == p.firstName[0] && s[|s| - 1] == p.lastName[|p.lastName| - 1];
    TrimPlain(s);
  }

  /** Without a last name the joining space is trimmed away. */
  lemma {:induction false} FullNameWithoutLastName(p: Profile)
    requires |p.firstName| > 0 && !IsSpace(p.firstName[0]) && !IsSpace(p.firstName[|p.firstName| - 1])
    requires p.lastName == ""
    ensures FullName(p) == p.firstName
  {
    var s := p.firstName + " " + p.lastName;
    assert s[0] == p.firstName[0] && IsSpace(s[|s| - 1]);
    assert TrimStart(s) == s;
    assert s[..|s| - 1] == p.firstName;
    assert TrimEnd(s) == TrimEnd(p.firstName) == p.firstName;
  }

  /** A profile is complete after an update iff the merged fields meet the rule, whatever the flag was. */
  lemma UpdateDecidesCompletion(p: Profile, u: ProfileUpdate, now: int)
    ensures UpdateProfile(p, u, now).isCompleted <==> IsComplete(Assign(p, u))
  {
  }

  /** Supplying names, phone and date of birth completes a profile; an empty phone never does. */
  lemma SupplyingFieldsCompletes(p: Profile, u: ProfileUpdate, now: int)
    requires u.firstName.Some? && u.firstName.value != "" && u.lastName.Some? && u.lastName.value != ""
    requires u.dateOfBirth.Some?
    ensures u.phone.Some? && u.phone.value != "" ==> UpdateProfile(p, u, now).isCompleted
    ensures u.phone == Some("") ==> !UpdateProfile(p, u, now).isCompleted
  {
  }

  /** An update that carries nothing only stamps the profile and recomputes its flag. */
  lemma EmptyUpdate(p: Profile, now: int)
    ensures UpdateProfile(p, NoChanges, now) == CheckCompletion(p).(updatedAt := now)
  {
  }

  /** Applying the same update twice is applying it once. */
  lemma UpdateIdempotent(p: Profile, u: ProfileUpdate, t1: int, t2: int)
    ensures UpdateProfile(UpdateProfile(p, u, t1), u, t2) == UpdateProfile(p, u, t2)
  {
  }

  /** Merging the empty update keeps every preference; merging twice keeps the later value of each key. */
  lemma MergeLaws(current: Preferences, a: PreferencesUpdate, b: PreferencesUpdate)
    ensures Merge(current, PreferencesUpdate(None, None, None, None)) == current
    ensures Merge(Merge(current, a), b) == Merge(current, PreferencesUpdate(
      if b.emailNotifications.Some? then b.emailNotifications else a.emailNotifications,
      if b.smsNotifications.Some? then b.smsNotifications else a.smsNotifications,
      if b.marketingEmails.Some? then b.marketingEmails else a.marketingEmails,
      if b.theme.Some? then b.theme else a.theme))
  {
  }

  /** Setting then removing the avatar leaves no avatar and every other field as it was. */
  lemma AvatarRoundTrip(p: Profile, url: string, t1: int, t2: int)
    ensures RemoveAvatar(SetAvatar(p, url, t1), t2) == p.(avatar := None, updatedAt := t2)
  {
  }
}
