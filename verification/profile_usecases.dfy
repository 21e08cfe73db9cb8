/**
 * The two profile use cases (src/usecases/userProfile/): create a user's
 * profile and update it. The user_profiles table has a unique user_id
 * column, so it is a map from user id to profile; the users table is the
 * one of the authentication use cases. A failure is the ResponseErrorDomain
 * the use case throws, and it leaves the table as it was.
 */
module ProfileUseCases {
  import opened Wrappers
  import opened Responses
  import Users
  import opened UserProfile

  type ProfileStore = map<string, Profile>

  const UserNotFound: Failure := Failure("USER_NOT_FOUND", NotFound)
  const ProfileExists: Failure := Failure("USER_PROFILE_ALREADY_EXISTS", Conflict)
  const ProfileNotFound: Failure := Failure("USER_PROFILE_NOT_FOUND", NotFound)
  const ProfileCreated: string := "USER_PROFILE_CREATED"
  const ProfileUpdated: string := "USER_PROFILE_UPDATED"

  /** The response body: which profile, and whether it counts as complete. */
  datatype ProfileResponse = ProfileResponse(message: string, status: nat, profileId: string, isCompleted: bool)

  datatype Outcome = Outcome(result: Result<ProfileResponse, Failure>, profiles: ProfileStore)

  datatype CreateRequest = CreateRequest(
    userId: string, firstName: string, lastName: string, phone: Option<string>, bio: Option<string>,
    timezone: Option<string>, language: Option<string>, dateOfBirth: Option<int>)

  /** A string field is copied only when it is truthy, that is present and non-empty. */
  function IfTruthy(current: Option<string>, provided: Option<string>): (v: Option<string>)
    ensures provided.Some? && provided.value != "" ==> v == provided
    ensures provided.None? || provided.value == "" ==> v == current
  {
    if provided.Some? && provided.value != "" then provided else current
  }

  /** The profile execute builds: the constructor's, then each truthy optional field. A Date is always truthy. */
  function Build(req: CreateRequest, id: string, now: int): (p: Profile)
    ensures p.id == id && p.userId == req.userId && p.firstName == req.firstName && p.lastName == req.lastName
    ensures p.phone == (if req.phone.Some? && req.phone.value != "" then req.phone else None)
    ensures p.bio == (if req.bio.Some? && req.bio.value != "" then req.bio else None)
    ensures p.timezone == (if req.timezone.Some? && req.timezone.value != "" then req.timezone.value else DefaultTimezone)
    ensures p.language == (if req.language.Some? && req.language.value != "" then req.language.value else DefaultLanguage)
    ensures p.dateOfBirth == req.dateOfBirth
    ensures !p.isCompleted
  {
    var p := NewProfile(id, req.userId, req.firstName, req.lastName, now);
    p.(phone := IfTruthy(p.phone, req.phone), bio := IfTruthy(p.bio, req.bio),
       timezone := IfTruthy(Some(p.timezone), req.timezone).value,
       language := IfTruthy(Some(p.language), req.language).value,
       dateOfBirth := OverrideOptional(p.dateOfBirth, req.dateOfBirth))
  }

  /** createUserProfile, as written: 404, 409, or the built profile stored under the user, reported as not complete. */
  function CreateUserProfile(users: Users.UserStore, profiles: ProfileStore, req: CreateRequest, id: string, now: int): (out: Outcome)
    ensures Users.FindById(users, req.userId).None? ==> out == Outcome(Err(UserNotFound), profiles)
    ensures Users.FindById(users, req.userId).Some? && req.userId in profiles ==> out == Outcome(Err(ProfileExists), profiles)
    ensures out.result.Ok? <==> Users.FindById(users, req.userId).Some? && req.userId !in profiles
    ensures out.result.Ok? ==>
      && out.profiles == profiles[req.userId := Build(req, id, now)]
      && out.result.value == ProfileResponse(ProfileCreated, Created, id, false)
  {
    if Users.FindById(users, req.userId).None? then Outcome(Err(UserNotFound), profiles)
    else if req.userId in profiles then Outcome(Err(ProfileExists), profiles)
    else
      var p := Build(req, id, now);
      Outcome(Ok(ProfileResponse(ProfileCreated, Created, p.id, p.isCompleted)), profiles[req.userId := p])
  }

  /** createUserProfile with the completion check the domain provides applied before the profile is stored. */
  function CreateUserProfileFixed(users: Users.UserStore, profiles: ProfileStore, req: CreateRequest, id: string, now: int): (out: Outcome)
    ensures out.result.Ok? <==> Users.FindById(users, req.userId).Some? && req.userId !in profiles
    ensures out.result.Err? ==> out.profiles == profiles
    ensures out.result.Ok? ==>
      && req.userId in out.profiles
      && out.profiles == profiles[req.userId := CheckCompletion(Build(req, id, now))]
      && out.result.value.isCompleted == IsComplete(out.profiles[req.userId])
  {
    if Users.FindById(users, req.userId).None? then Outcome(Err(UserNotFound), profiles)
    else if req.userId in profiles then Outcome(Err(ProfileExists), profiles)
    else
      var p := CheckCompletion(Build(req, id, now));
      Outcome(Ok(ProfileResponse(ProfileCreated, Created, p.id, p.isCompleted)), profiles[req.userId := p])
  }

  /** A request that carries every field the completion rule asks for. */
  predicate SuppliesCompletion(req: CreateRequest) {
    req.firstName != "" && req.lastName != "" && req.phone.Some? && req.phone.value != "" && req.dateOfBirth.Some?
  }

  /** As written, a create that supplies every completion field still reports and stores an incomplete profile. */
  lemma CreateReportsIncomplete(users: Users.UserStore, profiles: ProfileStore, req: CreateRequest, id: string, now: int)
    requires Users.FindById(users, req.userId).Some? && req.userId !in profiles && SuppliesCompletion(req)
    ensures var out := CreateUserProfile(users, profiles, req, id, now);
      && out.result.Ok? && !out.result.value.isCompleted
      && IsComplete(out.profiles[req.userId]) && !out.profiles[req.userId].isCompleted
  {
  }

  /** With the check applied, the stored flag agrees with the rule, and such a create reports complete. */
  lemma CreateFixedReportsCompletion(users: Users.UserStore, profiles: ProfileStore, req: CreateRequest, id: string, now: int)
    requires Users.FindById(users, req.userId).Some? && req.userId !in profiles
    ensures var out := CreateUserProfileFixed(users, profiles, req, id, now);
      && (out.profiles[req.userId].isCompleted <==> IsComplete(out.profiles[req.userId]))
      && (SuppliesCompletion(req) ==> out.result.value.isCompleted)
  {
  }

  datatype UpdateRequest = UpdateRequest(
    userId: string, firstName: Option<string>, lastName: Option<string>, phone: Option<string>,
    avatar: Option<string>, bio: Option<string>, timezone: Option<string>, language: Option<string>,
    dateOfBirth: Option<int>, address: Option<Address>)

  /** const { userId, ...updates } = request: every field except userId, and no preferences. */
  function UpdatesOf(req: UpdateRequest): (u: ProfileUpdate)
    ensures u.preferences.None?
  {
    ProfileUpdate(req.firstName, req.lastName, req.phone, req.avatar, req.bio, req.timezone, req.language,
                  req.dateOfBirth, req.address, None)
  }

  /** updateUserProfile: 404 for a missing user, 404 for a missing profile, else the domain update written back. */
  function UpdateUserProfile(users: Users.UserStore, profiles: ProfileStore, req: UpdateRequest, now: int): (out: Outcome)
    ensures Users.FindById(users, req.userId).None? ==> out == Outcome(Err(UserNotFound), profiles)
    ensures Users.FindById(users, req.userId).Some? && req.userId !in profiles ==> out == Outcome(Err(ProfileNotFound), profiles)
    ensures out.result.Ok? <==> Users.FindById(users, req.userId).Some? && req.userId in profiles
    ensures out.result.Ok? ==>
      var p := UpdateProfile(profiles[req.userId], UpdatesOf(req), now);
      && out.profiles == profiles[req.userId := p]
      && out.result.value == ProfileResponse(ProfileUpdated, Responses.Ok, p.id, p.isCompleted)
  {
    if Users.FindById(users, req.userId).None? then Outcome(Err(UserNotFound), profiles)
    else if req.userId !in profiles then Outcome(Err(ProfileNotFound), profiles)
    else
      var p := UpdateProfile(profiles[req.userId], UpdatesOf(req), now);
      Outcome(Ok(ProfileResponse(ProfileUpdated, Responses.Ok, p.id, p.isCompleted)), profiles[req.userId := p])
  }

  /** Profiles filed under their own user, as createUserProfile files them. */
  predicate Keyed(profiles: ProfileStore) {
    forall u :: u in profiles ==> profiles[u].userId == u
  }

  /** Both use cases keep every profile filed under its own user, and the update never moves one. */
  lemma UseCasesKeepKeys(users: Users.UserStore, profiles: ProfileStore, c: CreateRequest, id: string,
                         u: UpdateRequest, now: int)
    requires Keyed(profiles)
    ensures Keyed(CreateUserProfile(users, profiles, c, id, now).profiles)
    ensures Keyed(CreateUserProfileFixed(users, profiles, c, id, now).profiles)
    ensures Keyed(UpdateUserProfile(users, profiles, u, now).profiles)
    ensures UpdateUserProfile(users, profiles, u, now).profiles.Keys == profiles.Keys
  {
    var p := Build(c, id, now);
    if c.userId !in profiles {
      FiledUnderOwnUser(profiles, p);
      FiledUnderOwnUser(profiles, CheckCompletion(p));
    }
    if u.userId in profiles {
      FiledUnderOwnUser(profiles, UpdateProfile(profiles[u.userId], UpdatesOf(u), now));
    }
  }

  /** Filing a profile under its own user keeps the table keyed. */
  lemma FiledUnderOwnUser(profiles: ProfileStore, p: Profile)
    requires Keyed(profiles)
    ensures Keyed(profiles[p.userId := p])
  {
  }

  /** The reported flag is the completion rule applied to the profile as stored after the update. */
  lemma UpdateReportsStoredCompletion(users: Users.UserStore, profiles: ProfileStore, req: UpdateRequest, now: int)
    requires Users.FindById(users, req.userId).Some? && req.userId in profiles
    ensures var out := UpdateUserProfile(users, profiles, req, now);
      && out.result.Ok? && req.userId in out.profiles
      && (out.result.value.isCompleted <==> IsComplete(out.profiles[req.userId]))
      && out.profiles[req.userId].preferences == profiles[req.userId].preferences
  {
  }

  /** A created profile can be updated at once, and the update keeps the profile's id. */
  lemma CreateThenUpdate(users: Users.UserStore, profiles: ProfileStore, c: CreateRequest, id: string,
                         u: UpdateRequest, t1: int, t2: int)
    requires Users.FindById(users, c.userId).Some? && c.userId !in profiles && u.userId == c.userId
    ensures var created := CreateUserProfile(users, profiles, c, id, t1);
      var updated := UpdateUserProfile(users, created.profiles, u, t2);
      updated.result.Ok? && updated.result.value.profileId == id
  {
  }
}
