/** The legacy user service: users of an organization and the membership
    and training plans embedded in them. Each operation is a function from
    the users collection to its result, and a method that performs it on
    the store. */
module UserService {
  import opened Common
  import opened UserModel
  import opened MongoStore

  const UserNotFound := Err("User not found")

  // -------------------------------------------------------------- lookups

  predicate IsClerkUser(u: User, clerkUserId: string, org: string) {
    u.clerkUserId == Some(clerkUserId) && u.org == org
  }

  /** `findByClerkIdAndOrg`: the first user with that Clerk id in that org. */
  function FindByClerkIdAndOrg(users: seq<User>, clerkUserId: string, org: string): (r: Option<Id>)
    ensures r.None? <==> forall i :: 0 <= i < |users| ==> !IsClerkUser(users[i], clerkUserId, org)
    ensures r.Some? ==> r.value < |users| && IsClerkUser(users[r.value], clerkUserId, org)
                        && forall j :: 0 <= j < r.value ==> !IsClerkUser(users[j], clerkUserId, org)
  {
    FirstWhere(users, (u: User) => IsClerkUser(u, clerkUserId, org))
  }

  /** `getUserById`. */
  function GetUserById(users: seq<User>, id: Id): (r: Result<User>)
    ensures r.Ok? <==> id < |users|
    ensures r.Ok? ==> r.value == users[id]
    ensures r.Fail? ==> r.error == UserNotFound
  {
    if id < |users| then Ok(users[id]) else Fail(UserNotFound)
  }

  /** `getUserByClerkIdAndOrg`: the lookup the role and ownership gates use. */
  function GetUserByClerkIdAndOrg(users: seq<User>, clerkUserId: string, org: string): (r: Result<User>)
    ensures r.Ok? <==> exists i :: 0 <= i < |users| && IsClerkUser(users[i], clerkUserId, org)
    ensures r.Ok? ==> IsClerkUser(r.value, clerkUserId, org) && r.value in users
    ensures r.Fail? ==> r.error == Err("User not found in this organization")
  {
    match FindByClerkIdAndOrg(users, clerkUserId, org)
    case None => Fail(Err("User not found in this organization"))
    case Some(k) => Ok(users[k])
  }

  // --------------------------------------------------------------- create

  /** The fields `createUser` reads from its argument. */
  datatype UserData = UserData(
    clerkUserId: Option<string>,
    org: Option<string>,
    email: Option<string>,
    firstName: Option<string>,
    lastName: Option<string>,
    phone: Option<string>,
    imageUrl: Option<string>,
    role: Option<string>)

  /** The document `createUser` builds from its argument: the role
      defaults to "member". */
  function UserOf(data: UserData, org: string, now: int): (u: User)
    ensures u.org == org && u.clerkUserId == data.clerkUserId && u.email == data.email
    ensures u.role == OrElse(data.role, DefaultRole)
  {
    User(data.clerkUserId, org, data.email, data.firstName, data.lastName, data.phone,
         OrElse(data.role, DefaultRole), data.imageUrl, true, [], [], now)
  }

  /** `createUser` on the users collection: the organization is required,
      a duplicate (Clerk id, organization) is refused only when a Clerk id
      is given, the role must be in the enum, and the unique indexes refuse
      a user that clashes with a stored one. */
  function NewUser(users: seq<User>, data: UserData, now: int): (r: Result<User>)
    ensures !Present(data.org) ==> r == Fail(Err("Organization ID is required"))
    ensures Present(data.org) && Present(data.clerkUserId)
            && FindByClerkIdAndOrg(users, data.clerkUserId.value, data.org.value).Some?
            ==> r == Fail(Err("User already exists in this organization"))
    ensures r.Ok? <==> Present(data.org)
                       && !(Present(data.clerkUserId) && exists i :: 0 <= i < |users| && IsClerkUser(users[i], data.clerkUserId.value, data.org.value))
                       && OrElse(data.role, DefaultRole) in Roles
                       && !Taken(users, UserOf(data, data.org.value, now), -1)
    ensures r == Fail(DuplicateKey) <==>
              (&& Present(data.org)
               && !(Present(data.clerkUserId) && exists i :: 0 <= i < |users| && IsClerkUser(users[i], data.clerkUserId.value, data.org.value))
               && OrElse(data.role, DefaultRole) in Roles
               && Taken(users, UserOf(data, data.org.value, now), -1))
    ensures r.Ok? ==> && r.value.role == OrElse(data.role, DefaultRole)
                      && r.value.org == data.org.value && r.value.clerkUserId == data.clerkUserId
                      && r.value.email == data.email && r.value.firstName == data.firstName
                      && r.value.lastName == data.lastName && r.value.phone == data.phone
                      && r.value.isActive && r.value.membershipPlans == [] && r.value.trainingPlans == []
                      && ValidUser(r.value)
                      && forall k :: 0 <= k < |users| ==> !Clash(users[k], r.value)
  {
    if !Present(data.org) then Fail(Err("Organization ID is required"))
    else if Present(data.clerkUserId) && FindByClerkIdAndOrg(users, data.clerkUserId.value, data.org.value).Some? then
      Fail(Err("User already exists in this organization"))
    else
      var u := UserOf(data, data.org.value, now);
      if u.role !in Roles then Fail(ValidationFailed("User"))
      else if Taken(users, u, -1) then Fail(DuplicateKey)
      else Ok(u)
  }

  /** `createUser` against the indexes as they are declared, where users
      without a Clerk id clash with each other. */
  function NewUserAsWritten(users: seq<User>, data: UserData, now: int): (r: Result<User>)
    ensures r.Ok? ==> NewUser(users, data, now) == r
  {
    if !Present(data.org) then Fail(Err("Organization ID is required"))
    else if Present(data.clerkUserId) && FindByClerkIdAndOrg(users, data.clerkUserId.value, data.org.value).Some? then
      Fail(Err("User already exists in this organization"))
    else
      var u := UserOf(data, data.org.value, now);
      if u.role !in Roles then Fail(ValidationFailed("User"))
      else if exists k :: 0 <= k < |users| && ClashAsWritten(users[k], u) then Fail(DuplicateKey)
      else Ok(u)
  }

  /** As written, a second user without a Clerk id cannot join an
      organization that has one already, whatever its email; with the
      index enforced only on present Clerk ids it is stored. */
  lemma SecondUserWithoutClerkIdAsWritten(now: int)
    ensures var first := UserOf(UserData(None, Some("o"), Some("a@x"), None, None, None, None, None), "o", now);
            var data := UserData(None, Some("o"), Some("b@x"), None, None, None, None, None);
            && NewUserAsWritten([first], data, now) == Fail(DuplicateKey)
            && NewUser([first], data, now).Ok?
  {
    var first := UserOf(UserData(None, Some("o"), Some("a@x"), None, None, None, None, None), "o", now);
    var data := UserData(None, Some("o"), Some("b@x"), None, None, None, None, None);
    assert ClashAsWritten([first][0], UserOf(data, "o", now));
    assert !Clash([first][0], UserOf(data, "o", now));
  }

  /** A user with no embedded plans has distinct plan ids. */
  lemma NoPlansDistinct(u: User)
    requires u.membershipPlans == [] && u.trainingPlans == []
    ensures DistinctEntryIds(u)
  {
  }

  /** `createUser`. */
  method CreateUser(db: Mongo, data: UserData, now: int) returns (r: Result<Id>)
    requires db.Valid()
    modifies db`users
    ensures db.Valid()
    ensures var n := NewUser(old(db.users), data, now);
            && (n.Fail? ==> r == Fail(n.error) && db.users == old(db.users))
            && (n.Ok? ==> r == Ok(|old(db.users)|) && db.users == old(db.users) + [n.value])
  {
    var n := NewUser(db.users, data, now);
    if n.Fail? {
      return Fail(n.error);
    }
    NoPlansDistinct(n.value);
    AppendKeepsUnique(db.users, n.value);
    r := Ok(|db.users|);
    db.users := db.users + [n.value];
  }

  // --------------------------------------------------------------- update

  /** The profile fields an update may carry; `None` is a key that is not
      in the update. */
  datatype UserPatch = UserPatch(
    email: Option<string>,
    firstName: Option<string>,
    lastName: Option<string>,
    phone: Option<string>,
    imageUrl: Option<string>,
    role: Option<string>,
    isActive: Option<bool>)

  predicate PatchEmpty(p: UserPatch) {
    p.email.None? && p.firstName.None? && p.lastName.None? && p.phone.None?
    && p.imageUrl.None? && p.role.None? && p.isActive.None?
  }

  /** The user after the repository's merge of an update, stamped `now`. */
  function ApplyPatch(u: User, p: UserPatch, now: int): (v: User)
    ensures v.membershipPlans == u.membershipPlans && v.trainingPlans == u.trainingPlans
    ensures v.org == u.org && v.clerkUserId == u.clerkUserId && v.updatedAt == now
    ensures v.email == (if p.email.Some? then p.email else u.email)
    ensures v.role == Default(p.role, u.role) && v.isActive == Default(p.isActive, u.isActive)
  {
    u.(email := if p.email.Some? then p.email else u.email,
       firstName := if p.firstName.Some? then p.firstName else u.firstName,
       lastName := if p.lastName.Some? then p.lastName else u.lastName,
       phone := if p.phone.Some? then p.phone else u.phone,
       imageUrl := if p.imageUrl.Some? then p.imageUrl else u.imageUrl,
       role := Default(p.role, u.role),
       isActive := Default(p.isActive, u.isActive),
       updatedAt := now)
  }

  predicate HoldsEmail(u: User, org: string, email: string) {
    u.email == Some(email) && u.org == org
  }

  /** `findOne({ email, clerkOrganizationId })`. */
  function EmailHolder(users: seq<User>, org: string, email: string): (r: Option<Id>)
    ensures r.None? <==> forall i :: 0 <= i < |users| ==> !HoldsEmail(users[i], org, email)
    ensures r.Some? ==> r.value < |users| && HoldsEmail(users[r.value], org, email)
  {
    FirstWhere(users, (u: User) => HoldsEmail(u, org, email))
  }

  const EmailTaken := Err("Email is already taken in this organization")

  /** The email check of `updateUser` as intended: a new truthy email that
      another user of the organization holds is refused. */
  function EmailCheck(users: seq<User>, id: Id, email: Option<string>): (o: Outcome)
    requires id < |users|
    ensures o.Reject? <==> Present(email) && email != users[id].email
                           && exists k :: 0 <= k < |users| && k != id && HoldsEmail(users[k], users[id].org, email.value)
    ensures o.Reject? ==> o.error == EmailTaken
  {
    if Present(email) && email != users[id].email then
      match EmailHolder(users, users[id].org, email.value)
      case Some(k) => if k != id then Reject(EmailTaken) else Pass
      case None => Pass
    else Pass
  }

  /** The `TypeError` of reading `toString` of `undefined`. */
  const UndefinedToString := Err("Cannot read properties of undefined (reading 'toString')")

  /** The email check as written: the holder comes back from `findOne`
      already transformed, with `id` and no `_id`, so `existingUser._id`
      is undefined and calling `toString` on it throws. */
  function EmailCheckAsWritten(users: seq<User>, id: Id, email: Option<string>): (o: Outcome)
    requires id < |users|
    ensures o.Reject? ==> o.error == UndefinedToString
  {
    if Present(email) && email != users[id].email then
      match EmailHolder(users, users[id].org, email.value)
      case Some(k) => Reject(UndefinedToString)
      case None => Pass
    else Pass
  }

  /** As written, a taken email is refused, but never with the message
      that says so. */
  lemma TakenEmailMisreportedAsWritten(users: seq<User>, id: Id, email: Option<string>)
    requires id < |users|
    ensures EmailCheckAsWritten(users, id, email).Reject? <==> EmailCheck(users, id, email).Reject?
    ensures EmailCheckAsWritten(users, id, email) != Reject(EmailTaken)
  {
  }

  /** `updateUser` on the users collection. An update with no keys returns
      null and writes nothing; the role is checked against its enum, and
      the unique indexes refuse a merged user that clashes with another. */
  function UpdatedUser(users: seq<User>, id: Id, p: UserPatch, now: int): (r: Result<Option<User>>)
    ensures id >= |users| ==> r == Fail(UserNotFound)
    ensures id < |users| && EmailCheck(users, id, p.email).Reject? ==> r == Fail(EmailTaken)
    ensures r == Ok(None) <==> id < |users| && EmailCheck(users, id, p.email).Pass? && PatchEmpty(p)
    ensures r.Ok? && r.value.Some? <==> && id < |users| && EmailCheck(users, id, p.email).Pass? && !PatchEmpty(p)
                                        && (p.role.Some? ==> p.role.value in Roles)
                                        && !Taken(users, ApplyPatch(users[id], p, now), id)
    ensures r.Ok? && r.value.Some? ==> r.value.value == ApplyPatch(users[id], p, now)
    ensures r.Ok? && Present(p.email) && p.email != users[id].email ==>
              forall k :: 0 <= k < |users| && k != id && users[k].org == users[id].org ==> users[k].email != p.email
  {
    if id >= |users| then Fail(UserNotFound)
    else match EmailCheck(users, id, p.email)
      case Reject(e) => Fail(e)
      case Pass =>
        if PatchEmpty(p) then Ok(None)
        else if p.role.Some? && p.role.value !in Roles then Fail(ValidationFailed("User"))
        else
          var v := ApplyPatch(users[id], p, now);
          if Taken(users, v, id) then Fail(DuplicateKey) else Ok(Some(v))
  }

  /** Past the email check, an update of a collection without clashes meets
      the index only when it writes an email the check skips as falsy: the
      empty text, which another user of the organization may hold. */
  lemma UpdateDuplicateOnlyForEmptyEmail(users: seq<User>, id: Id, p: UserPatch, now: int)
    requires id < |users| && UniqueUsers(users)
    requires EmailCheck(users, id, p.email).Pass? && Taken(users, ApplyPatch(users[id], p, now), id)
    ensures p.email == Some("") && users[id].email != p.email
  {
    var u, v := users[id], ApplyPatch(users[id], p, now);
    var k :| 0 <= k < |users| && k != id && Clash(users[k], v);
    assert !Clash(users[k], u);
  }

  /** An update keeps a valid user valid: a new role is one of the enum. */
  lemma UpdateKeepsUserValid(users: seq<User>, id: Id, p: UserPatch, now: int)
    requires id < |users| && ValidUser(users[id])
    requires UpdatedUser(users, id, p, now).Ok? && UpdatedUser(users, id, p, now).value.Some?
    ensures ValidUser(UpdatedUser(users, id, p, now).value.value)
  {
  }

  /** `updateUser`. */
  method UpdateUser(db: Mongo, id: Id, p: UserPatch, now: int) returns (r: Result<Option<User>>)
    requires db.Valid()
    modifies db`users
    ensures db.Valid()
    ensures r == UpdatedUser(old(db.users), id, p, now)
    ensures db.users == if r.Ok? && r.value.Some? then old(db.users)[id := r.value.value] else old(db.users)
  {
    r := UpdatedUser(db.users, id, p, now);
    if r.Ok? && r.value.Some? {
      UpdateKeepsUserValid(db.users, id, p, now);
      ReplaceKeepsUnique(db.users, id, r.value.value);
      db.users := db.users[id := r.value.value];
    }
  }

  // --------------------------------------------------------------- delete

  /** `deleteUser`: the repository's soft delete. */
  method DeleteUser(db: Mongo, id: Id, now: int) returns (r: Result<string>)
    requires db.Valid()
    modifies db`users
    ensures db.Valid()
    ensures id >= |old(db.users)| ==> r == Fail(UserNotFound) && db.users == old(db.users)
    ensures id < |old(db.users)| ==>
              && r == Ok("User deleted successfully")
              && db.users == old(db.users)[id := old(db.users)[id].(isActive := false, updatedAt := now)]
  {
    if id >= |db.users| {
      return Fail(UserNotFound);
    }
    SameKeysNotTaken(db.users, id, db.users[id].(isActive := false, updatedAt := now));
    db.users := db.users[id := db.users[id].(isActive := false, updatedAt := now)];
    r := Ok("User deleted successfully");
  }

  // ----------------------------------------------------------------- sync

  /** The fields of a Clerk user the sync reads; `email` and `phone` are
      the first address and the first number, when there are any. */
  datatype ClerkUser = ClerkUser(
    id: string,
    email: Option<string>,
    firstName: Option<string>,
    lastName: Option<string>,
    phone: Option<string>,
    imageUrl: Option<string>)

  /** An existing user after a sync: each field the Clerk data has is
      written, an absent one is left as it was. */
  function Synced(u: User, c: ClerkUser, now: int): (v: User)
    ensures v.clerkUserId == u.clerkUserId && v.org == u.org && v.role == u.role
    ensures v.membershipPlans == u.membershipPlans && v.trainingPlans == u.trainingPlans
  {
    u.(email := if c.email.Some? then c.email else u.email,
       firstName := if c.firstName.Some? then c.firstName else u.firstName,
       lastName := if c.lastName.Some? then c.lastName else u.lastName,
       phone := if c.phone.Some? then c.phone else u.phone,
       imageUrl := if c.imageUrl.Some? then c.imageUrl else u.imageUrl,
       updatedAt := now)
  }

  /** A user created by a sync: role "member". */
  function FromClerk(c: ClerkUser, org: string, now: int): (v: User)
    ensures IsClerkUser(v, c.id, org) && v.role == DefaultRole && ValidUser(v) && DistinctEntryIds(v)
  {
    User(Some(c.id), org, c.email, c.firstName, c.lastName, c.phone, DefaultRole, c.imageUrl, true, [], [], now)
  }

  /** `syncUserFromClerk`: update the user with that Clerk id in the
      organization, or create one; afterwards the lookup finds it. The
      write is refused with a duplicate key when the Clerk email is held by
      another user of the organization. */
  method SyncUserFromClerk(db: Mongo, c: ClerkUser, org: Option<string>, now: int) returns (r: Result<Id>)
    requires db.Valid()
    modifies db`users
    ensures db.Valid()
    ensures !Present(org) ==> r == Fail(Err("Organization ID is required for user sync")) && db.users == old(db.users)
    ensures Present(org) ==>
              match FindByClerkIdAndOrg(old(db.users), c.id, org.value)
              case Some(k) =>
                if Taken(old(db.users), Synced(old(db.users)[k], c, now), k)
                then r == Fail(DuplicateKey) && db.users == old(db.users)
                else r == Ok(k) && db.users == old(db.users)[k := Synced(old(db.users)[k], c, now)]
              case None =>
                if Taken(old(db.users), FromClerk(c, org.value, now), -1)
                then r == Fail(DuplicateKey) && db.users == old(db.users)
                else r == Ok(|old(db.users)|) && db.users == old(db.users) + [FromClerk(c, org.value, now)]
    ensures Present(org) && r.Ok? ==> FindByClerkIdAndOrg(db.users, c.id, org.value) == Some(r.value)
  {
    if !Present(org) {
      return Fail(Err("Organization ID is required for user sync"));
    }
    var existing := FindByClerkIdAndOrg(db.users, c.id, org.value);
    if existing.Some? {
      var k := existing.value;
      var v := Synced(db.users[k], c, now);
      if Taken(db.users, v, k) {
        return Fail(DuplicateKey);
      }
      FoundAfterReplace(db.users, k, v, c.id, org.value);
      ReplaceKeepsUnique(db.users, k, v);
      db.users := db.users[k := v];
      r := Ok(k);
    } else {
      var v := FromClerk(c, org.value, now);
      if Taken(db.users, v, -1) {
        return Fail(DuplicateKey);
      }
      FoundAfterAppend(db.users, v, c.id, org.value);
      AppendKeepsUnique(db.users, v);
      r := Ok(|db.users|);
      db.users := db.users + [v];
    }
  }

  /** A sync is refused only for the email: the Clerk id it writes is held
      by no other user of the organization. */
  lemma SyncClashIsEmail(users: seq<User>, c: ClerkUser, org: string, now: int)
    requires UniqueUsers(users)
    ensures match FindByClerkIdAndOrg(users, c.id, org)
            case Some(k) => Taken(users, Synced(users[k], c, now), k) ==>
                              c.email.Some? && exists j :: 0 <= j < |users| && j != k && HoldsEmail(users[j], org, c.email.value)
            case None => Taken(users, FromClerk(c, org, now), -1) ==>
                              exists j :: 0 <= j < |users| && users[j].org == org && users[j].email == c.email
  {
    match FindByClerkIdAndOrg(users, c.id, org)
    case Some(k) =>
      var v := Synced(users[k], c, now);
      if Taken(users, v, k) {
        var j :| 0 <= j < |users| && j != k && Clash(users[j], v);
        assert !Clash(users[j], users[k]);
        assert users[k].org == org;
        assert HoldsEmail(users[j], org, c.email.value);
      }
    case None =>
      var v := FromClerk(c, org, now);
      if Taken(users, v, -1) {
        var j :| 0 <= j < |users| && j != -1 && Clash(users[j], v);
        assert !IsClerkUser(users[j], c.id, org);
      }
  }

  /** Overwriting the first match with another match keeps it the first. */
  lemma FoundAfterReplace(users: seq<User>, k: Id, u: User, clerkUserId: string, org: string)
    requires FindByClerkIdAndOrg(users, clerkUserId, org) == Some(k) && IsClerkUser(u, clerkUserId, org)
    ensures FindByClerkIdAndOrg(users[k := u], clerkUserId, org) == Some(k)
  {
    assert IsClerkUser(users[k := u][k], clerkUserId, org);
  }

  /** Appending a match when there was none makes it the first. */
  lemma FoundAfterAppend(users: seq<User>, u: User, clerkUserId: string, org: string)
    requires FindByClerkIdAndOrg(users, clerkUserId, org).None? && IsClerkUser(u, clerkUserId, org)
    ensures FindByClerkIdAndOrg(users + [u], clerkUserId, org) == Some(|users|)
  {
    assert IsClerkUser((users + [u])[|users|], clerkUserId, org);
  }

  // ----------------------------------------------------- membership plans

  /** The membership fields a request adds; the missing required ones
      (plan, name, dates) make the schema refuse it. */
  datatype MembershipInput = MembershipInput(
    planId: Option<Id>,
    planName: Option<string>,
    startDate: Option<int>,
    endDate: Option<int>,
    status: Option<string>,
    amountPaid: Option<int>,
    paymentReference: Option<string>)

  /** The embedded document the input becomes, with its generated id and
      the default status; `None` when a required path is missing. */
  function MembershipEntryOf(d: MembershipInput, entryId: Id): (r: Option<MembershipEntry>)
    ensures r.Some? <==> d.planId.Some? && Present(d.planName) && d.startDate.Some? && d.endDate.Some?
    ensures r.Some? ==> r.value.id == entryId && r.value.status == Default(d.status, DefaultStatus)
                        && r.value.startDate == d.startDate.value && r.value.endDate == d.endDate.value
  {
    if d.planId.Some? && Present(d.planName) && d.startDate.Some? && d.endDate.Some? then
      Some(MembershipEntry(entryId, d.planId.value, d.planName.value, d.startDate.value, d.endDate.value,
                           Default(d.status, DefaultStatus), d.amountPaid, d.paymentReference))
    else None
  }

  /** Some plan of the user is "active" and covers `now`. */
  predicate HasActiveMembership(plans: seq<MembershipEntry>, now: int) {
    ActiveMembership(plans, now).Some?
  }

  /** The overlap guard as written: it fires only when the request says
      `status: 'active'` explicitly. */
  predicate OverlapGuardAsWritten(plans: seq<MembershipEntry>, status: Option<string>, now: int) {
    HasActiveMembership(plans, now) && status == Some("active")
  }

  /** The overlap guard as intended: it fires whenever the new plan will be
      stored as "active", including when the status is left to default. */
  predicate OverlapGuard(plans: seq<MembershipEntry>, status: Option<string>, now: int) {
    HasActiveMembership(plans, now) && Default(status, DefaultStatus) == "active"
  }

  const AlreadyActive := Err("User already has an active membership")

  /** `addMembershipPlan` on the users collection (with the intended
      guard): the new plan goes at the end, the earlier ones are kept. */
  function AddedMembership(users: seq<User>, id: Id, d: MembershipInput, entryId: Id, now: int): (r: Result<User>)
    ensures id >= |users| ==> r == Fail(UserNotFound)
    ensures id < |users| && OverlapGuard(users[id].membershipPlans, d.status, now) ==> r == Fail(AlreadyActive)
    ensures r.Ok? <==> && id < |users| && !OverlapGuard(users[id].membershipPlans, d.status, now)
                       && MembershipEntryOf(d, entryId).Some? && ValidMembershipEntry(MembershipEntryOf(d, entryId).value)
    ensures r.Ok? ==> r.value == users[id].(membershipPlans := users[id].membershipPlans + [MembershipEntryOf(d, entryId).value],
                                            updatedAt := now)
  {
    if id >= |users| then Fail(UserNotFound)
    else if OverlapGuard(users[id].membershipPlans, d.status, now) then Fail(AlreadyActive)
    else match MembershipEntryOf(d, entryId)
      case None => Fail(ValidationFailed("User"))
      case Some(e) =>
        if !ValidMembershipEntry(e) then Fail(ValidationFailed("User"))
        else Ok(users[id].(membershipPlans := users[id].membershipPlans + [e], updatedAt := now))
  }

  /** How many plans are "active" and cover `now`. */
  function CoverCount(plans: seq<MembershipEntry>, now: int): nat {
    if plans == [] then 0
    else (if Covers(plans[0], now) then 1 else 0) + CoverCount(plans[1..], now)
  }

  lemma {:induction false} CoverCountAppend(plans: seq<MembershipEntry>, e: MembershipEntry, now: int)
    ensures CoverCount(plans + [e], now) == CoverCount(plans, now) + (if Covers(e, now) then 1 else 0)
  {
    if plans == [] {
      assert plans + [e] == [e];
    } else {
      assert (plans + [e])[1..] == plans[1..] + [e];
      CoverCountAppend(plans[1..], e, now);
    }
  }

  /** No plan covers `now` exactly when the virtual finds none. */
  lemma {:induction false} CoverCountZero(plans: seq<MembershipEntry>, now: int)
    ensures CoverCount(plans, now) == 0 <==> !HasActiveMembership(plans, now)
  {
    if plans != [] {
      CoverCountZero(plans[1..], now);
      assert forall i :: 1 <= i < |plans| ==> plans[i] == plans[1..][i - 1];
      if !Covers(plans[0], now) && HasActiveMembership(plans[1..], now) {
        var i :| 0 <= i < |plans[1..]| && Covers(plans[1..][i], now);
        assert Covers(plans[i + 1], now);
      }
    }
  }

  /** With the intended guard, adding a plan never leaves a user with two
      plans that cover `now`. The guard looks at `now` only, so this is no
      bound on later instants (`LaterOverlapNotGuarded`). */
  lemma AddNeverStacksActivePlans(users: seq<User>, id: Id, d: MembershipInput, entryId: Id, now: int)
    requires id < |users| && CoverCount(users[id].membershipPlans, now) <= 1
    requires AddedMembership(users, id, d, entryId, now).Ok?
    ensures CoverCount(AddedMembership(users, id, d, entryId, now).value.membershipPlans, now) <= 1
  {
    var plans := users[id].membershipPlans;
    var e := MembershipEntryOf(d, entryId).value;
    CoverCountAppend(plans, e, now);
    if Covers(e, now) {
      CoverCountZero(plans, now);
    }
  }

  /** The guard, as written and as intended, only asks whether a plan
      covers `now`: with a booked plan that starts later, an overlapping
      plan is still added, and both then cover a later instant. */
  lemma LaterOverlapNotGuarded()
    ensures var booked := MembershipEntry(1, 7, "Monthly", 10, 20, "active", None, None);
            var d := MembershipInput(Some(8), Some("Monthly"), Some(15), Some(30), None, None, None);
            var e := MembershipEntryOf(d, 2).value;
            && !OverlapGuard([booked], d.status, 5)
            && !OverlapGuardAsWritten([booked], d.status, 5)
            && ValidMembershipEntry(e)
            && CoverCount([booked] + [e], 15) == 2
  {
    var booked := MembershipEntry(1, 7, "Monthly", 10, 20, "active", None, None);
    var d := MembershipInput(Some(8), Some("Monthly"), Some(15), Some(30), None, None, None);
    var e := MembershipEntryOf(d, 2).value;
    assert !Covers(booked, 5);
    assert !HasActiveMembership([booked], 5);
    assert [booked] + [e] == [booked, e];
    assert CoverCount([e], 15) == 1;
  }

  /** As written, a user whose current plan covers `now` can be given a
      second covering plan by leaving its status out. */
  lemma StackedPlansAsWritten()
    ensures var current := MembershipEntry(1, 7, "Monthly", 0, 10, "active", None, None);
            var d := MembershipInput(Some(8), Some("Monthly"), Some(0), Some(20), None, None, None);
            var e := MembershipEntryOf(d, 2).value;
            && !OverlapGuardAsWritten([current], d.status, 5)
            && ValidMembershipEntry(e)
            && CoverCount([current] + [e], 5) == 2
            && OverlapGuard([current], d.status, 5)
  {
    var current := MembershipEntry(1, 7, "Monthly", 0, 10, "active", None, None);
    var d := MembershipInput(Some(8), Some("Monthly"), Some(0), Some(20), None, None, None);
    var e := MembershipEntryOf(d, 2).value;
    assert ActiveMembership([current], 5) == Some(current);
    CoverCountAppend([current], e, 5);
  }

  /** `addMembershipPlan`; `entryId` is the id Mongoose generates for the
      new embedded document. */
  method AddMembershipPlan(db: Mongo, id: Id, d: MembershipInput, entryId: Id, now: int) returns (r: Result<User>)
    requires db.Valid()
    requires id < |db.users| ==> forall i :: 0 <= i < |db.users[id].membershipPlans| ==> db.users[id].membershipPlans[i].id != entryId
    modifies db`users
    ensures db.Valid()
    ensures r == AddedMembership(old(db.users), id, d, entryId, now)
    ensures db.users == if r.Ok? then old(db.users)[id := r.value] else old(db.users)
  {
    r := AddedMembership(db.users, id, d, entryId, now);
    if r.Ok? {
      var plans := db.users[id].membershipPlans;
      assert r.value.membershipPlans == plans + [MembershipEntryOf(d, entryId).value];
      assert DistinctKeys(r.value.membershipPlans, MembershipKey);
      SameKeysNotTaken(db.users, id, r.value);
      db.users := db.users[id := r.value];
    }
  }

  /** The fields an update of an embedded membership plan may carry. */
  datatype MembershipPatch = MembershipPatch(
    planId: Option<Id>,
    planName: Option<string>,
    startDate: Option<int>,
    endDate: Option<int>,
    status: Option<string>,
    amountPaid: Option<int>,
    paymentReference: Option<string>)

  /** `{ ...plan, ...updateData }`: supplied fields win, the id is kept. */
  function MergeMembership(e: MembershipEntry, p: MembershipPatch): (m: MembershipEntry)
    ensures m.id == e.id
  {
    MembershipEntry(e.id, Default(p.planId, e.planId), Default(p.planName, e.planName),
                    Default(p.startDate, e.startDate), Default(p.endDate, e.endDate),
                    Default(p.status, e.status), if p.amountPaid.Some? then p.amountPaid else e.amountPaid,
                    if p.paymentReference.Some? then p.paymentReference else e.paymentReference)
  }

  /** `findIndex` of the embedded membership plan with that id. */
  function MembershipIndex(plans: seq<MembershipEntry>, entryId: Id): (r: Option<nat>)
    ensures r.None? <==> forall i :: 0 <= i < |plans| ==> plans[i].id != entryId
    ensures r.Some? ==> r.value < |plans| && plans[r.value].id == entryId
  {
    FirstWhere(plans, (e: MembershipEntry) => e.id == entryId)
  }

  const MembershipPlanNotFound := Err("Membership plan not found")

  /** `updateMembershipPlan` on the users collection: only the matching
      element changes, and the number of plans stays the same. */
  function UpdatedMembership(users: seq<User>, id: Id, entryId: Id, p: MembershipPatch, now: int): (r: Result<User>)
    ensures id >= |users| ==> r == Fail(UserNotFound)
    ensures id < |users| && MembershipIndex(users[id].membershipPlans, entryId).None? ==> r == Fail(MembershipPlanNotFound)
    ensures r.Ok? ==>
              var old_ := users[id].membershipPlans;
              var k := MembershipIndex(old_, entryId).value;
              && |r.value.membershipPlans| == |old_|
              && r.value.membershipPlans[k] == MergeMembership(old_[k], p)
              && ValidMembershipEntry(r.value.membershipPlans[k])
              && (forall i :: 0 <= i < |old_| && i != k ==> r.value.membershipPlans[i] == old_[i])
              && r.value == users[id].(membershipPlans := r.value.membershipPlans, updatedAt := now)
  {
    if id >= |users| then Fail(UserNotFound)
    else match MembershipIndex(users[id].membershipPlans, entryId)
      case None => Fail(MembershipPlanNotFound)
      case Some(k) =>
        var m := MergeMembership(users[id].membershipPlans[k], p);
        if !ValidMembershipEntry(m) then Fail(ValidationFailed("User"))
        else Ok(users[id].(membershipPlans := users[id].membershipPlans[k := m], updatedAt := now))
  }

  /** Replacing an element by one with the same key keeps keys distinct. */
  lemma SameKeyKeepsDistinct<T>(s: seq<T>, k: nat, x: T, key: T -> nat)
    requires k < |s| && DistinctKeys(s, key) && key(x) == key(s[k])
    ensures DistinctKeys(s[k := x], key)
  {
    assert forall i :: 0 <= i < |s| ==> key(s[k := x][i]) == key(s[i]);
  }

  /** Since plan ids are distinct, an update touches exactly the plan with
      that id. */
  lemma UpdateTouchesOnlyThatPlan(users: seq<User>, id: Id, entryId: Id, p: MembershipPatch, now: int)
    requires id < |users| && DistinctEntryIds(users[id])
    requires UpdatedMembership(users, id, entryId, p, now).Ok?
    ensures var before := users[id].membershipPlans;
            var after := UpdatedMembership(users, id, entryId, p, now).value.membershipPlans;
            forall i :: 0 <= i < |before| ==>
              after[i] == if before[i].id == entryId then MergeMembership(before[i], p) else before[i]
  {
    var before := users[id].membershipPlans;
    var k := MembershipIndex(before, entryId).value;
    assert forall i :: 0 <= i < |before| && before[i].id == entryId ==> i == k;
  }

  /** `updateMembershipPlan`. */
  method UpdateMembershipPlan(db: Mongo, id: Id, entryId: Id, p: MembershipPatch, now: int) returns (r: Result<User>)
    requires db.Valid()
    modifies db`users
    ensures db.Valid()
    ensures r == UpdatedMembership(old(db.users), id, entryId, p, now)
    ensures db.users == if r.Ok? then old(db.users)[id := r.value] else old(db.users)
  {
    r := UpdatedMembership(db.users, id, entryId, p, now);
    if r.Ok? {
      var plans := db.users[id].membershipPlans;
      var k := MembershipIndex(plans, entryId).value;
      assert r.value.membershipPlans == plans[k := r.value.membershipPlans[k]];
      SameKeyKeepsDistinct(plans, k, r.value.membershipPlans[k], MembershipKey);
      SameKeysNotTaken(db.users, id, r.value);
      db.users := db.users[id := r.value];
    }
  }

  /** `removeMembershipPlan` on the users collection: every plan with that
      id goes and every other plan stays; no match is an error. */
  function RemovedMembership(users: seq<User>, id: Id, entryId: Id, now: int): (r: Result<User>)
    ensures id >= |users| ==> r == Fail(UserNotFound)
    ensures r.Ok? <==> id < |users| && exists i :: 0 <= i < |users[id].membershipPlans| && users[id].membershipPlans[i].id == entryId
    ensures r.Fail? && id < |users| ==> r == Fail(MembershipPlanNotFound)
    ensures r.Ok? ==> && (forall e :: e in r.value.membershipPlans <==> e in users[id].membershipPlans && e.id != entryId)
                      && r.value == users[id].(membershipPlans := r.value.membershipPlans, updatedAt := now)
  {
    if id >= |users| then Fail(UserNotFound)
    else
      var kept := Filter(users[id].membershipPlans, (e: MembershipEntry) => e.id != entryId);
      if |kept| == |users[id].membershipPlans| then Fail(MembershipPlanNotFound)
      else Ok(users[id].(membershipPlans := kept, updatedAt := now))
  }

  /** `removeMembershipPlan`. */
  method RemoveMembershipPlan(db: Mongo, id: Id, entryId: Id, now: int) returns (r: Result<User>)
    requires db.Valid()
    modifies db`users
    ensures db.Valid()
    ensures r == RemovedMembership(old(db.users), id, entryId, now)
    ensures db.users == if r.Ok? then old(db.users)[id := r.value] else old(db.users)
  {
    r := RemovedMembership(db.users, id, entryId, now);
    if r.Ok? {
      FilterDistinct(db.users[id].membershipPlans, (e: MembershipEntry) => e.id != entryId, MembershipKey);
      SameKeysNotTaken(db.users, id, r.value);
      db.users := db.users[id := r.value];
    }
  }

  // ------------------------------------------------------- training plans

  /** The training fields a request adds; name and start date are required. */
  datatype TrainingInput = TrainingInput(
    planId: Option<Id>,
    planName: Option<string>,
    trainerId: Option<Id>,
    trainerName: Option<string>,
    startDate: Option<int>,
    endDate: Option<int>,
    status: Option<string>,
    sessionsPerWeek: Option<int>,
    notes: Option<string>)

  function TrainingEntryOf(d: TrainingInput, entryId: Id): (r: Option<TrainingEntry>)
    ensures r.Some? <==> Present(d.planName) && d.startDate.Some?
    ensures r.Some? ==> r.value.id == entryId && r.value.status == Default(d.status, DefaultStatus)
  {
    if Present(d.planName) && d.startDate.Some? then
      Some(TrainingEntry(entryId, d.planId, d.planName.value, d.trainerId, d.trainerName, d.startDate.value,
                         d.endDate, Default(d.status, DefaultStatus), d.sessionsPerWeek, d.notes))
    else None
  }

  /** `addTrainingPlan` on the users collection: no overlap check; the
      plan goes at the end. */
  function AddedTraining(users: seq<User>, id: Id, d: TrainingInput, entryId: Id, now: int): (r: Result<User>)
    ensures id >= |users| ==> r == Fail(UserNotFound)
    ensures r.Ok? <==> id < |users| && TrainingEntryOf(d, entryId).Some? && ValidTrainingEntry(TrainingEntryOf(d, entryId).value)
    ensures r.Ok? ==> r.value == users[id].(trainingPlans := users[id].trainingPlans + [TrainingEntryOf(d, entryId).value],
                                            updatedAt := now)
  {
    if id >= |users| then Fail(UserNotFound)
    else match TrainingEntryOf(d, entryId)
      case None => Fail(ValidationFailed("User"))
      case Some(e) =>
        if !ValidTrainingEntry(e) then Fail(ValidationFailed("User"))
        else Ok(users[id].(trainingPlans := users[id].trainingPlans + [e], updatedAt := now))
  }

  /** An added active training plan shows up last among the active ones. */
  lemma AddedTrainingIsActiveLast(users: seq<User>, id: Id, d: TrainingInput, entryId: Id, now: int)
    requires AddedTraining(users, id, d, entryId, now).Ok?
    ensures var e := TrainingEntryOf(d, entryId).value;
            ActiveTrainingPlans(AddedTraining(users, id, d, entryId, now).value.trainingPlans)
            == ActiveTrainingPlans(users[id].trainingPlans) + (if e.status == "active" then [e] else [])
  {
    var e := TrainingEntryOf(d, entryId).value;
    ActiveTrainingPlansAppend(users[id].trainingPlans, [e]);
    assert [e][1..] == [];
  }

  /** `addTrainingPlan`. */
  method AddTrainingPlan(db: Mongo, id: Id, d: TrainingInput, entryId: Id, now: int) returns (r: Result<User>)
    requires db.Valid()
    requires id < |db.users| ==> forall i :: 0 <= i < |db.users[id].trainingPlans| ==> db.users[id].trainingPlans[i].id != entryId
    modifies db`users
    ensures db.Valid()
    ensures r == AddedTraining(old(db.users), id, d, entryId, now)
    ensures db.users == if r.Ok? then old(db.users)[id := r.value] else old(db.users)
  {
    r := AddedTraining(db.users, id, d, entryId, now);
    if r.Ok? {
      var plans := db.users[id].trainingPlans;
      assert r.value.trainingPlans == plans + [TrainingEntryOf(d, entryId).value];
      assert DistinctKeys(r.value.trainingPlans, TrainingKey);
      SameKeysNotTaken(db.users, id, r.value);
      db.users := db.users[id := r.value];
    }
  }

  datatype TrainingPatch = TrainingPatch(
    planId: Option<Id>,
    planName: Option<string>,
    trainerId: Option<Id>,
    trainerName: Option<string>,
    startDate: Option<int>,
    endDate: Option<int>,
    status: Option<string>,
    sessionsPerWeek: Option<int>,
    notes: Option<string>)

  function MergeTraining(e: TrainingEntry, p: TrainingPatch): (m: TrainingEntry)
    ensures m.id == e.id
  {
    TrainingEntry(e.id, if p.planId.Some? then p.planId else e.planId, Default(p.planName, e.planName),
                  if p.trainerId.Some? then p.trainerId else e.trainerId,
                  if p.trainerName.Some? then p.trainerName else e.trainerName,
                  Default(p.startDate, e.startDate), if p.endDate.Some? then p.endDate else e.endDate,
                  Default(p.status, e.status), if p.sessionsPerWeek.Some? then p.sessionsPerWeek else e.sessionsPerWeek,
                  if p.notes.Some? then p.notes else e.notes)
  }

  function TrainingIndex(plans: seq<TrainingEntry>, entryId: Id): (r: Option<nat>)
    ensures r.None? <==> forall i :: 0 <= i < |plans| ==> plans[i].id != entryId
    ensures r.Some? ==> r.value < |plans| && plans[r.value].id == entryId
  {
    FirstWhere(plans, (e: TrainingEntry) => e.id == entryId)
  }

  const TrainingPlanNotFound := Err("Training plan not found")

  /** `updateTrainingPlan` on the users collection. */
  function UpdatedTraining(users: seq<User>, id: Id, entryId: Id, p: TrainingPatch, now: int): (r: Result<User>)
    ensures id >= |users| ==> r == Fail(UserNotFound)
    ensures id < |users| && TrainingIndex(users[id].trainingPlans, entryId).None? ==> r == Fail(TrainingPlanNotFound)
    ensures r.Ok? ==>
              var old_ := users[id].trainingPlans;
              var k := TrainingIndex(old_, entryId).value;
              && |r.value.trainingPlans| == |old_|
              && r.value.trainingPlans[k] == MergeTraining(old_[k], p)
              && ValidTrainingEntry(r.value.trainingPlans[k])
              && (forall i :: 0 <= i < |old_| && i != k ==> r.value.trainingPlans[i] == old_[i])
              && r.value == users[id].(trainingPlans := r.value.trainingPlans, updatedAt := now)
  {
    if id >= |users| then Fail(UserNotFound)
    else match TrainingIndex(users[id].trainingPlans, entryId)
      case None => Fail(TrainingPlanNotFound)
      case Some(k) =>
        var m := MergeTraining(users[id].trainingPlans[k], p);
        if !ValidTrainingEntry(m) then Fail(ValidationFailed("User"))
        else Ok(users[id].(trainingPlans := users[id].trainingPlans[k := m], updatedAt := now))
  }

  /** `updateTrainingPlan`. */
  method UpdateTrainingPlan(db: Mongo, id: Id, entryId: Id, p: TrainingPatch, now: int) returns (r: Result<User>)
    requires db.Valid()
    modifies db`users
    ensures db.Valid()
    ensures r == UpdatedTraining(old(db.users), id, entryId, p, now)
    ensures db.users == if r.Ok? then old(db.users)[id := r.value] else old(db.users)
  {
    r := UpdatedTraining(db.users, id, entryId, p, now);
    if r.Ok? {
      var plans := db.users[id].trainingPlans;
      var k := TrainingIndex(plans, entryId).value;
      assert r.value.trainingPlans == plans[k := r.value.trainingPlans[k]];
      SameKeyKeepsDistinct(plans, k, r.value.trainingPlans[k], TrainingKey);
      SameKeysNotTaken(db.users, id, r.value);
      db.users := db.users[id := r.value];
    }
  }

  /** `removeTrainingPlan` on the users collection. */
  function RemovedTraining(users: seq<User>, id: Id, entryId: Id, now: int): (r: Result<User>)
    ensures id >= |users| ==> r == Fail(UserNotFound)
    ensures r.Ok? <==> id < |users| && exists i :: 0 <= i < |users[id].trainingPlans| && users[id].trainingPlans[i].id == entryId
    ensures r.Fail? && id < |users| ==> r == Fail(TrainingPlanNotFound)
    ensures r.Ok? ==> && (forall e :: e in r.value.trainingPlans <==> e in users[id].trainingPlans && e.id != entryId)
                      && r.value == users[id].(trainingPlans := r.value.trainingPlans, updatedAt := now)
  {
    if id >= |users| then Fail(UserNotFound)
    else
      var kept := Filter(users[id].trainingPlans, (e: TrainingEntry) => e.id != entryId);
      if |kept| == |users[id].trainingPlans| then Fail(TrainingPlanNotFound)
      else Ok(users[id].(trainingPlans := kept, updatedAt := now))
  }

  /** `removeTrainingPlan`. */
  method RemoveTrainingPlan(db: Mongo, id: Id, entryId: Id, now: int) returns (r: Result<User>)
    requires db.Valid()
    modifies db`users
    ensures db.Valid()
    ensures r == RemovedTraining(old(db.users), id, entryId, now)
    ensures db.users == if r.Ok? then old(db.users)[id := r.value] else old(db.users)
  {
    r := RemovedTraining(db.users, id, entryId, now);
    if r.Ok? {
      FilterDistinct(db.users[id].trainingPlans, (e: TrainingEntry) => e.id != entryId, TrainingKey);
      SameKeysNotTaken(db.users, id, r.value);
      db.users := db.users[id := r.value];
    }
  }
}
