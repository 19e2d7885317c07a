/** Members of a gym organization. Creating the first member of an
    organization the store does not know yet also creates the organization
    record; a member is unique per (Clerk user, organization) when linked to
    a Clerk user; deleting a member only deactivates it. */
module MemberService {
  import opened Common
  import opened GymStore
  import PrismaDelegate

  const MemberNotFound := Err("Member not found")
  const OrgRequired := Err("Organization ID is required")
  const AlreadyMember := Err("Member already exists in this organization")
  const EmailTaken := Err("Email is already taken in this organization")

  /** `getMemberById`. */
  function GetMemberById(members: seq<Member>, id: Id): (r: Result<Member>)
    ensures r.Ok? <==> id < |members|
    ensures r.Ok? ==> r.value == members[id]
    ensures r.Fail? ==> r.error == MemberNotFound
  {
    if id < |members| then Ok(members[id]) else Fail(MemberNotFound)
  }

  predicate LinkedIn(m: Member, clerkUserId: string, org: string) {
    m.clerkUserId == Some(clerkUserId) && m.orgId == org
  }

  /** `findByClerkIdAndOrg`: the first member of the organization linked to
      the Clerk user, active or not. */
  function FindByClerkIdAndOrg(members: seq<Member>, clerkUserId: string, org: string): (r: Option<Id>)
    ensures r.None? <==> forall i :: 0 <= i < |members| ==> !LinkedIn(members[i], clerkUserId, org)
    ensures r.Some? ==> r.value < |members| && LinkedIn(members[r.value], clerkUserId, org)
  {
    FirstWhere(members, (m: Member) => LinkedIn(m, clerkUserId, org))
  }

  /** What the duplicate check keeps: no two members of an organization are
      linked to the same Clerk user. */
  predicate UniqueClerkLinks(members: seq<Member>) {
    forall i, j :: 0 <= i < j < |members| && members[i].clerkUserId.Some? ==>
      !LinkedIn(members[j], members[i].clerkUserId.value, members[i].orgId)
  }

  /** The fields `createMember` reads; a date given is a timestamp. */
  datatype MemberData = MemberData(
    orgId: Option<string>,
    orgSlug: Option<string>,
    ownerUserId: Option<string>,
    clerkUserId: Option<string>,
    firstName: Option<string>,
    lastName: Option<string>,
    email: Option<string>,
    phone: Option<string>,
    dateOfBirth: Option<int>,
    gender: Option<string>,
    joinDate: Option<int>,
    notes: Option<string>,
    isActive: Option<bool>)

  /** The organization record created for an organization id the store
      does not know: named by its slug, or after its id. */
  function NewOrganization(org: string, d: MemberData): (o: Organization)
    ensures Present(d.orgSlug) ==> o.name == d.orgSlug.value
    ensures !Present(d.orgSlug) ==> o.name == "Organization " + org
    ensures o.ownerUserId == d.ownerUserId
  {
    Organization(OrElse(d.orgSlug, "Organization " + org), d.ownerUserId)
  }

  /** The organizations after the lookup of `createMember`: an unknown id
      gets its record, a known one is left as it is. */
  function EnsuredOrgs(orgs: map<string, Organization>, org: string, d: MemberData): (r: map<string, Organization>)
    ensures org in r && r.Keys == orgs.Keys + {org}
    ensures org in orgs ==> r == orgs
    ensures org !in orgs ==> r[org] == NewOrganization(org, d)
  {
    if org in orgs then orgs else orgs[org := NewOrganization(org, d)]
  }

  /** The row `createMember` writes, or why it refuses. The organization is
      required; a Clerk user already a member of it is refused, but only
      when one is given. Absent fields take their defaults, dates default
      to now. */
  function NewMember(members: seq<Member>, d: MemberData, now: int): (r: Result<Member>)
    ensures !Present(d.orgId) ==> r == Fail(OrgRequired)
    ensures Present(d.orgId) ==>
              (r.Fail? <==> Present(d.clerkUserId) && FindByClerkIdAndOrg(members, d.clerkUserId.value, d.orgId.value).Some?)
    ensures Present(d.orgId) && r.Fail? ==> r.error == AlreadyMember
    ensures r.Ok? ==> && r.value.orgId == d.orgId.value
                      && r.value.clerkUserId == OrNull(d.clerkUserId)
                      && r.value.phone == OrElse(d.phone, "")
                      && r.value.gender == OrElse(d.gender, "Not specified")
                      && r.value.dateOfBirth == Default(d.dateOfBirth, now)
                      && r.value.joinDate == Default(d.joinDate, now)
                      && r.value.notes == OrNull(d.notes)
                      && r.value.isActive == Default(d.isActive, true)
                      && r.value.firstName == d.firstName && r.value.lastName == d.lastName
                      && r.value.email == d.email
  {
    if !Present(d.orgId) then Fail(OrgRequired)
    else if Present(d.clerkUserId) && FindByClerkIdAndOrg(members, d.clerkUserId.value, d.orgId.value).Some? then
      Fail(AlreadyMember)
    else
      Ok(Member(d.orgId.value, OrNull(d.clerkUserId), d.firstName, d.lastName, d.email,
                OrElse(d.phone, ""), Default(d.dateOfBirth, now), OrElse(d.gender, "Not specified"),
                Default(d.joinDate, now), OrNull(d.notes), Default(d.isActive, true)))
  }

  /** A created member keeps the Clerk links unique, and is the member the
      duplicate check then finds for its Clerk user. */
  lemma CreateKeepsClerkLinksUnique(members: seq<Member>, d: MemberData, now: int)
    requires UniqueClerkLinks(members)
    requires NewMember(members, d, now).Ok?
    ensures var m := NewMember(members, d, now).value;
            && UniqueClerkLinks(members + [m])
            && (m.clerkUserId.Some? ==> FindByClerkIdAndOrg(members + [m], m.clerkUserId.value, m.orgId) == Some(|members|))
  {
    var m := NewMember(members, d, now).value;
    var after := members + [m];
    assert forall i :: 0 <= i < |members| ==> after[i] == members[i];
    if m.clerkUserId.Some? {
      assert LinkedIn(after[|members|], m.clerkUserId.value, m.orgId);
      assert forall i :: 0 <= i < |members| ==> !LinkedIn(members[i], m.clerkUserId.value, m.orgId);
    }
  }

  /** `createMember`. The organization record is written before the
      duplicate check, so a refused member still leaves it created. */
  method CreateMember(db: Db, d: MemberData, now: int) returns (r: Result<Id>)
    requires UniqueClerkLinks(db.members)
    modifies db`orgs, db`members
    ensures UniqueClerkLinks(db.members)
    ensures !Present(d.orgId) ==> r == Fail(OrgRequired) && db.orgs == old(db.orgs) && db.members == old(db.members)
    ensures Present(d.orgId) ==> db.orgs == EnsuredOrgs(old(db.orgs), d.orgId.value, d)
    ensures Present(d.orgId) ==>
              match NewMember(old(db.members), d, now)
              case Fail(e) => r == Fail(e) && db.members == old(db.members)
              case Ok(m) => r == Ok(|old(db.members)|) && db.members == old(db.members) + [m]
  {
    if !Present(d.orgId) {
      return Fail(OrgRequired);
    }
    var org := d.orgId.value;
    if org !in db.orgs {
      db.orgs := db.orgs[org := NewOrganization(org, d)];
    }
    var n := NewMember(db.members, d, now);
    if n.Fail? {
      return Fail(n.error);
    }
    CreateKeepsClerkLinksUnique(db.members, d, now);
    r := Ok(|db.members|);
    db.members := db.members + [n.value];
  }

  /** `createMember` as written: the organization record is ensured, then
      the inherited `findOne` (when a Clerk user is given) or `create` fails
      on the Prisma delegate, so no member is ever stored. */
  method CreateMemberAsWritten(db: Db, d: MemberData) returns (r: Result<Id>)
    modifies db`orgs
    ensures !Present(d.orgId) ==> r == Fail(OrgRequired) && db.orgs == old(db.orgs)
    ensures Present(d.orgId) ==> db.orgs == EnsuredOrgs(old(db.orgs), d.orgId.value, d)
    ensures Present(d.orgId) && Present(d.clerkUserId) ==> r == Fail(PrismaDelegate.NotAFunction("findOne"))
    ensures Present(d.orgId) && !Present(d.clerkUserId) ==> r == Fail(PrismaDelegate.InvalidInvocation("member", "create"))
    ensures db.members == old(db.members)
  {
    if !Present(d.orgId) {
      return Fail(OrgRequired);
    }
    var org := d.orgId.value;
    if org !in db.orgs {
      db.orgs := db.orgs[org := NewOrganization(org, d)];
    }
    if Present(d.clerkUserId) {
      return Fail(PrismaDelegate.Raised("member", PrismaDelegate.FindOne));
    }
    r := Fail(PrismaDelegate.Raised("member", PrismaDelegate.Create));
  }

  /** The keys an update may carry; the names, the email and the notes may
      be set to null. */
  datatype MemberPatch = MemberPatch(
    firstName: Input<string>,
    lastName: Input<string>,
    email: Input<string>,
    phone: Option<string>,
    gender: Option<string>,
    notes: Input<string>,
    isActive: Option<bool>,
    dateOfBirth: Option<int>,
    joinDate: Option<int>)

  predicate PatchEmpty(p: MemberPatch) {
    && p.firstName.Undef? && p.lastName.Undef? && p.email.Undef? && p.phone.None?
    && p.gender.None? && p.notes.Undef? && p.isActive.None? && p.dateOfBirth.None? && p.joinDate.None?
  }

  /** A key given as null is written as null. */
  function Written(x: Input<string>, current: Option<string>): (r: Option<string>)
    ensures x.Undef? ==> r == current
    ensures x.Null? ==> r == None
    ensures x.Given? ==> r == Some(x.value)
  {
    match x
    case Undef => current
    case Null => None
    case Given(v) => Some(v)
  }

  /** The member with only the supplied keys written. */
  function Patched(m: Member, p: MemberPatch): (q: Member)
    ensures q.orgId == m.orgId && q.clerkUserId == m.clerkUserId
    ensures q.email == Written(p.email, m.email) && q.isActive == Default(p.isActive, m.isActive)
  {
    m.(firstName := Written(p.firstName, m.firstName),
       lastName := Written(p.lastName, m.lastName),
       email := Written(p.email, m.email),
       phone := Default(p.phone, m.phone),
       gender := Default(p.gender, m.gender),
       notes := Written(p.notes, m.notes),
       isActive := Default(p.isActive, m.isActive),
       dateOfBirth := Default(p.dateOfBirth, m.dateOfBirth),
       joinDate := Default(p.joinDate, m.joinDate))
  }

  predicate HoldsEmail(m: Member, email: string, org: string) {
    m.email == Some(email) && m.orgId == org
  }

  /** The email check of `updateMember`: a truthy email other than the
      member's own must not be held by another member of the organization. */
  predicate EmailClash(members: seq<Member>, id: Id, email: Input<string>)
    requires id < |members|
  {
    && email.Given? && email.value != "" && Some(email.value) != members[id].email
    && var f := FirstWhere(members, (m: Member) => HoldsEmail(m, email.value, members[id].orgId));
       f.Some? && f.value != id
  }

  /** `updateMember`: the member must exist and a new email must be free in
      the organization; nothing supplied means the repository is handed
      nothing and returns null. */
  function UpdatedMember(members: seq<Member>, id: Id, p: MemberPatch): (r: Result<Option<Member>>)
    ensures id >= |members| ==> r == Fail(MemberNotFound)
    ensures id < |members| && EmailClash(members, id, p.email) ==> r == Fail(EmailTaken)
    ensures r.Ok? <==> id < |members| && !EmailClash(members, id, p.email)
    ensures r.Ok? ==> (r.value.None? <==> PatchEmpty(p))
    ensures r.Ok? && r.value.Some? ==> r.value.value == Patched(members[id], p)
  {
    if id >= |members| then Fail(MemberNotFound)
    else if EmailClash(members, id, p.email) then Fail(EmailTaken)
    else if PatchEmpty(p) then Ok(None)
    else Ok(Some(Patched(members[id], p)))
  }

  /** An update that changes the email to a non-empty one leaves no other
      member of the organization with it. */
  lemma NewEmailIsFree(members: seq<Member>, id: Id, p: MemberPatch)
    requires UpdatedMember(members, id, p).Ok? && UpdatedMember(members, id, p).value.Some?
    requires p.email.Given? && p.email.value != "" && Some(p.email.value) != members[id].email
    ensures var after := members[id := UpdatedMember(members, id, p).value.value];
            forall i :: 0 <= i < |after| && i != id ==> !HoldsEmail(after[i], p.email.value, after[id].orgId)
  {
    var org := members[id].orgId;
    var f := FirstWhere(members, (m: Member) => HoldsEmail(m, p.email.value, org));
    assert f.None?;
  }

  /** An update never touches the Clerk links. */
  lemma UpdateKeepsClerkLinksUnique(members: seq<Member>, id: Id, p: MemberPatch)
    requires UniqueClerkLinks(members)
    requires UpdatedMember(members, id, p).Ok? && UpdatedMember(members, id, p).value.Some?
    ensures UniqueClerkLinks(members[id := UpdatedMember(members, id, p).value.value])
  {
    var after := members[id := UpdatedMember(members, id, p).value.value];
    assert forall i :: 0 <= i < |members| ==> after[i].clerkUserId == members[i].clerkUserId && after[i].orgId == members[i].orgId;
  }

  /** `updateMember`. */
  method UpdateMember(db: Db, id: Id, p: MemberPatch) returns (r: Result<Option<Member>>)
    requires UniqueClerkLinks(db.members)
    modifies db`members
    ensures UniqueClerkLinks(db.members)
    ensures r == UpdatedMember(old(db.members), id, p)
    ensures r.Ok? && r.value.Some? ==> db.members == old(db.members)[id := r.value.value]
    ensures !(r.Ok? && r.value.Some?) ==> db.members == old(db.members)
  {
    r := UpdatedMember(db.members, id, p);
    if r.Ok? && r.value.Some? {
      UpdateKeepsClerkLinksUnique(db.members, id, p);
      db.members := db.members[id := r.value.value];
    }
  }

  /** `deleteMember`: the member stays, deactivated. */
  method DeleteMember(db: Db, id: Id) returns (r: Result<string>)
    requires UniqueClerkLinks(db.members)
    modifies db`members
    ensures UniqueClerkLinks(db.members)
    ensures id >= |old(db.members)| ==> r == Fail(MemberNotFound) && db.members == old(db.members)
    ensures id < |old(db.members)| ==>
              && r == Ok("Member deleted successfully")
              && db.members == old(db.members)[id := old(db.members)[id].(isActive := false)]
  {
    if id >= |db.members| {
      return Fail(MemberNotFound);
    }
    var after := db.members[id := db.members[id].(isActive := false)];
    assert forall i :: 0 <= i < |after| ==> after[i].clerkUserId == db.members[i].clerkUserId && after[i].orgId == db.members[i].orgId;
    db.members := after;
    r := Ok("Member deleted successfully");
  }
}
