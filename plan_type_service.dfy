/** Plan types: the named product lines of an organization, each in the
    membership or the training category, unique by name within the
    organization. They are hard-deleted, so a deleted plan type leaves an
    empty slot in its table. */
module PlanTypeService {
  import opened Common
  import opened GymStore
  import PrismaDelegate

  const PlanTypeNotFound := Err("Plan type not found")
  const OrgRequired := Err("Organization ID is required")
  const NameTaken := Err("Plan type with this name already exists in this organization")
  const InvalidCategory := Err("Invalid plan category")

  /** A live plan type of the organization with that name. */
  predicate NamedIn(slot: Option<PlanType>, name: string, org: string) {
    slot.Some? && slot.value.orgId == org && slot.value.name == name
  }

  /** `findByNameAndOrg`: the first plan type of the organization with the
      name. */
  function FindByNameAndOrg(types: seq<Option<PlanType>>, name: string, org: string): (r: Option<Id>)
    ensures r.None? <==> forall i :: 0 <= i < |types| ==> !NamedIn(types[i], name, org)
    ensures r.Some? ==> r.value < |types| && NamedIn(types[r.value], name, org)
  {
    FirstWhere(types, (t: Option<PlanType>) => NamedIn(t, name, org))
  }

  /** Two plan types of one organization with the same non-empty name. */
  predicate Clashes(p: PlanType, q: PlanType) {
    p.orgId == q.orgId && p.name == q.name && p.name != ""
  }

  /** What the name checks keep: no two live plan types of an organization
      share a non-empty name. */
  predicate UniqueTypeNames(types: seq<Option<PlanType>>) {
    forall i, j :: 0 <= i < j < |types| && types[i].Some? && types[j].Some? ==> !Clashes(types[i].value, types[j].value)
  }

  /** The fields `createPlanType` reads. */
  datatype PlanTypeData = PlanTypeData(
    orgId: Option<string>,
    name: string,
    description: Option<string>,
    isActive: Option<bool>)

  /** The row `createPlanType` writes, or why it refuses: the organization
      is required and the name must be new in it. The category is not
      passed, so the row takes the store's default category. */
  function NewPlanType(types: seq<Option<PlanType>>, d: PlanTypeData, defaultCategory: Kind): (r: Result<PlanType>)
    ensures !Present(d.orgId) ==> r == Fail(OrgRequired)
    ensures Present(d.orgId) ==>
              (r.Fail? <==> exists i :: 0 <= i < |types| && NamedIn(types[i], d.name, d.orgId.value))
    ensures Present(d.orgId) && r.Fail? ==> r.error == NameTaken
    ensures r.Ok? ==> && r.value.orgId == d.orgId.value && r.value.name == d.name
                      && r.value.description == OrNull(d.description)
                      && r.value.isActive == Default(d.isActive, true)
                      && r.value.category == defaultCategory
  {
    if !Present(d.orgId) then Fail(OrgRequired)
    else if FindByNameAndOrg(types, d.name, d.orgId.value).Some? then Fail(NameTaken)
    else Ok(PlanType(d.orgId.value, d.name, OrNull(d.description), defaultCategory, Default(d.isActive, true)))
  }

  /** A created plan type is the one `findByNameAndOrg` then finds, and the
      names stay unique. */
  lemma CreatedIsFoundByName(types: seq<Option<PlanType>>, d: PlanTypeData, defaultCategory: Kind)
    requires UniqueTypeNames(types)
    requires NewPlanType(types, d, defaultCategory).Ok?
    ensures var after := types + [Some(NewPlanType(types, d, defaultCategory).value)];
            && FindByNameAndOrg(after, d.name, d.orgId.value) == Some(|types|)
            && UniqueTypeNames(after)
  {
    var t := NewPlanType(types, d, defaultCategory).value;
    var after := types + [Some(t)];
    var f := FindByNameAndOrg(after, d.name, d.orgId.value);
    assert NamedIn(after[|types|], d.name, d.orgId.value);
    assert forall i :: 0 <= i < |types| ==> after[i] == types[i];
    assert f.value == |types|;
  }

  /** `createPlanType`. */
  method CreatePlanType(db: Db, d: PlanTypeData, defaultCategory: Kind) returns (r: Result<Id>)
    requires UniqueTypeNames(db.planTypes)
    modifies db`planTypes
    ensures UniqueTypeNames(db.planTypes)
    ensures match NewPlanType(old(db.planTypes), d, defaultCategory)
            case Fail(e) => r == Fail(e) && db.planTypes == old(db.planTypes)
            case Ok(t) => r == Ok(|old(db.planTypes)|) && db.planTypes == old(db.planTypes) + [Some(t)]
  {
    var n := NewPlanType(db.planTypes, d, defaultCategory);
    if n.Fail? {
      return Fail(n.error);
    }
    CreatedIsFoundByName(db.planTypes, d, defaultCategory);
    r := Ok(|db.planTypes|);
    db.planTypes := db.planTypes + [Some(n.value)];
  }

  /** `createPlanType` as written: past the organization check the name
      lookup calls the inherited `findOne`, which the Prisma delegate does
      not have, so no plan type is created and a taken name is never
      reported as such. */
  function NewPlanTypeAsWritten(d: PlanTypeData): (r: Result<PlanType>)
    ensures !Present(d.orgId) ==> r == Fail(OrgRequired)
    ensures Present(d.orgId) ==> r == Fail(PrismaDelegate.NotAFunction("findOne")) && r.error != NameTaken
  {
    if !Present(d.orgId) then Fail(OrgRequired)
    else Fail(PrismaDelegate.Raised("planType", PrismaDelegate.FindOne))
  }

  /** The category a string names, if it is one of the two. */
  function KindOf(s: string): (k: Option<Kind>)
    ensures k.Some? <==> s in ["membership", "training"]
    ensures k.Some? ==> k.value.Lower() == s
  {
    if s == "membership" then Some(Membership)
    else if s == "training" then Some(Training)
    else None
  }

  /** The keys an update may carry; `description` may be set to null, and a
      category given as null is refused like any other value. */
  datatype PlanTypePatch = PlanTypePatch(
    name: Option<string>,
    description: Input<string>,
    category: Input<string>,
    isActive: Option<bool>)

  predicate PatchEmpty(p: PlanTypePatch) {
    p.name.None? && p.description.Undef? && p.category.Undef? && p.isActive.None?
  }

  /** A category the update refuses. */
  predicate BadCategory(c: Input<string>) {
    c.Null? || (c.Given? && KindOf(c.value).None?)
  }

  /** The rename check: a truthy name different from the current one must
      not name another plan type of the organization. */
  predicate RenameClash(types: seq<Option<PlanType>>, id: Id, name: Option<string>)
    requires Live(types, id)
  {
    && Present(name) && name.value != types[id].value.name
    && var f := FindByNameAndOrg(types, name.value, types[id].value.orgId);
       f.Some? && f.value != id
  }

  /** The plan type with only the supplied keys written. */
  function Patched(t: PlanType, p: PlanTypePatch): (q: PlanType)
    requires !BadCategory(p.category)
    ensures q.orgId == t.orgId && q.name == Default(p.name, t.name) && q.isActive == Default(p.isActive, t.isActive)
    ensures p.description.Undef? ==> q.description == t.description
    ensures p.description.Null? ==> q.description == None
    ensures p.description.Given? ==> q.description == Some(p.description.value)
    ensures p.category.Undef? ==> q.category == t.category
    ensures p.category.Given? ==> q.category.Lower() == p.category.value
  {
    PlanType(
      t.orgId,
      Default(p.name, t.name),
      match p.description
      case Undef => t.description
      case Null => None
      case Given(v) => Some(v),
      if p.category.Given? then KindOf(p.category.value).value else t.category,
      Default(p.isActive, t.isActive))
  }

  /** `updatePlanType`: the plan type must exist, a rename must not take
      another's name, and a given category must be one of the two. Nothing
      supplied means the repository is handed nothing and returns null. */
  function UpdatedPlanType(types: seq<Option<PlanType>>, id: Id, p: PlanTypePatch): (r: Result<Option<PlanType>>)
    ensures !Live(types, id) ==> r == Fail(PlanTypeNotFound)
    ensures Live(types, id) && RenameClash(types, id, p.name) ==> r == Fail(NameTaken)
    ensures Live(types, id) && !RenameClash(types, id, p.name) && BadCategory(p.category) ==> r == Fail(InvalidCategory)
    ensures r.Ok? <==> Live(types, id) && !RenameClash(types, id, p.name) && !BadCategory(p.category)
    ensures r.Ok? ==> (r.value.None? <==> PatchEmpty(p))
    ensures r.Ok? && r.value.Some? ==> r.value.value == Patched(types[id].value, p)
  {
    if !Live(types, id) then Fail(PlanTypeNotFound)
    else if RenameClash(types, id, p.name) then Fail(NameTaken)
    else if BadCategory(p.category) then Fail(InvalidCategory)
    else if PatchEmpty(p) then Ok(None)
    else Ok(Some(Patched(types[id].value, p)))
  }

  /** An update that goes through keeps the names unique. */
  lemma UpdateKeepsNamesUnique(types: seq<Option<PlanType>>, id: Id, p: PlanTypePatch)
    requires UniqueTypeNames(types)
    requires UpdatedPlanType(types, id, p).Ok? && UpdatedPlanType(types, id, p).value.Some?
    ensures UniqueTypeNames(types[id := Some(UpdatedPlanType(types, id, p).value.value)])
  {
    var q := UpdatedPlanType(types, id, p).value.value;
    var s := types[id := Some(q)];
    var t := types[id].value;
    forall i, j | 0 <= i < j < |s| && s[i].Some? && s[j].Some?
      ensures !Clashes(s[i].value, s[j].value)
    {
      if i == id && q.name != t.name && Clashes(q, s[j].value) {
        assert NamedIn(types[j], q.name, t.orgId);
      } else if j == id && q.name != t.name && Clashes(s[i].value, q) {
        assert NamedIn(types[i], q.name, t.orgId);
      }
    }
  }

  /** `updatePlanType`. */
  method UpdatePlanType(db: Db, id: Id, p: PlanTypePatch) returns (r: Result<Option<PlanType>>)
    requires UniqueTypeNames(db.planTypes)
    modifies db`planTypes
    ensures UniqueTypeNames(db.planTypes)
    ensures r == UpdatedPlanType(old(db.planTypes), id, p)
    ensures r.Ok? && r.value.Some? ==> db.planTypes == old(db.planTypes)[id := Some(r.value.value)]
    ensures !(r.Ok? && r.value.Some?) ==> db.planTypes == old(db.planTypes)
  {
    r := UpdatedPlanType(db.planTypes, id, p);
    if r.Ok? && r.value.Some? {
      UpdateKeepsNamesUnique(db.planTypes, id, p);
      db.planTypes := db.planTypes[id := Some(r.value.value)];
    }
  }

  /** `deletePlanType`: a hard delete after the existence check; the slot is
      emptied and nothing else changes. */
  method DeletePlanType(db: Db, id: Id) returns (r: Result<string>)
    requires UniqueTypeNames(db.planTypes)
    modifies db`planTypes
    ensures UniqueTypeNames(db.planTypes)
    ensures !Live(old(db.planTypes), id) ==> r == Fail(PlanTypeNotFound) && db.planTypes == old(db.planTypes)
    ensures Live(old(db.planTypes), id) ==>
              && r == Ok("Plan type deleted successfully")
              && db.planTypes == old(db.planTypes)[id := None]
              && !Live(db.planTypes, id)
  {
    if !Live(db.planTypes, id) {
      return Fail(PlanTypeNotFound);
    }
    db.planTypes := db.planTypes[id := None];
    r := Ok("Plan type deleted successfully");
  }

  /** `deactivatePlanType`: the plan type stays, with `isActive` false. */
  method DeactivatePlanType(db: Db, id: Id) returns (r: Result<PlanType>)
    requires UniqueTypeNames(db.planTypes)
    modifies db`planTypes
    ensures UniqueTypeNames(db.planTypes)
    ensures !Live(old(db.planTypes), id) ==> r == Fail(PlanTypeNotFound) && db.planTypes == old(db.planTypes)
    ensures Live(old(db.planTypes), id) ==>
              && r == Ok(old(db.planTypes)[id].value.(isActive := false))
              && db.planTypes == old(db.planTypes)[id := Some(r.value)]
  {
    if !Live(db.planTypes, id) {
      return Fail(PlanTypeNotFound);
    }
    var t := db.planTypes[id].value.(isActive := false);
    DeactivateIsAnUpdate(db.planTypes, id);
    db.planTypes := db.planTypes[id := Some(t)];
    r := Ok(t);
  }

  /** Deactivating is the update that only sets `isActive` to false. */
  lemma DeactivateIsAnUpdate(types: seq<Option<PlanType>>, id: Id)
    requires UniqueTypeNames(types) && Live(types, id)
    ensures UpdatedPlanType(types, id, PlanTypePatch(None, Undef, Undef, Some(false)))
         == Ok(Some(types[id].value.(isActive := false)))
    ensures UniqueTypeNames(types[id := Some(types[id].value.(isActive := false))])
  {
    UpdateKeepsNamesUnique(types, id, PlanTypePatch(None, Undef, Undef, Some(false)));
  }
}
