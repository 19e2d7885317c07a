/** The legacy membership-plan catalog: plans of an organization, unique
    by name, soft-deactivated rather than deleted. */
module MembershipPlanService {
  import opened Common
  import opened MongoStore

  const PlanNotFound := Err("Membership plan not found")
  const NameTaken := Err("A plan with this name already exists")

  predicate NamedIn(p: MembershipPlan, org: string, name: string) {
    p.org == org && p.name == name
  }

  /** `findByNameAndOrg`: the first plan of the organization with that
      name, active or not. */
  function FindByNameAndOrg(plans: seq<MembershipPlan>, org: string, name: string): (r: Option<Id>)
    ensures r.None? <==> forall i :: 0 <= i < |plans| ==> !NamedIn(plans[i], org, name)
    ensures r.Some? ==> r.value < |plans| && NamedIn(plans[r.value], org, name)
  {
    FirstWhere(plans, (p: MembershipPlan) => NamedIn(p, org, name))
  }

  /** The plan as the service returns it: with its id, and with features
      defaulting to the empty list. */
  datatype PlanView = PlanView(id: Id, plan: MembershipPlan)

  /** `sanitizePlan`. */
  function SanitizePlan(id: Id, p: MembershipPlan): (v: PlanView)
    ensures v.id == id && v.plan.features.Some?
    ensures p.features.Some? ==> v.plan == p
    ensures p.features.None? ==> v.plan == p.(features := Some([]))
  {
    PlanView(id, p.(features := Some(Default(p.features, []))))
  }

  /** Sanitizing twice is sanitizing once. */
  lemma SanitizePlanIdempotent(id: Id, p: MembershipPlan)
    ensures SanitizePlan(id, SanitizePlan(id, p).plan) == SanitizePlan(id, p)
  {
  }

  /** `getPlanById`. */
  function GetPlanById(plans: seq<MembershipPlan>, id: Id): (r: Result<PlanView>)
    ensures r.Ok? <==> id < |plans|
    ensures r.Ok? ==> r.value == SanitizePlan(id, plans[id])
    ensures r.Fail? ==> r.error == PlanNotFound
  {
    if id < |plans| then Ok(SanitizePlan(id, plans[id])) else Fail(PlanNotFound)
  }

  /** The fields `createPlan` reads from its argument. */
  datatype PlanData = PlanData(
    org: string,
    name: string,
    description: Option<string>,
    durationDays: int,
    price: int,
    features: Option<seq<string>>,
    isActive: Option<bool>)

  /** `createPlan` on the plans collection: a name already used in the
      organization is refused; features default to [] and the plan to
      active. */
  function NewPlan(plans: seq<MembershipPlan>, d: PlanData, now: int): (r: Result<MembershipPlan>)
    ensures r.Fail? <==> exists i :: 0 <= i < |plans| && NamedIn(plans[i], d.org, d.name)
    ensures r.Fail? ==> r.error == NameTaken
    ensures r.Ok? ==> && r.value.org == d.org && r.value.name == d.name
                      && r.value.features == Some(Default(d.features, []))
                      && r.value.isActive == Default(d.isActive, true)
                      && r.value.durationDays == d.durationDays && r.value.price == d.price
  {
    if FindByNameAndOrg(plans, d.org, d.name).Some? then Fail(NameTaken)
    else Ok(MembershipPlan(d.org, d.name, d.description, d.durationDays, d.price,
                           Some(Default(d.features, [])), Default(d.isActive, true), now))
  }

  /** `createPlan`. */
  method CreatePlan(db: Mongo, d: PlanData, now: int) returns (r: Result<PlanView>)
    requires db.Valid()
    modifies db`plans
    ensures db.Valid()
    ensures var n := NewPlan(old(db.plans), d, now);
            && (n.Fail? ==> r == Fail(n.error) && db.plans == old(db.plans))
            && (n.Ok? ==> r == Ok(SanitizePlan(|old(db.plans)|, n.value)) && db.plans == old(db.plans) + [n.value])
  {
    var n := NewPlan(db.plans, d, now);
    if n.Fail? {
      return Fail(n.error);
    }
    r := Ok(SanitizePlan(|db.plans|, n.value));
    db.plans := db.plans + [n.value];
  }

  /** The keys an update may carry; `description` and `features` may be
      set to null. */
  datatype PlanPatch = PlanPatch(
    name: Option<string>,
    description: Input<string>,
    durationDays: Option<int>,
    price: Option<int>,
    features: Input<seq<string>>,
    isActive: Option<bool>)

  predicate PatchEmpty(p: PlanPatch) {
    p.name.None? && p.description.Undef? && p.durationDays.None? && p.price.None?
    && p.features.Undef? && p.isActive.None?
  }

  /** A key given as null is written as null. */
  function Written<T>(x: Input<T>, current: Option<T>): Option<T> {
    match x
    case Undef => current
    case Null => None
    case Given(v) => Some(v)
  }

  function ApplyPlanPatch(p: MembershipPlan, u: PlanPatch, now: int): (q: MembershipPlan)
    ensures q.org == p.org && q.updatedAt == now
    ensures q.name == Default(u.name, p.name) && q.isActive == Default(u.isActive, p.isActive)
  {
    p.(name := Default(u.name, p.name),
       description := Written(u.description, p.description),
       durationDays := Default(u.durationDays, p.durationDays),
       price := Default(u.price, p.price),
       features := Written(u.features, p.features),
       isActive := Default(u.isActive, p.isActive),
       updatedAt := now)
  }

  /** The rename check: only a truthy name that differs from the plan's
      own is looked up. */
  predicate RenameClash(plans: seq<MembershipPlan>, id: Id, name: Option<string>)
    requires id < |plans|
  {
    Present(name) && name.value != plans[id].name && FindByNameAndOrg(plans, plans[id].org, name.value).Some?
  }

  /** `updatePlan` on the plans collection. An update with no keys makes
      the repository return null, which is what the service returns. */
  function UpdatedPlan(plans: seq<MembershipPlan>, id: Id, u: PlanPatch, now: int): (r: Result<Option<MembershipPlan>>)
    ensures id >= |plans| ==> r == Fail(PlanNotFound)
    ensures id < |plans| ==>
              && (RenameClash(plans, id, u.name) ==> r == Fail(NameTaken))
              && (!RenameClash(plans, id, u.name) ==>
                    r == Ok(if PatchEmpty(u) then None else Some(ApplyPlanPatch(plans[id], u, now))))
  {
    if id >= |plans| then Fail(PlanNotFound)
    else if RenameClash(plans, id, u.name) then Fail(NameTaken)
    else if PatchEmpty(u) then Ok(None)
    else Ok(Some(ApplyPlanPatch(plans[id], u, now)))
  }

  /** A rename that goes through leaves no other plan of the organization
      with the new non-empty name. */
  lemma RenameKeepsNamesUnique(plans: seq<MembershipPlan>, id: Id, u: PlanPatch, now: int)
    requires UniquePlanNames(plans)
    requires UpdatedPlan(plans, id, u, now).Ok? && UpdatedPlan(plans, id, u, now).value.Some?
    ensures UniquePlanNames(plans[id := UpdatedPlan(plans, id, u, now).value.value])
  {
    var q := UpdatedPlan(plans, id, u, now).value.value;
    var s := plans[id := q];
    forall i, j | 0 <= i < j < |s|
      ensures !SameName(s[i], s[j])
    {
      if i == id && SameName(q, s[j]) {
        assert NamedIn(plans[j], plans[id].org, q.name);
      } else if j == id && SameName(s[i], q) {
        assert NamedIn(plans[i], plans[id].org, q.name);
      }
    }
  }

  /** A plan created is never a second plan with the same name. */
  lemma CreateKeepsNamesUnique(plans: seq<MembershipPlan>, d: PlanData, now: int)
    requires UniquePlanNames(plans)
    requires NewPlan(plans, d, now).Ok?
    ensures UniquePlanNames(plans + [NewPlan(plans, d, now).value])
  {
    var s := plans + [NewPlan(plans, d, now).value];
    forall i, j | 0 <= i < j < |s|
      ensures !SameName(s[i], s[j])
    {
      if j == |plans| {
        assert !NamedIn(plans[i], d.org, d.name);
      }
    }
  }

  /** `updatePlan`. */
  method UpdatePlan(db: Mongo, id: Id, u: PlanPatch, now: int) returns (r: Result<Option<PlanView>>)
    requires db.Valid()
    modifies db`plans
    ensures db.Valid()
    ensures match UpdatedPlan(old(db.plans), id, u, now)
            case Fail(e) => r == Fail(e) && db.plans == old(db.plans)
            case Ok(None) => r == Ok(None) && db.plans == old(db.plans)
            case Ok(Some(q)) => r == Ok(Some(SanitizePlan(id, q))) && db.plans == old(db.plans)[id := q]
  {
    var n := UpdatedPlan(db.plans, id, u, now);
    match n
    case Fail(e) =>
      return Fail(e);
    case Ok(None) =>
      return Ok(None);
    case Ok(Some(q)) =>
      RenameKeepsNamesUnique(db.plans, id, u, now);
      db.plans := db.plans[id := q];
      r := Ok(Some(SanitizePlan(id, q)));
  }

  /** `deactivatePlan`. */
  method DeactivatePlan(db: Mongo, id: Id, now: int) returns (r: Result<string>)
    requires db.Valid()
    modifies db`plans
    ensures db.Valid()
    ensures id >= |old(db.plans)| ==> r == Fail(PlanNotFound) && db.plans == old(db.plans)
    ensures id < |old(db.plans)| ==>
              && r == Ok("Plan deactivated successfully")
              && db.plans == old(db.plans)[id := old(db.plans)[id].(isActive := false, updatedAt := now)]
  {
    if id >= |db.plans| {
      return Fail(PlanNotFound);
    }
    var p := db.plans[id];
    assert forall i :: 0 <= i < |db.plans| ==> db.plans[id := p.(isActive := false, updatedAt := now)][i].name == db.plans[i].name
                                               && db.plans[id := p.(isActive := false, updatedAt := now)][i].org == db.plans[i].org;
    db.plans := db.plans[id := p.(isActive := false, updatedAt := now)];
    r := Ok("Plan deactivated successfully");
  }
}
