/** Plan variants: the durations and prices a plan type is sold at. A
    variant belongs to one plan type for good; it is listed under that plan
    type, hidden from the default listing once inactive, and hard-deleted. */
module PlanVariantService {
  import opened Common
  import opened GymStore
  import PlanTypeService
  import PrismaDelegate

  const VariantNotFound := Err("Plan variant not found")
  const PlanTypeIdRequired := Err("Plan type ID is required")

  /** A variant `findByPlanType(planTypeId, includeInactive)` selects. */
  predicate Listed(slot: Option<PlanVariant>, planTypeId: Id, includeInactive: bool) {
    slot.Some? && slot.value.planTypeId == planTypeId && (includeInactive || slot.value.isActive)
  }

  /** The ids of the selected variants, in id order. */
  function VariantsOf(variants: seq<Option<PlanVariant>>, planTypeId: Id, includeInactive: bool): (r: seq<Id>)
    ensures forall v: Id :: v in r <==> v < |variants| && Listed(variants[v], planTypeId, includeInactive)
    ensures forall i, j :: 0 <= i < j < |r| ==> r[i] < r[j]
  {
    if variants == [] then []
    else
      var n := |variants| - 1;
      var rest := VariantsOf(variants[..n], planTypeId, includeInactive);
      forall i | 0 <= i < |rest|
        ensures rest[i] < n
      {
        assert rest[i] in rest;
      }
      if Listed(variants[n], planTypeId, includeInactive) then rest + [n] else rest
  }

  /** `getVariantsByPlanType`: the plan type must exist; then its variants,
      only the active ones unless inactive ones are asked for. */
  function GetVariantsByPlanType(types: seq<Option<PlanType>>, variants: seq<Option<PlanVariant>>,
                                 planTypeId: Id, includeInactive: bool): (r: Result<seq<Id>>)
    ensures r.Fail? <==> !Live(types, planTypeId)
    ensures r.Fail? ==> r.error == PlanTypeService.PlanTypeNotFound
    ensures r.Ok? ==> forall v: Id :: v in r.value <==> v < |variants| && Listed(variants[v], planTypeId, includeInactive)
  {
    if !Live(types, planTypeId) then Fail(PlanTypeService.PlanTypeNotFound)
    else Ok(VariantsOf(variants, planTypeId, includeInactive))
  }

  /** The active listing is part of the full one. */
  lemma ActiveListingIsPartOfFull(variants: seq<Option<PlanVariant>>, planTypeId: Id)
    ensures forall v :: v in VariantsOf(variants, planTypeId, false) ==> v in VariantsOf(variants, planTypeId, true)
  {
  }

  /** The fields `createVariant` reads. */
  datatype VariantData = VariantData(
    planTypeId: Option<Id>,
    durationDays: int,
    durationLabel: Option<string>,
    price: int,
    isActive: Option<bool>)

  /** The row `createVariant` writes, or why it refuses: the plan type id is
      required and must name a plan type; the variant is active unless told
      otherwise. */
  function NewVariant(types: seq<Option<PlanType>>, d: VariantData): (r: Result<PlanVariant>)
    ensures d.planTypeId.None? ==> r == Fail(PlanTypeIdRequired)
    ensures d.planTypeId.Some? && !Live(types, d.planTypeId.value) ==> r == Fail(PlanTypeService.PlanTypeNotFound)
    ensures r.Ok? <==> d.planTypeId.Some? && Live(types, d.planTypeId.value)
    ensures r.Ok? ==> && r.value.planTypeId == d.planTypeId.value
                      && r.value.durationDays == d.durationDays && r.value.price == d.price
                      && r.value.durationLabel == d.durationLabel
                      && r.value.isActive == Default(d.isActive, true)
  {
    if d.planTypeId.None? then Fail(PlanTypeIdRequired)
    else if !Live(types, d.planTypeId.value) then Fail(PlanTypeService.PlanTypeNotFound)
    else Ok(PlanVariant(d.planTypeId.value, d.durationDays, d.durationLabel, d.price, Default(d.isActive, true)))
  }

  /** `createVariant`. */
  method CreateVariant(db: Db, d: VariantData) returns (r: Result<Id>)
    modifies db`variants
    ensures match NewVariant(db.planTypes, d)
            case Fail(e) => r == Fail(e) && db.variants == old(db.variants)
            case Ok(v) => r == Ok(|old(db.variants)|) && db.variants == old(db.variants) + [Some(v)]
  {
    var n := NewVariant(db.planTypes, d);
    if n.Fail? {
      return Fail(n.error);
    }
    r := Ok(|db.variants|);
    db.variants := db.variants + [Some(n.value)];
  }

  /** `createVariant` as written: past the id check the plan type is
      loaded with the inherited `get`, which calls a `findById` the Prisma
      delegate does not have, whether the plan type exists or not. */
  function NewVariantAsWritten(d: VariantData): (r: Result<PlanVariant>)
    ensures d.planTypeId.None? ==> r == Fail(PlanTypeIdRequired)
    ensures d.planTypeId.Some? ==> r == Fail(PrismaDelegate.NotAFunction("findById"))
                                   && r.error != PlanTypeService.PlanTypeNotFound
  {
    if d.planTypeId.None? then Fail(PlanTypeIdRequired)
    else Fail(PrismaDelegate.Raised("planType", PrismaDelegate.Get))
  }

  /** A created variant is listed last under its plan type, in the full
      listing always and in the default one when it is active; the other
      listings do not change. */
  lemma CreatedVariantIsListed(variants: seq<Option<PlanVariant>>, v: PlanVariant, planTypeId: Id, includeInactive: bool)
    ensures var after := VariantsOf(variants + [Some(v)], planTypeId, includeInactive);
            var before := VariantsOf(variants, planTypeId, includeInactive);
            && (Listed(Some(v), planTypeId, includeInactive) ==> after == before + [|variants|])
            && (!Listed(Some(v), planTypeId, includeInactive) ==> after == before)
  {
    assert (variants + [Some(v)])[..|variants|] == variants;
  }

  /** The keys an update may carry; `durationLabel` may be set to null. */
  datatype VariantPatch = VariantPatch(
    durationDays: Option<int>,
    durationLabel: Input<string>,
    price: Option<int>,
    isActive: Option<bool>)

  predicate PatchEmpty(p: VariantPatch) {
    p.durationDays.None? && p.durationLabel.Undef? && p.price.None? && p.isActive.None?
  }

  /** The variant with only the supplied keys written; the plan type is
      never among them. */
  function Patched(v: PlanVariant, p: VariantPatch): (w: PlanVariant)
    ensures w.planTypeId == v.planTypeId
    ensures w.durationDays == Default(p.durationDays, v.durationDays) && w.price == Default(p.price, v.price)
    ensures w.isActive == Default(p.isActive, v.isActive)
    ensures p.durationLabel.Undef? ==> w.durationLabel == v.durationLabel
    ensures p.durationLabel.Null? ==> w.durationLabel == None
    ensures p.durationLabel.Given? ==> w.durationLabel == Some(p.durationLabel.value)
  {
    PlanVariant(
      v.planTypeId,
      Default(p.durationDays, v.durationDays),
      match p.durationLabel
      case Undef => v.durationLabel
      case Null => None
      case Given(s) => Some(s),
      Default(p.price, v.price),
      Default(p.isActive, v.isActive))
  }

  /** `updateVariant`: the variant must exist; nothing supplied means the
      repository is handed nothing and returns null. */
  function UpdatedVariant(variants: seq<Option<PlanVariant>>, id: Id, p: VariantPatch): (r: Result<Option<PlanVariant>>)
    ensures r.Fail? <==> !Live(variants, id)
    ensures r.Fail? ==> r.error == VariantNotFound
    ensures r.Ok? ==> (r.value.None? <==> PatchEmpty(p))
    ensures r.Ok? && r.value.Some? ==> r.value.value == Patched(variants[id].value, p)
  {
    if !Live(variants, id) then Fail(VariantNotFound)
    else if PatchEmpty(p) then Ok(None)
    else Ok(Some(Patched(variants[id].value, p)))
  }

  /** `updateVariant`. */
  method UpdateVariant(db: Db, id: Id, p: VariantPatch) returns (r: Result<Option<PlanVariant>>)
    modifies db`variants
    ensures r == UpdatedVariant(old(db.variants), id, p)
    ensures r.Ok? && r.value.Some? ==> db.variants == old(db.variants)[id := Some(r.value.value)]
    ensures !(r.Ok? && r.value.Some?) ==> db.variants == old(db.variants)
  {
    r := UpdatedVariant(db.variants, id, p);
    if r.Ok? && r.value.Some? {
      db.variants := db.variants[id := Some(r.value.value)];
    }
  }

  /** Replacing a variant by one of the same plan type leaves the full
      listing of every plan type as it was. */
  lemma {:induction false} SamePlanTypeKeepsFullListing(variants: seq<Option<PlanVariant>>, id: Id, w: PlanVariant, planTypeId: Id)
    requires Live(variants, id) && w.planTypeId == variants[id].value.planTypeId
    ensures VariantsOf(variants[id := Some(w)], planTypeId, true) == VariantsOf(variants, planTypeId, true)
  {
    var n := |variants| - 1;
    var after := variants[id := Some(w)];
    if id == n {
      assert after[..n] == variants[..n];
    } else {
      assert after[..n] == variants[..n][id := Some(w)];
      SamePlanTypeKeepsFullListing(variants[..n], id, w, planTypeId);
    }
  }

  /** An update never moves a variant to another plan type's listing. */
  lemma UpdateKeepsFullListing(variants: seq<Option<PlanVariant>>, id: Id, p: VariantPatch, planTypeId: Id)
    requires UpdatedVariant(variants, id, p).Ok? && UpdatedVariant(variants, id, p).value.Some?
    ensures VariantsOf(variants[id := Some(UpdatedVariant(variants, id, p).value.value)], planTypeId, true)
         == VariantsOf(variants, planTypeId, true)
  {
    SamePlanTypeKeepsFullListing(variants, id, UpdatedVariant(variants, id, p).value.value, planTypeId);
  }

  /** `deleteVariant`: a hard delete after the existence check. */
  method DeleteVariant(db: Db, id: Id) returns (r: Result<string>)
    modifies db`variants
    ensures !Live(old(db.variants), id) ==> r == Fail(VariantNotFound) && db.variants == old(db.variants)
    ensures Live(old(db.variants), id) ==>
              && r == Ok("Plan variant deleted successfully")
              && db.variants == old(db.variants)[id := None]
  {
    if !Live(db.variants, id) {
      return Fail(VariantNotFound);
    }
    db.variants := db.variants[id := None];
    r := Ok("Plan variant deleted successfully");
  }

  /** A deleted variant is gone from every listing, and nothing else is. */
  lemma DeletedVariantIsUnlisted(variants: seq<Option<PlanVariant>>, id: Id, planTypeId: Id, includeInactive: bool)
    requires Live(variants, id)
    ensures forall v :: v in VariantsOf(variants[id := None], planTypeId, includeInactive)
                    <==> v in VariantsOf(variants, planTypeId, includeInactive) && v != id
  {
  }

  /** `deactivateVariant`: the variant stays, with `isActive` false. */
  method DeactivateVariant(db: Db, id: Id) returns (r: Result<PlanVariant>)
    modifies db`variants
    ensures !Live(old(db.variants), id) ==> r == Fail(VariantNotFound) && db.variants == old(db.variants)
    ensures Live(old(db.variants), id) ==>
              && r == Ok(old(db.variants)[id].value.(isActive := false))
              && db.variants == old(db.variants)[id := Some(r.value)]
  {
    if !Live(db.variants, id) {
      return Fail(VariantNotFound);
    }
    var v := db.variants[id].value.(isActive := false);
    db.variants := db.variants[id := Some(v)];
    r := Ok(v);
  }

  /** A deactivated variant leaves the default listing and stays in the
      full one. */
  lemma DeactivatedVariantIsHidden(variants: seq<Option<PlanVariant>>, id: Id)
    requires Live(variants, id)
    ensures var after := variants[id := Some(variants[id].value.(isActive := false))];
            var t := variants[id].value.planTypeId;
            && id !in VariantsOf(after, t, false)
            && VariantsOf(after, t, true) == VariantsOf(variants, t, true)
  {
    var t := variants[id].value.planTypeId;
    SamePlanTypeKeepsFullListing(variants, id, variants[id].value.(isActive := false), t);
  }
}
