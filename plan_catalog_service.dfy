/** The two plan catalogs of the plan feature, membership plans and
    training plans. Both are collections over the base repository with a
    unique index on (organizationId, name); the services check the name
    before a create, look the plan up before an update, and deactivate
    instead of deleting. The two differ only in their messages, in the
    schema defaults and in the category filter of the training catalog. */
module PlanCatalogService {
  import opened Common
  import opened CrudRepository
  import MongoStore

  datatype Catalog = MembershipPlans | TrainingPlans {
    function Label(): string {
      if this == MembershipPlans then "Membership plan" else "Training plan"
    }
  }

  function NameTaken(k: Catalog): Error {
    Err(k.Label() + " with this name already exists")
  }

  function NotFound(k: Catalog): Error {
    Err(k.Label() + " not found")
  }

  /** The keys of an object whose value is not undefined: Mongoose leaves
      the others out of what it writes. */
  function Defined(data: Fields): (r: Fields)
    ensures forall key :: key in r <==> key in data && data[key] != Undefined
    ensures forall key :: key in r ==> r[key] == data[key]
  {
    map key | key in data && data[key] != Undefined :: data[key]
  }

  /** The query of `findByName(planData.organizationId, planData.name)`; an
      argument that is undefined drops out of it. */
  function NameQuery(data: Fields): (q: Fields)
    ensures forall key :: key in q <==> (key == "organizationId" || key == "name") && key in data && data[key] != Undefined
    ensures forall key :: key in q ==> q[key] == data[key]
  {
    map key | key in data && (key == "organizationId" || key == "name") && data[key] != Undefined :: data[key]
  }

  /** What a document contributes to an index under a key: a missing field
      is indexed as null. */
  function IndexValue(f: Fields, key: string): Value {
    if key in f && f[key] != Undefined then f[key] else Value.Null
  }

  /** Two documents with the same entry in the (organizationId, name) index. */
  predicate SameKey(a: Fields, b: Fields) {
    IndexValue(a, "organizationId") == IndexValue(b, "organizationId") && IndexValue(a, "name") == IndexValue(b, "name")
  }

  /** The unique index holds over the collection. */
  predicate UniqueKeys(docs: seq<Stored>) {
    forall i, j :: 0 <= i < |docs| && 0 <= j < |docs| && i != j ==> !SameKey(docs[i].fields, docs[j].fields)
  }

  /** A document other than the one at `except` has the index entry of `f`. */
  predicate Clash(docs: seq<Stored>, except: int, f: Fields) {
    exists j :: 0 <= j < |docs| && j != except && SameKey(docs[j].fields, f)
  }

  /** The defaults of the two schemas. */
  function SchemaDefaults(k: Catalog): Fields {
    match k
    case MembershipPlans =>
      map["features" := Object("[]"), "isActive" := Bool(true)]
    case TrainingPlans =>
      map["category" := Str("personal-training"), "features" := Object("[]"),
          "requiresTrainer" := Bool(true), "isActive" := Bool(true)]
  }

  /** The document `model.create(data)` stores: the defined keys of the data
      over the schema defaults, a creation time unless one is given, and the
      update time. */
  function NewFields(k: Catalog, data: Fields, now: int): (f: Fields)
    ensures forall key :: key in data && data[key] != Undefined && key != "updatedAt" ==> key in f && f[key] == data[key]
    ensures forall key :: key in SchemaDefaults(k) && (key !in data || data[key] == Undefined) ==> key in f && f[key] == SchemaDefaults(k)[key]
    ensures "updatedAt" in f && f["updatedAt"] == Date(now)
  {
    SchemaDefaults(k) + map["createdAt" := Date(now)] + Defined(data) + map["updatedAt" := Date(now)]
  }

  /** The stored document has the data's entry in the unique index: no
      default or timestamp touches either key. */
  lemma NewFieldsIndex(k: Catalog, data: Fields, now: int)
    ensures IndexValue(NewFields(k, data, now), "organizationId") == IndexValue(data, "organizationId")
    ensures IndexValue(NewFields(k, data, now), "name") == IndexValue(data, "name")
  {
    DataKey(k, data, now, "organizationId");
    DataKey(k, data, now, "name");
  }

  /** A key that has no default and is no timestamp is stored as given. */
  lemma DataKey(k: Catalog, data: Fields, now: int, key: string)
    requires key !in SchemaDefaults(k) && key != "createdAt" && key != "updatedAt"
    ensures key in NewFields(k, data, now) <==> key in data && data[key] != Undefined
    ensures key in NewFields(k, data, now) ==> NewFields(k, data, now)[key] == data[key]
  {
  }

  /** A document with the index entry of data that names both keys is one
      `findByName` finds. */
  lemma SameKeyIsFound(d: Stored, k: Catalog, data: Fields, now: int)
    requires "organizationId" in data && data["organizationId"] != Undefined && data["organizationId"] != Value.Null
    requires "name" in data && data["name"] != Undefined && data["name"] != Value.Null
    requires SameKey(d.fields, NewFields(k, data, now))
    ensures Matches(d, NameQuery(data))
  {
    NewFieldsIndex(k, data, now);
    assert IndexValue(d.fields, "organizationId") == data["organizationId"];
    assert IndexValue(d.fields, "name") == data["name"];
  }

  /** The name check of `createPlan` is enough for the index whenever both
      keys are given: a plan it lets through breaks no unique entry. */
  lemma NameCheckKeepsIndex(docs: seq<Stored>, k: Catalog, data: Fields, now: int)
    requires "organizationId" in data && data["organizationId"] != Undefined && data["organizationId"] != Value.Null
    requires "name" in data && data["name"] != Undefined && data["name"] != Value.Null
    requires !Exists(docs, NameQuery(data))
    ensures !Clash(docs, |docs|, NewFields(k, data, now))
  {
    ExistsIff(docs, NameQuery(data));
    forall j | 0 <= j < |docs|
      ensures SameKey(docs[j].fields, NewFields(k, data, now)) ==> Matches(docs[j], NameQuery(data))
    {
      if SameKey(docs[j].fields, NewFields(k, data, now)) {
        SameKeyIsFound(docs[j], k, data, now);
      }
    }
  }

  lemma AppendKeepsUnique(docs: seq<Stored>, id: string, f: Fields)
    requires UniqueKeys(docs) && !Clash(docs, |docs|, f)
    ensures UniqueKeys(docs + [Stored(id, f)])
  {
  }

  lemma ReplaceKeepsUnique(docs: seq<Stored>, i: nat, id: string, f: Fields)
    requires UniqueKeys(docs) && i < |docs| && !Clash(docs, i, f)
    ensures UniqueKeys(docs[i := Stored(id, f)])
  {
  }

  /** `createPlan`: a name found in the organization is refused; otherwise
      the plan is stored unless the unique index refuses it, and it is what
      `get` then finds under its new id. */
  method CreatePlan(c: Collection, k: Catalog, data: Fields, newId: string, now: int) returns (r: Result<Doc>)
    requires c.Valid() && UniqueKeys(c.docs) && IndexOf(c.docs, newId).None?
    modifies c
    ensures c.Valid() && UniqueKeys(c.docs)
    ensures Exists(old(c.docs), NameQuery(data)) ==> r == Fail(NameTaken(k)) && c.docs == old(c.docs)
    ensures !Exists(old(c.docs), NameQuery(data)) && Clash(old(c.docs), |old(c.docs)|, NewFields(k, data, now))
            ==> r == Fail(MongoStore.DuplicateKey) && c.docs == old(c.docs)
    ensures !Exists(old(c.docs), NameQuery(data)) && !Clash(old(c.docs), |old(c.docs)|, NewFields(k, data, now))
            ==> c.docs == old(c.docs) + [Stored(newId, NewFields(k, data, now))] && r == Ok(Get(c.docs, newId))
  {
    if Exists(c.docs, NameQuery(data)) {
      return Fail(NameTaken(k));
    }
    var f := NewFields(k, data, now);
    if Clash(c.docs, |c.docs|, f) {
      return Fail(MongoStore.DuplicateKey);
    }
    AppendKeepsUnique(c.docs, newId, f);
    GetAfterCreate(c.docs, f, newId);
    var d := c.Create(f, newId);
    r := Ok(d);
  }

  /** `getPlanById`. */
  function GetPlanById(docs: seq<Stored>, k: Catalog, id: string): (r: Result<Doc>)
    ensures r.Fail? <==> IndexOf(docs, id).None?
    ensures r.Fail? ==> r.error == NotFound(k)
    ensures r.Ok? ==> r.value.One? && r.value == Get(docs, id)
  {
    var d := Get(docs, id);
    if d.Missing? then Fail(NotFound(k)) else Ok(d)
  }

  /** `updatePlan`: an unknown plan is refused; empty data returns null and
      writes nothing; otherwise the data is written as given, with no name
      check of the service's own, and only the unique index can refuse it. */
  method UpdatePlan(c: Collection, k: Catalog, id: string, data: Fields, now: int) returns (r: Result<Doc>)
    requires c.Valid() && UniqueKeys(c.docs)
    modifies c
    ensures c.Valid() && UniqueKeys(c.docs)
    ensures IndexOf(old(c.docs), id).None? ==> r == Fail(NotFound(k)) && c.docs == old(c.docs)
    ensures IndexOf(old(c.docs), id).Some? ==>
              var i := IndexOf(old(c.docs), id).value;
              var f := Merge(old(c.docs)[i].fields, data, now);
              && (|data| == 0 ==> r == Ok(Missing) && c.docs == old(c.docs))
              && (|data| > 0 && Clash(old(c.docs), i, f) ==> r == Fail(MongoStore.DuplicateKey) && c.docs == old(c.docs))
              && (|data| > 0 && !Clash(old(c.docs), i, f) ==>
                    c.docs == old(c.docs)[i := Stored(id, f)] && r == Ok(Get(c.docs, id)))
  {
    var found := GetPlanById(c.docs, k, id);
    if found.Fail? {
      return Fail(found.error);
    }
    var i := IndexOf(c.docs, id).value;
    if |data| > 0 {
      var f := Merge(c.docs[i].fields, data, now);
      if Clash(c.docs, i, f) {
        return Fail(MongoStore.DuplicateKey);
      }
      ReplaceKeepsUnique(c.docs, i, id, f);
    }
    var d := c.Update(id, data, now);
    if |data| > 0 {
      UniqueIndex(c.docs, i, id);
    }
    r := Ok(d);
  }

  /** Deactivating touches neither index key, so it never clashes. */
  lemma DeactivateNeverClashes(docs: seq<Stored>, i: nat, now: int)
    requires UniqueKeys(docs) && i < |docs|
    ensures !Clash(docs, i, Merge(docs[i].fields, map["isActive" := Bool(false)], now))
  {
    var f := Merge(docs[i].fields, map["isActive" := Bool(false)], now);
    assert IndexValue(f, "organizationId") == IndexValue(docs[i].fields, "organizationId");
    assert IndexValue(f, "name") == IndexValue(docs[i].fields, "name");
  }

  /** `deactivatePlan`: an unknown plan is refused; otherwise the plan is
      kept with `isActive` false and returned as `get` now finds it. */
  method DeactivatePlan(c: Collection, k: Catalog, id: string, now: int) returns (r: Result<Doc>)
    requires c.Valid() && UniqueKeys(c.docs)
    modifies c
    ensures c.Valid() && UniqueKeys(c.docs)
    ensures IndexOf(old(c.docs), id).None? ==> r == Fail(NotFound(k)) && c.docs == old(c.docs)
    ensures IndexOf(old(c.docs), id).Some? ==>
              var i := IndexOf(old(c.docs), id).value;
              && c.docs == old(c.docs)[i := Stored(id, Merge(old(c.docs)[i].fields, map["isActive" := Bool(false)], now))]
              && r == Ok(Get(c.docs, id))
              && Raw(c.docs[i])["isActive"] == Bool(false)
  {
    var found := IndexOf(c.docs, id);
    if found.Some? {
      DeactivateNeverClashes(c.docs, found.value, now);
    }
    r := UpdatePlan(c, k, id, map["isActive" := Bool(false)], now);
  }

  /** The query of `findActivePlans`, or of `findByCategory` when a truthy
      category is given. */
  function ActiveQuery(org: string, category: Option<string>): Fields {
    if Present(category) then
      map["organizationId" := Str(org), "category" := Str(category.value), "isActive" := Bool(true)]
    else
      map["organizationId" := Str(org), "isActive" := Bool(true)]
  }

  /** The plans `getActivePlans` lists: the organization's active plans,
      and only those of the category when one is given. */
  predicate ActiveIn(s: Stored, org: string, category: Option<string>) {
    && "organizationId" in s.fields && s.fields["organizationId"] == Str(org)
    && "isActive" in s.fields && s.fields["isActive"] == Bool(true)
    && (Present(category) ==> "category" in s.fields && s.fields["category"] == Str(category.value))
  }

  /** `getActivePlans`: the selected plans, transformed. */
  function GetActivePlans(docs: seq<Stored>, org: string, category: Option<string>): (r: seq<Doc>)
    ensures |r| == |Matching(docs, ActiveQuery(org, category))|
  {
    Find(docs, ActiveQuery(org, category), 0, 0).value
  }

  /** A plan is listed exactly when it is active in the organization (and in
      the category, when one is given), each listed once per document. */
  lemma ActivePlansAreTheActiveOnes(docs: seq<Stored>, org: string, category: Option<string>)
    ensures forall s :: s in Matching(docs, ActiveQuery(org, category)) <==> s in docs && ActiveIn(s, org, category)
    ensures GetActivePlans(docs, org, category) == TransformAll(Matching(docs, ActiveQuery(org, category)))
  {
    var q := ActiveQuery(org, category);
    forall s | s in docs
      ensures Matches(s, q) <==> ActiveIn(s, org, category)
    {
      var raw := Raw(s);
      assert "organizationId" in q && "isActive" in q;
      assert forall key :: key in q ==> key != "_id";
      assert forall key :: key != "_id" ==> (key in raw <==> key in s.fields);
      assert forall key :: key != "_id" && key in s.fields ==> raw[key] == s.fields[key];
      if Present(category) {
        assert "category" in q;
      }
    }
  }
}
