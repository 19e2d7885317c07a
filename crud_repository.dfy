/** The base repository shared by the Mongo-backed features: one collection
    of documents, the reshaping of a document for callers, and the guarded
    update, soft delete and bulk operations. Documents are kept in natural
    (insertion) order; each carries its `_id` apart from its other fields. */
module CrudRepository {
  import opened Common
  import opened Pagination

  /** A field value as a lean document holds it. `Object` is any other
      object (a nested document or array) represented by its text. */
  datatype Value =
    | Undefined
    | Null
    | Bool(b: bool)
    | Num(n: int)
    | Str(s: string)
    | ObjectId(hex: string)
    | Date(ms: int)
    | Object(text: string)

  type Fields = map<string, Value>

  /** What `_transformDocument` is handed: null or undefined, an array of
      documents, or one document. */
  datatype Doc = Missing | Many(items: seq<Doc>) | One(fields: Fields)

  /** JavaScript truthiness of a field value. */
  predicate Truthy(v: Value) {
    match v
    case Undefined => false
    case Null => false
    case Bool(b) => b
    case Num(n) => n != 0
    case Str(s) => s != ""
    case _ => true
  }

  /** `v.toString()` for the values an `_id` can hold; a date prints its
      epoch milliseconds here. */
  function Text(v: Value): string {
    match v
    case Undefined => "undefined"
    case Null => "null"
    case Bool(b) => if b then "true" else "false"
    case Num(n) => IntToString(n)
    case Str(s) => s
    case ObjectId(h) => h
    case Date(ms) => IntToString(ms)
    case Object(t) => t
  }

  /** An ObjectId field becomes its hex string; every other value is kept. */
  function Plain(v: Value): (r: Value)
    ensures !r.ObjectId?
    ensures !v.ObjectId? ==> r == v
    ensures v.ObjectId? ==> r == Str(v.hex)
  {
    if v.ObjectId? then Str(v.hex) else v
  }

  /** The `_id` is renamed exactly when it is present and truthy. */
  predicate Renames(m: Fields) {
    "_id" in m && Truthy(m["_id"])
  }

  /** `__v` is dropped exactly when it is present and not undefined. */
  predicate DropsVersion(m: Fields) {
    "__v" in m && m["__v"] != Undefined
  }

  /** The first two steps of `_transformDocument` on one document: `_id`
      moved to `id` as a string, then `__v` deleted. */
  function Renamed(m: Fields): Fields {
    var m1 := if Renames(m) then (m - {"_id"})["id" := Str(Text(m["_id"]))] else m;
    if "__v" in m1 && m1["__v"] != Undefined then m1 - {"__v"} else m1
  }

  /** `_transformDocument`: falsy input passes through, an array is
      transformed element by element, and one document is renamed and has
      its ObjectId fields turned into strings. */
  function Transform(d: Doc): (r: Doc)
    ensures d.Missing? <==> r.Missing?
    ensures d.One? <==> r.One?
    ensures d.Many? ==> r.Many? && |r.items| == |d.items|
    decreases d
  {
    match d
    case Missing => Missing
    case Many(xs) => Many(seq(|xs|, i requires 0 <= i < |xs| => Transform(xs[i])))
    case One(m) =>
      var t := Renamed(m);
      One(map k | k in t :: Plain(t[k]))
  }

  /** The same, step by step as the repository does it: the array is mapped
      and the ObjectId fields are converted one key at a time. */
  method TransformDocument(d: Doc) returns (r: Doc)
    ensures r == Transform(d)
    decreases d
  {
    match d
    case Missing =>
      r := Missing;
    case Many(xs) =>
      var out: seq<Doc> := [];
      for i := 0 to |xs|
        invariant |out| == i
        invariant forall j :: 0 <= j < i ==> out[j] == Transform(xs[j])
      {
        var t := TransformDocument(xs[i]);
        out := out + [t];
      }
      r := Many(out);
    case One(m) =>
      var t := Renamed(m);
      var keys := t.Keys;
      var out := t;
      while keys != {}
        invariant keys <= t.Keys && out.Keys == t.Keys
        invariant forall k :: k in t.Keys ==> out[k] == if k in keys then t[k] else Plain(t[k])
        decreases |keys|
      {
        var k :| k in keys;
        if out[k].ObjectId? {
          out := out[k := Str(out[k].hex)];
        }
        keys := keys - {k};
      }
      assert out == map k | k in t :: Plain(t[k]);
      r := One(out);
  }

  /** The fields of a transformed document: a truthy `_id` is gone and its
      text is under `id`, a falsy one stays; `__v` is gone unless it was
      undefined; every other field is kept, with ObjectIds as strings; no
      ObjectId is left. */
  lemma TransformFields(m: Fields)
    ensures var r := Transform(One(m)).fields;
            && ("_id" in r <==> "_id" in m && !Truthy(m["_id"]))
            && ("id" in r <==> "id" in m || Renames(m))
            && (Renames(m) ==> r["id"] == Str(Text(m["_id"])))
            && ("__v" in r <==> "__v" in m && m["__v"] == Undefined)
            && (forall k :: k in r ==> k in m || k == "id")
            && (forall k :: k in m && k != "_id" && k != "__v" && !(k == "id" && Renames(m)) ==> k in r && r[k] == Plain(m[k]))
            && (forall k :: k in r ==> !r[k].ObjectId?)
  {
  }

  /** A transformed document has no truthy `_id`, no defined `__v` and no
      ObjectId, so transforming it again changes nothing. */
  lemma {:induction false} TransformIdempotent(d: Doc)
    ensures Transform(Transform(d)) == Transform(d)
    decreases d
  {
    match d
    case Missing =>
    case Many(xs) =>
      var ys := Transform(d).items;
      forall i | 0 <= i < |xs|
        ensures Transform(ys[i]) == ys[i]
      {
        TransformIdempotent(xs[i]);
      }
    case One(m) =>
      var r := Transform(d).fields;
      TransformFields(m);
      assert !Renames(r);
      assert !DropsVersion(r);
      assert Renamed(r) == r;
  }

  // ---------------------------------------------------------------------
  // The collection

  /** A stored document: its id and its other fields. */
  datatype Stored = Stored(id: string, fields: Fields)

  /** The lean document the driver hands back: the fields with `_id`. */
  function Raw(s: Stored): (r: Fields)
    ensures "_id" in r && r["_id"] == ObjectId(s.id)
  {
    s.fields["_id" := ObjectId(s.id)]
  }

  /** An equality filter: every key of the filter holds exactly that value. */
  predicate Matches(s: Stored, filter: Fields) {
    forall k :: k in filter ==> k in Raw(s) && Raw(s)[k] == filter[k]
  }

  /** The position of the document with a given id, if there is one. */
  function IndexOf(docs: seq<Stored>, id: string): (r: Option<nat>)
    ensures r.None? <==> forall i :: 0 <= i < |docs| ==> docs[i].id != id
    ensures r.Some? ==> r.value < |docs| && docs[r.value].id == id
  {
    if docs == [] then None
    else if docs[|docs| - 1].id == id then Some(|docs| - 1)
    else IndexOf(docs[..|docs| - 1], id)
  }

  /** The update `findByIdAndUpdate` applies: the data over the stored
      fields, with `updatedAt` stamped. */
  function Merge(fields: Fields, data: Fields, now: int): (r: Fields)
    ensures r.Keys == fields.Keys + data.Keys + {"updatedAt"}
    ensures r["updatedAt"] == Date(now)
    ensures forall k :: k in data && k != "updatedAt" ==> r[k] == data[k]
    ensures forall k :: k in fields && k !in data && k != "updatedAt" ==> r[k] == fields[k]
  {
    fields + data + map["updatedAt" := Date(now)]
  }

  /** The documents a filter selects, in natural order. */
  function Matching(docs: seq<Stored>, filter: Fields): (r: seq<Stored>)
    ensures |r| <= |docs|
    ensures forall s :: s in r <==> s in docs && Matches(s, filter)
  {
    if docs == [] then []
    else
      var rest := Matching(docs[..|docs| - 1], filter);
      var last := docs[|docs| - 1];
      assert forall s :: s in docs <==> s in docs[..|docs| - 1] || s == last;
      if Matches(last, filter) then rest + [last] else rest
  }

  /** The documents a filter does not select, in natural order. */
  function Remaining(docs: seq<Stored>, filter: Fields): (r: seq<Stored>)
    ensures |r| + |Matching(docs, filter)| == |docs|
    ensures forall s :: s in r <==> s in docs && !Matches(s, filter)
  {
    if docs == [] then []
    else
      var rest := Remaining(docs[..|docs| - 1], filter);
      var last := docs[|docs| - 1];
      assert forall s :: s in docs <==> s in docs[..|docs| - 1] || s == last;
      if Matches(last, filter) then rest else rest + [last]
  }

  /** Every selected document with the update applied. */
  function UpdatedAll(docs: seq<Stored>, filter: Fields, data: Fields, now: int): (r: seq<Stored>)
    ensures |r| == |docs|
    ensures forall i :: 0 <= i < |docs| ==> r[i].id == docs[i].id
    ensures forall i :: 0 <= i < |docs| && !Matches(docs[i], filter) ==> r[i] == docs[i]
    ensures forall i :: 0 <= i < |docs| && Matches(docs[i], filter) ==> r[i].fields == Merge(docs[i].fields, data, now)
  {
    seq(|docs|, i requires 0 <= i < |docs| =>
      if Matches(docs[i], filter) then Stored(docs[i].id, Merge(docs[i].fields, data, now)) else docs[i])
  }

  /** `modifiedCount`: the selected documents that the update changes. */
  function ModifiedCount(docs: seq<Stored>, filter: Fields, data: Fields, now: int): (r: nat)
  {
    if docs == [] then 0
    else
      var last := docs[|docs| - 1];
      ModifiedCount(docs[..|docs| - 1], filter, data, now)
        + (if Matches(last, filter) && Merge(last.fields, data, now) != last.fields then 1 else 0)
  }

  /** At most the selected documents are modified, and all of them are when
      none already carries this very update stamp. */
  lemma {:induction false} ModifiedCountBounds(docs: seq<Stored>, filter: Fields, data: Fields, now: int)
    ensures ModifiedCount(docs, filter, data, now) <= |Matching(docs, filter)|
    ensures (forall i :: 0 <= i < |docs| ==> "updatedAt" !in docs[i].fields || docs[i].fields["updatedAt"] != Date(now))
            ==> ModifiedCount(docs, filter, data, now) == |Matching(docs, filter)|
  {
    if docs != [] {
      var init := docs[..|docs| - 1];
      ModifiedCountBounds(init, filter, data, now);
      var last := docs[|docs| - 1];
      if "updatedAt" !in last.fields || last.fields["updatedAt"] != Date(now) {
        assert Merge(last.fields, data, now)["updatedAt"] == Date(now);
      }
      if (forall i :: 0 <= i < |docs| ==> "updatedAt" !in docs[i].fields || docs[i].fields["updatedAt"] != Date(now)) {
        assert forall i :: 0 <= i < |init| ==> init[i] == docs[i];
      }
    }
  }

  /** Ids are unique within a collection. */
  predicate UniqueIds(docs: seq<Stored>) {
    forall i, j :: 0 <= i < j < |docs| ==> docs[i].id != docs[j].id
  }

  /** `findOne(filter)`: the first selected document, transformed, or null. */
  function FindOne(docs: seq<Stored>, filter: Fields): (r: Doc)
    ensures r.Missing? <==> Matching(docs, filter) == []
  {
    var hits := Matching(docs, filter);
    if hits == [] then Missing else Transform(One(Raw(hits[0])))
  }

  /** `get(id)`: the document with that id, transformed, or null. */
  function Get(docs: seq<Stored>, id: string): (r: Doc)
    ensures r.Missing? <==> IndexOf(docs, id).None?
  {
    match IndexOf(docs, id)
    case None => Missing
    case Some(i) => Transform(One(Raw(docs[i])))
  }

  /** A created document is what `get` then finds under its id. */
  lemma GetAfterCreate(docs: seq<Stored>, data: Fields, id: string)
    requires IndexOf(docs, id).None?
    ensures Get(docs + [Stored(id, data)], id) == Transform(One(Raw(Stored(id, data))))
    ensures forall other :: other != id ==> Get(docs + [Stored(id, data)], other) == Get(docs, other)
  {
    var after := docs + [Stored(id, data)];
    assert after[..|after| - 1] == docs;
  }

  /** `exists(filter)`: whether `findOne` returned a document. */
  function Exists(docs: seq<Stored>, filter: Fields): bool {
    FindOne(docs, filter) != Missing
  }

  /** `exists` holds exactly when some document matches the filter. */
  lemma ExistsIff(docs: seq<Stored>, filter: Fields)
    ensures Exists(docs, filter) <==> exists i :: 0 <= i < |docs| && Matches(docs[i], filter)
  {
    var hits := Matching(docs, filter);
    if hits != [] {
      assert hits[0] in docs;
    } else {
      forall i | 0 <= i < |docs|
        ensures !Matches(docs[i], filter)
      {
        assert docs[i] in docs;
      }
    }
  }

  /** Each document transformed for the caller. */
  function TransformAll(docs: seq<Stored>): (r: seq<Doc>)
    ensures |r| == |docs|
    ensures forall i :: 0 <= i < |docs| ==> r[i] == Transform(One(Raw(docs[i])))
  {
    seq(|docs|, i requires 0 <= i < |docs| => Transform(One(Raw(docs[i]))))
  }

  /** A negative `skip` is refused by the database. */
  const NegativeSkip := Err("skip requires a non-negative number")

  /** `find(filter, { limit, offset })`: the selected documents with `skip`
      applied first and then `limit` (0 meaning none; a negative limit
      counts like its absolute value), each transformed. */
  function Find(docs: seq<Stored>, filter: Fields, limit: int, offset: int): (r: Result<seq<Doc>>)
    ensures r.Fail? <==> offset < 0
    ensures r.Ok? && limit != 0 ==> |r.value| <= if limit < 0 then -limit else limit
    ensures r.Ok? && limit != 0 ==>
              var n := if limit < 0 then -limit else limit;
              r.value == TransformAll(JsSlice(Matching(docs, filter), offset, offset + n))
    ensures r.Ok? && limit == 0 ==>
              r.value == TransformAll(JsSlice(Matching(docs, filter), offset, |Matching(docs, filter)|))
  {
    if offset < 0 then Fail(NegativeSkip)
    else
      var hits := Matching(docs, filter);
      var skipped := if offset <= |hits| then hits[offset..] else [];
      var n := if limit < 0 then -limit else limit;
      var taken := if limit != 0 && n < |skipped| then skipped[..n] else skipped;
      SkipTakeIsSlice(hits, offset, if limit != 0 then n else |hits|);
      Ok(TransformAll(taken))
  }

  datatype PageResult = PageResult(data: seq<Doc>, pagination: Page)

  /** `findWithPagination`: the page `page` of `limit` selected documents
      and its metadata over all of them. The offset `(page - 1) * limit` is
      negative, and refused, for a page before the first with a positive
      limit or a page past the first with a negative one. */
  function FindWithPagination(docs: seq<Stored>, filter: Fields, page: int, limit: int): (r: Result<PageResult>)
    requires limit != 0
    ensures r.Fail? <==> (limit > 0 && page < 1) || (limit < 0 && page > 1)
    ensures r.Fail? ==> r.error == NegativeSkip
    ensures r.Ok? ==> r.value.pagination == Paginate(page, limit, |Matching(docs, filter)|)
    ensures r.Ok? ==> |r.value.data| <= if limit < 0 then -limit else limit
  {
    NegativeOffset(page, limit);
    var data :- Find(docs, filter, limit, Offset(page, limit));
    Ok(PageResult(data, Paginate(page, limit, |Matching(docs, filter)|)))
  }

  /** The database's skip and limit pick the same documents as slicing the
      selected list by page, the way the in-memory reports page theirs. */
  lemma PaginationIsThePageSlice(docs: seq<Stored>, filter: Fields, page: int, limit: int)
    requires limit > 0 && page >= 1
    ensures FindWithPagination(docs, filter, page, limit).Ok?
    ensures FindWithPagination(docs, filter, page, limit).value.data
         == TransformAll(PageOf(Matching(docs, filter), page, limit))
  {
    var hits := Matching(docs, filter);
    var offset := Offset(page, limit);
    MulMono(0, page - 1, limit);
    var skipped := if offset <= |hits| then hits[offset..] else [];
    var taken := if limit < |skipped| then skipped[..limit] else skipped;
    assert Find(docs, filter, limit, offset) == Ok(TransformAll(taken));
    assert PageOf(hits, page, limit) == JsSlice(hits, offset, offset + limit);
    SkipTakeIsSlice(hits, offset, limit);
  }

  /** Skipping `offset` rows and taking `limit` of the rest is the slice
      from `offset` to `offset + limit`. */
  lemma SkipTakeIsSlice<T>(s: seq<T>, offset: nat, limit: nat)
    ensures var skipped := if offset <= |s| then s[offset..] else [];
            (if limit < |skipped| then skipped[..limit] else skipped) == JsSlice(s, offset, offset + limit)
  {
    if offset + limit < |s| {
      assert s[offset..][..limit] == s[offset..offset + limit];
    }
  }

  /** One collection of documents. */
  class Collection {
    var docs: seq<Stored>

    predicate Valid()
      reads this
    {
      UniqueIds(docs)
    }

    constructor ()
      ensures docs == [] && Valid()
    {
      docs := [];
    }

    /** `create(data)`: the document is stored under the fresh id the
        driver assigns and comes back transformed. */
    method Create(data: Fields, id: string) returns (r: Doc)
      requires Valid() && IndexOf(docs, id).None?
      modifies this
      ensures Valid()
      ensures docs == old(docs) + [Stored(id, data)]
      ensures r == Transform(One(Raw(Stored(id, data))))
    {
      docs := docs + [Stored(id, data)];
      r := Transform(One(Raw(Stored(id, data))));
    }

    /** `update(id, data)`: empty data returns null and writes nothing; an
        unknown id returns null; otherwise the data is merged in, `updatedAt`
        is stamped and the transformed new document is returned. */
    method Update(id: string, data: Fields, now: int) returns (r: Doc)
      requires Valid()
      modifies this
      ensures Valid()
      ensures |data| == 0 || IndexOf(old(docs), id).None? ==> r == Missing && docs == old(docs)
      ensures |data| > 0 && IndexOf(old(docs), id).Some? ==>
                var i := IndexOf(old(docs), id).value;
                && docs == old(docs)[i := Stored(id, Merge(old(docs)[i].fields, data, now))]
                && r == Transform(One(Raw(docs[i])))
    {
      if |data| == 0 {
        return Missing;
      }
      var found := IndexOf(docs, id);
      if found.None? {
        return Missing;
      }
      var i := found.value;
      docs := docs[i := Stored(id, Merge(docs[i].fields, data, now))];
      r := Transform(One(Raw(docs[i])));
    }

    /** `destroy(id)`: a soft delete. The document stays, with `isActive`
        false and `updatedAt` stamped, and comes back untransformed. */
    method Destroy(id: string, now: int) returns (r: Doc)
      requires Valid()
      modifies this
      ensures Valid()
      ensures IndexOf(old(docs), id).None? ==> r == Missing && docs == old(docs)
      ensures IndexOf(old(docs), id).Some? ==>
                var i := IndexOf(old(docs), id).value;
                && docs == old(docs)[i := Stored(id, Merge(old(docs)[i].fields, map["isActive" := Bool(false)], now))]
                && r == One(Raw(docs[i]))
    {
      var found := IndexOf(docs, id);
      if found.None? {
        return Missing;
      }
      var i := found.value;
      docs := docs[i := Stored(id, Merge(docs[i].fields, map["isActive" := Bool(false)], now))];
      r := One(Raw(docs[i]));
    }

    /** `hardDelete(id)`: removes the document; true exactly when there was one. */
    method HardDelete(id: string) returns (removed: bool)
      requires Valid()
      modifies this
      ensures Valid()
      ensures removed <==> IndexOf(old(docs), id).Some?
      ensures !removed ==> docs == old(docs)
      ensures removed ==> var i := IndexOf(old(docs), id).value; docs == old(docs)[..i] + old(docs)[i + 1..]
    {
      var found := IndexOf(docs, id);
      if found.None? {
        return false;
      }
      var i := found.value;
      docs := docs[..i] + docs[i + 1..];
      removed := true;
    }

    /** `updateMany(filter, data)`: with empty data or an empty filter it
        returns 0 and writes nothing; otherwise every selected document gets
        the update, and the count of those it changed is returned. */
    method UpdateMany(filter: Fields, data: Fields, now: int) returns (count: nat)
      requires Valid()
      modifies this
      ensures Valid()
      ensures |data| == 0 || |filter| == 0 ==> count == 0 && docs == old(docs)
      ensures |data| > 0 && |filter| > 0 ==>
                docs == UpdatedAll(old(docs), filter, data, now)
                && count == ModifiedCount(old(docs), filter, data, now)
    {
      if |data| == 0 || |filter| == 0 {
        return 0;
      }
      count := ModifiedCount(docs, filter, data, now);
      docs := UpdatedAll(docs, filter, data, now);
    }

    /** `deleteMany(filter)`: an empty filter throws; otherwise every
        selected document is removed and their number returned. */
    method DeleteMany(filter: Fields) returns (r: Result<nat>)
      requires Valid()
      modifies this
      ensures Valid()
      ensures |filter| == 0 ==> r == Fail(Err("Filter required for deleteMany")) && docs == old(docs)
      ensures |filter| > 0 ==> docs == Remaining(old(docs), filter) && r == Ok(|Matching(old(docs), filter)|)
    {
      if |filter| == 0 {
        return Fail(Err("Filter required for deleteMany"));
      }
      r := Ok(|Matching(docs, filter)|);
      RemainingKeepsIds(docs, filter);
      docs := Remaining(docs, filter);
    }

    /** `insertMany(dataArray)`: a non-array or an empty array returns []
        and writes nothing; otherwise the documents are appended under the
        fresh ids the driver assigns, and returned with their `_id`. */
    method InsertMany(data: Option<seq<Fields>>, ids: seq<string>) returns (r: seq<Fields>)
      requires Valid()
      requires data.Some? && |data.value| > 0 ==>
                 |ids| == |data.value| && UniqueIds(Fresh(data.value, ids))
                 && forall i, j :: 0 <= i < |docs| && 0 <= j < |ids| ==> docs[i].id != ids[j]
      modifies this
      ensures Valid()
      ensures data.None? || |data.value| == 0 ==> r == [] && docs == old(docs)
      ensures data.Some? && |data.value| > 0 ==>
                docs == old(docs) + Fresh(data.value, ids)
                && |r| == |data.value|
                && forall i :: 0 <= i < |r| ==> r[i] == Raw(Stored(ids[i], data.value[i]))
    {
      if data.None? || |data.value| == 0 {
        return [];
      }
      var added := Fresh(data.value, ids);
      docs := docs + added;
      r := seq(|added|, i requires 0 <= i < |added| => Raw(added[i]));
    }
  }

  /** The new documents of an insert: each data item under its id. */
  function Fresh(data: seq<Fields>, ids: seq<string>): (r: seq<Stored>)
    requires |ids| == |data|
    ensures |r| == |data|
    ensures forall i :: 0 <= i < |r| ==> r[i] == Stored(ids[i], data[i])
  {
    seq(|data|, i requires 0 <= i < |data| => Stored(ids[i], data[i]))
  }

  /** Removing documents keeps the ids unique. */
  lemma {:induction false} RemainingKeepsIds(docs: seq<Stored>, filter: Fields)
    requires UniqueIds(docs)
    ensures UniqueIds(Remaining(docs, filter))
  {
    if docs != [] {
      var init, last := docs[..|docs| - 1], docs[|docs| - 1];
      RemainingKeepsIds(init, filter);
      var rest := Remaining(init, filter);
      if !Matches(last, filter) {
        forall i | 0 <= i < |rest| ensures rest[i].id != last.id {
          assert rest[i] in rest;
          var k :| 0 <= k < |init| && init[k] == rest[i];
          assert docs[k] == init[k];
        }
        var after := rest + [last];
        assert after == Remaining(docs, filter);
        forall i, j | 0 <= i < j < |after| ensures after[i].id != after[j].id {
          if j < |rest| {
            assert after[i] == rest[i] && after[j] == rest[j];
          } else {
            assert after[i] == rest[i] && after[j] == last;
          }
        }
      }
    }
  }

  /** A soft-deleted document is still there, found under its id, and now
      inactive. */
  lemma DestroyKeepsDocument(docs: seq<Stored>, id: string, now: int)
    requires UniqueIds(docs) && IndexOf(docs, id).Some?
    ensures var i := IndexOf(docs, id).value;
            var after := docs[i := Stored(id, Merge(docs[i].fields, map["isActive" := Bool(false)], now))];
            && |after| == |docs|
            && IndexOf(after, id) == Some(i)
            && Raw(after[i])["isActive"] == Bool(false)
  {
    var i := IndexOf(docs, id).value;
    var after := docs[i := Stored(id, Merge(docs[i].fields, map["isActive" := Bool(false)], now))];
    UniqueIndex(after, i, id);
  }

  /** With unique ids the document with an id is found at its position. */
  lemma UniqueIndex(docs: seq<Stored>, i: nat, id: string)
    requires UniqueIds(docs) && i < |docs| && docs[i].id == id
    ensures IndexOf(docs, id) == Some(i)
  {
  }

  /** After `deleteMany` no document matches the filter, and every document
      that did not match is still there. */
  lemma DeleteManyLeavesNoMatch(docs: seq<Stored>, filter: Fields)
    ensures forall s :: s in Remaining(docs, filter) ==> !Matches(s, filter)
    ensures forall s :: s in docs && !Matches(s, filter) ==> s in Remaining(docs, filter)
    ensures Matching(Remaining(docs, filter), filter) == []
  {
    NoneMatch(Remaining(docs, filter), filter);
  }

  lemma {:induction false} NoneMatch(docs: seq<Stored>, filter: Fields)
    requires forall s :: s in docs ==> !Matches(s, filter)
    ensures Matching(docs, filter) == []
  {
    if docs != [] {
      assert docs[|docs| - 1] in docs;
      NoneMatch(docs[..|docs| - 1], filter);
    }
  }
}
