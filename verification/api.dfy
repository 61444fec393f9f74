/** The client API (`src/services/api.ts`) over the in-memory backend: the
    operations that do more than forward to a service. */
module Api {
  import opened Results
  import opened JsValue
  import opened Records
  import opened MockData

  /** `noteAPI.getNote`: the first note with the id in the `getNotes`
      response; an unknown id throws. Nothing changes. */
  function GetNote(db: Db, id: string): (r: Outcome<Record>)
    ensures r.db == db
    ensures r.result.Err? <==> forall k :: 0 <= k < |db.notes| ==> !HasId(db.notes[k], id)
    ensures r.result.Ok? ==> exists i :: 0 <= i < |db.notes| && r.result.value == db.notes[i] && HasId(db.notes[i], id)
                                          && forall k :: 0 <= k < i ==> !HasId(db.notes[k], id)
  {
    match FindIndex(db.notes, id)
    case None => Outcome(db, Err("笔记不存在"))
    case Some(i) => Outcome(db, Ok(db.notes[i]))
  }

  /** `find` (the first record with the id) then `{ ...found, ...data }` without storing anything: the shared
      body of `updateTag` and `updateCategory`. */
  function Patched(rs: seq<Record>, id: string, data: Record, missing: string): (r: Result<Record>)
    ensures r.Err? <==> forall k :: 0 <= k < |rs| ==> !HasId(rs[k], id)
    ensures r.Ok? ==> exists i :: 0 <= i < |rs| && HasId(rs[i], id) && r.value == Spread(rs[i], data)
                                    && forall k :: 0 <= k < i ==> !HasId(rs[k], id)
  {
    match Find(rs, id)
    case None => Err(missing)
    case Some(x) => Ok(Spread(x, data))
  }

  /** `tagAPI.updateTag`: the first stored tag with the id overridden by `data`, which is
      returned but never written back; an unknown id throws. */
  function UpdateTag(db: Db, id: string, data: Record): (r: Outcome<Record>)
    ensures r.db == db
    ensures r.result.Err? <==> forall k :: 0 <= k < |db.tags| ==> !HasId(db.tags[k], id)
    ensures r.result.Ok? ==> exists i :: 0 <= i < |db.tags| && HasId(db.tags[i], id) && r.result.value == Spread(db.tags[i], data)
                                          && forall k :: 0 <= k < i ==> !HasId(db.tags[k], id)
  {
    Outcome(db, Patched(db.tags, id, data, "标签不存在"))
  }

  /** `tagAPI.deleteTag`: waits and returns; no tag is removed. */
  function DeleteTag(db: Db, id: string): (r: Outcome<()>)
    ensures r.db == db && r.result.Ok?
  {
    Outcome(db, Ok(()))
  }

  /** `categoryAPI.updateCategory`: as `updateTag`, on the categories. */
  function UpdateCategory(db: Db, id: string, data: Record): (r: Outcome<Record>)
    ensures r.db == db
    ensures r.result.Err? <==> forall k :: 0 <= k < |db.categories| ==> !HasId(db.categories[k], id)
    ensures r.result.Ok? ==> exists i :: 0 <= i < |db.categories| && HasId(db.categories[i], id)
                                          && r.result.value == Spread(db.categories[i], data)
                                          && forall k :: 0 <= k < i ==> !HasId(db.categories[k], id)
  {
    Outcome(db, Patched(db.categories, id, data, "分类不存在"))
  }

  /** `categoryAPI.deleteCategory`: waits and returns; no category is removed. */
  function DeleteCategory(db: Db, id: string): (r: Outcome<()>)
    ensures r.db == db && r.result.Ok?
  {
    Outcome(db, Ok(()))
  }

  /** `updateTag` with nothing to override hands back exactly the tag `find`
      returns, and an override that leaves `id` alone keeps the id. */
  lemma UpdateTagReadsFind(db: Db, id: string, data: Record)
    ensures UpdateTag(db, id, map[]).result
            == match Find(db.tags, id)
               case None => Err("标签不存在")
               case Some(t) => Ok(t)
    ensures "id" !in data && UpdateTag(db, id, data).result.Ok? ==> HasId(UpdateTag(db, id, data).result.value, id)
  {
    match Find(db.tags, id)
    case None =>
    case Some(t) =>
      assert Spread(t, map[]) == t;
  }

  /** After a successful update the note the API reads back is the updated
      one, provided the update leaves the id alone. */
  lemma GetAfterUpdate(db: Db, id: string, updates: Record, updated: string)
    requires "id" !in updates
    requires exists k :: 0 <= k < |db.notes| && HasId(db.notes[k], id)
    ensures var u := UpdateNote(db, id, updates, updated);
            GetNote(u.db, id).result == u.result
  {
    var i := FindIndex(db.notes, id).value;
    var u := UpdateNote(db, id, updates, updated);
    assert HasId(u.result.value, id);
    assert FindIndex(u.db.notes, id) == Some(i) by {
      FindIndexUpdate(db.notes, id, i, u.result.value);
    }
  }

  /** Replacing the first record with an id by another record with that id
      keeps it the first. */
  lemma {:induction false} FindIndexUpdate(rs: seq<Record>, id: string, i: nat, x: Record)
    requires FindIndex(rs, id) == Some(i) && HasId(x, id)
    ensures FindIndex(rs[i := x], id) == Some(i)
  {
    var r := rs[i := x];
    forall k | 0 <= k < i
      ensures !HasId(r[k], id)
    {
      assert r[k] == rs[k];
    }
    FirstIndexUnique(r, id, i);
  }

  /** The index a list's `findIndex` returns is the only one that is first. */
  lemma {:induction false} FirstIndexUnique(rs: seq<Record>, id: string, i: nat)
    requires i < |rs| && HasId(rs[i], id) && forall k :: 0 <= k < i ==> !HasId(rs[k], id)
    ensures FindIndex(rs, id) == Some(i)
  {
    if i > 0 {
      assert forall k :: 0 <= k < i - 1 ==> !HasId(rs[1..][k], id) by {
        forall k | 0 <= k < i - 1
          ensures !HasId(rs[1..][k], id)
        {
          assert rs[1..][k] == rs[k + 1];
        }
      }
      FirstIndexUnique(rs[1..], id, i - 1);
    }
  }
}
