/** Lists of records keyed by their `id` field: the lookups and removals the
    stores and the services share. */
module Records {
  import opened Results
  import opened JsValue

  /** `rs.findIndex(r => r.id === id)`, with `None` for `-1`. */
  function FindIndex(rs: seq<Record>, id: string): (r: Option<nat>)
    ensures r.Some? ==> r.value < |rs| && HasId(rs[r.value], id)
    ensures r.Some? ==> forall k :: 0 <= k < r.value ==> !HasId(rs[k], id)
    ensures r.None? <==> forall k :: 0 <= k < |rs| ==> !HasId(rs[k], id)
  {
    if |rs| == 0 then None
    else if HasId(rs[0], id) then Some(0)
    else
      match FindIndex(rs[1..], id)
      case None => None
      case Some(i) => Some(i + 1)
  }

  /** `rs.find(r => r.id === id)`: the first record with the id. */
  function Find(rs: seq<Record>, id: string): (r: Option<Record>)
    ensures r.Some? <==> exists k :: 0 <= k < |rs| && HasId(rs[k], id)
    ensures r.Some? ==> r.value in rs && HasId(r.value, id)
    ensures r.Some? ==> exists i :: 0 <= i < |rs| && r.value == rs[i] && HasId(rs[i], id)
                                    && forall k :: 0 <= k < i ==> !HasId(rs[k], id)
  {
    match FindIndex(rs, id)
    case None => None
    case Some(i) => Some(rs[i])
  }

  /** `rs.filter(r => r.id !== id)`. */
  function DropId(rs: seq<Record>, id: string): (r: seq<Record>)
    ensures |r| <= |rs|
    ensures forall x :: x in r <==> x in rs && !HasId(x, id)
  {
    if |rs| == 0 then []
    else
      var rest := DropId(rs[1..], id);
      assert rs == [rs[0]] + rs[1..];
      if HasId(rs[0], id) then rest else [rs[0]] + rest
  }

  /** `filter` keeps order and multiplicity: it keeps nothing of nothing,
      keeps one record exactly when its id differs, and distributes over
      concatenation. These three laws determine `DropId` completely. */
  lemma {:induction false} DropIdLaws(a: seq<Record>, b: seq<Record>, x: Record, id: string)
    ensures DropId([], id) == []
    ensures DropId([x], id) == if HasId(x, id) then [] else [x]
    ensures DropId(a + b, id) == DropId(a, id) + DropId(b, id)
    decreases |a|
  {
    assert [x][1..] == [];
    if |a| == 0 {
      assert a + b == b;
    } else {
      assert (a + b)[1..] == a[1..] + b;
      DropIdLaws(a[1..], b, x, id);
    }
  }

  /** Every record as a JavaScript object value. */
  function Objs(rs: seq<Record>): (r: seq<Value>)
    ensures |r| == |rs| && forall k :: 0 <= k < |r| ==> r[k] == Obj(rs[k])
  {
    if |rs| == 0 then [] else [Obj(rs[0])] + Objs(rs[1..])
  }

  /** No two records share an id. */
  predicate UniqueIds(rs: seq<Record>) {
    forall i, j :: 0 <= i < j < |rs| ==> Field(rs[i], "id") != Field(rs[j], "id")
  }

  /** With ids unique, removing the first record with an id is the same as
      removing every record with it. */
  lemma RemoveFirstIsDropAll(rs: seq<Record>, id: string, i: nat)
    requires UniqueIds(rs) && FindIndex(rs, id) == Some(i)
    ensures rs[..i] + rs[i + 1..] == DropId(rs, id)
  {
    var before, at, after := rs[..i], [rs[i]], rs[i + 1..];
    assert rs == before + at + after;
    NoneAround(rs, id, i, before, after);
    DropIdLaws(before + at, after, rs[i], id);
    assert DropId(rs, id) == DropId(before + at, id) + DropId(after, id);
    DropIdLaws(before, at, rs[i], id);
    assert DropId(before + at, id) == DropId(before, id);
    DropNone(before, id);
    DropNone(after, id);
    assert DropId(rs, id) == before + after;
  }

  /** Only the record at the first match carries the id: none before it by
      the search, none after it by uniqueness. */
  lemma NoneAround(rs: seq<Record>, id: string, i: nat, before: seq<Record>, after: seq<Record>)
    requires UniqueIds(rs) && FindIndex(rs, id) == Some(i)
    requires before == rs[..i] && after == rs[i + 1..]
    ensures forall k :: 0 <= k < |before| ==> !HasId(before[k], id)
    ensures forall k :: 0 <= k < |after| ==> !HasId(after[k], id)
  {
    forall k | 0 <= k < |after|
      ensures !HasId(after[k], id)
    {
      assert after[k] == rs[i + 1 + k];
      assert Field(rs[i], "id") != Field(rs[i + 1 + k], "id");
    }
  }

  /** Dropping an id no record carries changes nothing. */
  lemma {:induction false} DropNone(rs: seq<Record>, id: string)
    requires forall k :: 0 <= k < |rs| ==> !HasId(rs[k], id)
    ensures DropId(rs, id) == rs
  {
    if |rs| > 0 {
      DropNone(rs[1..], id);
      assert [rs[0]] + rs[1..] == rs;
    }
  }
}
