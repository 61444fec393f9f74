/** The effect of the three Slate transforms the block command uses, stated on
    the two-level document: lifting a list item out of its container
    (`unwrapNodes` with `split: true`), overwriting one property of the lowest
    block (`setNodes`), and wrapping a top-level text block in a fresh container
    (`wrapNodes`). */
module SlateTransforms {
  import opened Results
  import opened EditorTypes
  import opened Document

  /** A document together with the index of the top-level block the edit
      point moved to. */
  datatype Moved = Moved(doc: Doc, at: nat)

  /** Lifts item `j` out of the container at `i`. An only child replaces its
      container; a first or last child moves before or after it; a middle
      child splits the container in two, both halves keeping its kind and
      align. */
  /** The part of a container left before a lifted item `j`: nothing for the
      first item, otherwise a container of the same kind and align. */
  function Before(c: Block, j: nat): (r: Doc)
    requires c.Container? && j < |c.items|
    ensures |r| == (if j == 0 then 0 else 1)
  {
    if j == 0 then [] else [Container(c.kind, c.align, c.items[..j])]
  }

  /** The part of a container left after a lifted item `j`. */
  function After(c: Block, j: nat): (r: Doc)
    requires c.Container? && j < |c.items|
    ensures |r| == (if j + 1 < |c.items| then 1 else 0)
  {
    if j + 1 < |c.items| then [Container(c.kind, c.align, c.items[j + 1..])] else []
  }

  function LiftItem(doc: Doc, i: nat, j: nat): (r: Moved)
    requires i < |doc| && doc[i].Container? && j < |doc[i].items|
    ensures r.doc == (doc[..i] + Before(doc[i], j)) + [Leaf(doc[i].items[j])] + (After(doc[i], j) + doc[i + 1..])
    ensures r.at == i + |Before(doc[i], j)|
    ensures r.at < |r.doc| && r.doc[r.at] == Leaf(doc[i].items[j])
    ensures r.at == i || r.at == i + 1
    ensures Leaves(r.doc) == Leaves(doc)
    ensures LeafIndex(r.doc, Top(r.at)) == LeafIndex(doc, Nested(i, j))
    ensures r.doc[..i] == doc[..i]
    ensures |doc[i].items| == 1 ==> |r.doc| == |doc| && r.at == i
    ensures r.doc[r.at + 1..] == (if j + 1 < |doc[i].items|
                                   then [Container(doc[i].kind, doc[i].align, doc[i].items[j + 1..])]
                                   else []) + doc[i + 1..]
    ensures WellFormed(doc) ==> WellFormed(r.doc)
    ensures Normalized(doc) ==> forall k :: 0 <= k < |r.doc| && k != r.at ==> BlockNormalized(r.doc[k])
  {
    var c := doc[i];
    var before := Before(c, j);
    var after := After(c, j);
    var pre := doc[..i] + before;
    var post := after + doc[i + 1..];
    var d := pre + [Leaf(c.items[j])] + post;
    LiftLeaves(doc, i, j, before, after);
    LiftShape(doc, i, j, before, after);
    assert d[..|pre|] == pre && d[|pre| + 1..] == post && d[..i] == doc[..i];
    LeavesAppend(doc[..i], before);
    Moved(d, |pre|)
  }

  lemma LiftLeaves(doc: Doc, i: nat, j: nat, before: Doc, after: Doc)
    requires i < |doc| && doc[i].Container? && j < |doc[i].items|
    requires var c := doc[i];
             && before == (if j == 0 then [] else [Container(c.kind, c.align, c.items[..j])])
             && after == (if j + 1 < |c.items| then [Container(c.kind, c.align, c.items[j + 1..])] else [])
    ensures Leaves(before) == doc[i].items[..j]
    ensures Leaves((doc[..i] + before) + [Leaf(doc[i].items[j])] + (after + doc[i + 1..])) == Leaves(doc)
  {
    var c := doc[i];
    var mid := before + [Leaf(c.items[j])] + after;
    MidLeaves(c, j, before, after);
    Regroup(doc[..i], before, Leaf(c.items[j]), after, doc[i + 1..]);
    LeavesSplice(doc, i, mid);
    LeavesAround(doc, i);
  }

  lemma MidLeaves(c: Block, j: nat, before: Doc, after: Doc)
    requires c.Container? && j < |c.items|
    requires before == (if j == 0 then [] else [Container(c.kind, c.align, c.items[..j])])
    requires after == (if j + 1 < |c.items| then [Container(c.kind, c.align, c.items[j + 1..])] else [])
    ensures Leaves(before) == c.items[..j]
    ensures Leaves(before + [Leaf(c.items[j])] + after) == BlockLeaves(c)
  {
    var x := Leaf(c.items[j]);
    HalfLeaves(c, j, before, after);
    LeavesAppend(before + [x], after);
    LeavesAppend(before, [x]);
    LeavesSingle(x);
    SplitAt(c.items, j);
  }

  /** The halves left around a lifted item hold the items before and after it. */
  lemma HalfLeaves(c: Block, j: nat, before: Doc, after: Doc)
    requires c.Container? && j < |c.items|
    requires before == (if j == 0 then [] else [Container(c.kind, c.align, c.items[..j])])
    requires after == (if j + 1 < |c.items| then [Container(c.kind, c.align, c.items[j + 1..])] else [])
    ensures Leaves(before) == c.items[..j] && Leaves(after) == c.items[j + 1..]
  {
    if j > 0 { LeavesSingle(before[0]); }
    if j + 1 < |c.items| { LeavesSingle(after[0]); }
  }

  lemma SplitAt<T>(s: seq<T>, j: nat)
    requires j < |s|
    ensures s[..j] + [s[j]] + s[j + 1..] == s
  {
  }

  lemma Regroup<T>(a: seq<T>, b: seq<T>, x: T, c: seq<T>, e: seq<T>)
    ensures (a + b) + [x] + (c + e) == a + (b + [x] + c) + e
  {
  }

  lemma LiftShape(doc: Doc, i: nat, j: nat, before: Doc, after: Doc)
    requires i < |doc| && doc[i].Container? && j < |doc[i].items|
    requires var c := doc[i];
             && before == (if j == 0 then [] else [Container(c.kind, c.align, c.items[..j])])
             && after == (if j + 1 < |c.items| then [Container(c.kind, c.align, c.items[j + 1..])] else [])
    ensures var d := (doc[..i] + before) + [Leaf(doc[i].items[j])] + (after + doc[i + 1..]);
            && (WellFormed(doc) ==> WellFormed(d))
            && (Normalized(doc) ==> forall k :: 0 <= k < |d| && k != i + |before| ==> BlockNormalized(d[k]))
  {
    var c := doc[i];
    var d := (doc[..i] + before) + [Leaf(c.items[j])] + (after + doc[i + 1..]);
    forall k | 0 <= k < |d|
      ensures WellFormed(doc) ==> BlockWellFormed(d[k])
      ensures Normalized(doc) && k != i + |before| ==> BlockNormalized(d[k])
    {
      if k < i {
        assert d[k] == doc[k];
      } else if k < i + |before| {
        assert d[k] == before[0];
      } else if k == i + |before| {
        assert d[k] == Leaf(c.items[j]);
      } else if k < i + |before| + 1 + |after| {
        assert d[k] == after[0];
      } else {
        assert d[k] == doc[k - |before| - |after|];
      }
    }
  }

  /** The properties `setNodes` can write: the element type, or its align
      (`None` deletes the key, as writing `undefined` does). */
  datatype Props = SetKind(kind: string) | SetAlign(align: Option<Align>)

  /** Writes one key of an element; the other key and the spans are kept. */
  function Apply(e: Element, props: Props): (r: Element)
    ensures r.spans == e.spans
    ensures props.SetKind? ==> r.kind == props.kind && r.align == e.align
    ensures props.SetAlign? ==> r.align == props.align && r.kind == e.kind
  {
    match props
    case SetKind(k) => e.(kind := k)
    case SetAlign(a) => e.(align := a)
  }

  /** Replaces the lowest block at `p` by `x`: that one element changes, every
      other node (its container included) is untouched. */
  function ReplaceAt(doc: Doc, p: Path, x: Element): (r: Doc)
    requires ValidPath(doc, p)
    ensures |r| == |doc| && ValidPath(r, p) && ElementAt(r, p) == x
    ensures r[p.index] == match p
      case Top(_) => Leaf(x)
      case Nested(_, j) => doc[p.index].(items := doc[p.index].items[j := x])
    ensures LeafIndex(r, p) == LeafIndex(doc, p)
    ensures Leaves(r) == Leaves(doc)[LeafIndex(doc, p) := x]
    ensures forall k :: 0 <= k < |doc| && k != p.index ==> r[k] == doc[k]
    ensures r[p.index].Leaf? == doc[p.index].Leaf?
    ensures p.Nested? ==> r[p.index].kind == doc[p.index].kind && r[p.index].align == doc[p.index].align
    ensures WellFormed(doc) && !IsListType(x.kind) && |x.spans| > 0 ==> WellFormed(r)
  {
    var i := p.index;
    var nb := match p
      case Top(_) => Leaf(x)
      case Nested(_, j) => doc[i].(items := doc[i].items[j := x]);
    ReplaceLeaves(doc, p, x, nb);
    doc[i := nb]
  }

  lemma ReplaceLeaves(doc: Doc, p: Path, x: Element, nb: Block)
    requires ValidPath(doc, p)
    requires nb == match p
      case Top(_) => Leaf(x)
      case Nested(_, j) => doc[p.index].(items := doc[p.index].items[j := x])
    ensures var r := doc[p.index := nb];
            && ValidPath(r, p)
            && LeafIndex(r, p) == LeafIndex(doc, p)
            && Leaves(r) == Leaves(doc)[LeafIndex(doc, p) := x]
  {
    var i := p.index;
    var r := doc[i := nb];
    var k := if p.Nested? then p.item else 0;
    LeavesAround(doc, i);
    LeavesAround(r, i);
    assert r[..i] == doc[..i] && r[i + 1..] == doc[i + 1..];
    assert BlockLeaves(nb) == BlockLeaves(doc[i])[k := x];
    UpdateMiddle(Leaves(doc[..i]), BlockLeaves(doc[i]), Leaves(doc[i + 1..]), k, x);
  }

  /** Writing back the element that is already there changes nothing, and a
      second write at the same place supersedes the first. */
  lemma ReplaceLaws(doc: Doc, p: Path, x: Element, y: Element)
    requires ValidPath(doc, p)
    ensures ReplaceAt(doc, p, ElementAt(doc, p)) == doc
    ensures ReplaceAt(ReplaceAt(doc, p, x), p, y) == ReplaceAt(doc, p, y)
  {
    var r := ReplaceAt(doc, p, ElementAt(doc, p));
    if p.Nested? {
      assert doc[p.index].items[p.item := ElementAt(doc, p)] == doc[p.index].items;
    }
    assert r[p.index] == doc[p.index];
    var r2 := ReplaceAt(ReplaceAt(doc, p, x), p, y);
    if p.Nested? {
      assert doc[p.index].items[p.item := x][p.item := y] == doc[p.index].items[p.item := y];
    }
    assert r2[p.index] == ReplaceAt(doc, p, y)[p.index];
  }

  /** `setNodes` on the lowest block at `p`. */
  function SetNodes(doc: Doc, p: Path, props: Props): (r: Doc)
    requires ValidPath(doc, p)
    ensures |r| == |doc| && ValidPath(r, p)
    ensures ElementAt(r, p) == Apply(ElementAt(doc, p), props)
    ensures LeafIndex(r, p) == LeafIndex(doc, p)
    ensures Leaves(r) == Leaves(doc)[LeafIndex(doc, p) := Apply(ElementAt(doc, p), props)]
    ensures forall k :: 0 <= k < |doc| && k != p.index ==> r[k] == doc[k]
    ensures r[p.index].Leaf? == doc[p.index].Leaf?
    ensures p.Nested? ==> r[p.index].kind == doc[p.index].kind && r[p.index].align == doc[p.index].align
    ensures WellFormed(doc) && (props.SetKind? ==> !IsListType(props.kind)) ==> WellFormed(r)
  {
    ReplaceAt(doc, p, Apply(ElementAt(doc, p), props))
  }

  /** A mark value written by `setNodes` (`Some`) or removed by `unsetNodes` (`None`). */
  function WriteMark(marks: map<Mark, bool>, m: Mark, v: Option<bool>): (r: map<Mark, bool>)
    ensures v.Some? ==> m in r && r[m] == v.value
    ensures v.None? ==> m !in r
    ensures forall m' :: m' != m ==> (m' in r <==> m' in marks) && (m' in r ==> r[m'] == marks[m'])
  {
    match v
    case Some(b) => marks[m := b]
    case None => marks - {m}
  }

  /** Writes one mark on every span of a block, leaving the texts alone. */
  function WriteMarkAll(spans: seq<Span>, m: Mark, v: Option<bool>): (r: seq<Span>)
    ensures |r| == |spans|
    ensures forall k :: 0 <= k < |r| ==> r[k] == Span(spans[k].text, WriteMark(spans[k].marks, m, v))
  {
    seq(|spans|, k requires 0 <= k < |spans| => Span(spans[k].text, WriteMark(spans[k].marks, m, v)))
  }

  lemma UpdateMiddle<T>(a: seq<T>, b: seq<T>, c: seq<T>, k: nat, x: T)
    requires k < |b|
    ensures (a + b + c)[|a| + k := x] == a + b[k := x] + c
  {
  }

  /** `wrapNodes` with a fresh `{type: kind, children: []}` around the top-level
      text block at `k`: the new container has no align and exactly that block. */
  function Wrap(doc: Doc, k: nat, kind: string): (r: Doc)
    requires k < |doc| && doc[k].Leaf?
    ensures |r| == |doc| && r[k] == Container(kind, None, [doc[k].elem])
    ensures forall i :: 0 <= i < |doc| && i != k ==> r[i] == doc[i]
    ensures ValidPath(r, Nested(k, 0)) && ElementAt(r, Nested(k, 0)) == doc[k].elem
    ensures Leaves(r) == Leaves(doc)
    ensures LeafIndex(r, Nested(k, 0)) == LeafIndex(doc, Top(k))
    ensures WellFormed(doc) && IsListType(kind) ==> WellFormed(r)
  {
    var r := doc[k := Container(kind, None, [doc[k].elem])];
    LeavesAround(doc, k);
    LeavesAround(r, k);
    assert r[..k] == doc[..k] && r[k + 1..] == doc[k + 1..];
    r
  }
}
