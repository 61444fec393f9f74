/** The note body as the editor sees it: an ordered sequence of top-level
    blocks, each either a text block or a container whose children are text
    blocks (a list and its items), plus paths and selections into it. */
module Document {
  import opened Results
  import opened EditorTypes

  datatype Block =
    | Leaf(elem: Element)
    | Container(kind: string, align: Option<Align>, items: seq<Element>)

  type Doc = seq<Block>

  /** The path of a lowest block: `[index]` for a top-level text block,
      `[index, item]` for an item inside a container. */
  datatype Path = Top(index: nat) | Nested(index: nat, item: nat)

  /** Where the selection sits inside its block: a collapsed cursor in one
      span, or a range covering the whole block. `Caret(k)` names the span
      whose marks the cursor reads; at offset 0 of a span after the first,
      that is the span before it. */
  datatype Anchor = Caret(leaf: nat) | Whole

  datatype Selection = Selection(path: Path, anchor: Anchor)

  /** The kind and align of one element node. */
  datatype NodeProps = NodeProps(kind: string, align: Option<Align>)

  function BlockLeaves(b: Block): seq<Element> {
    match b
    case Leaf(e) => [e]
    case Container(_, _, items) => items
  }

  /** The lowest blocks of the document in document order. */
  function Leaves(doc: Doc): seq<Element> {
    if |doc| == 0 then [] else BlockLeaves(doc[0]) + Leaves(doc[1..])
  }

  /** The text content of the document: the spans of every lowest block, in order. */
  function Contents(doc: Doc): seq<seq<Span>> {
    var ls := Leaves(doc);
    seq(|ls|, k requires 0 <= k < |ls| => ls[k].spans)
  }

  /** A span with every mark dropped: what is left when formatting is ignored. */
  function Plain(s: Span): Span {
    Span(s.text, map[])
  }

  function PlainElement(e: Element): Element {
    e.(spans := seq(|e.spans|, k requires 0 <= k < |e.spans| => Plain(e.spans[k])))
  }

  function PlainBlock(b: Block): Block {
    match b
    case Leaf(e) => Leaf(PlainElement(e))
    case Container(kind, align, items) =>
      Container(kind, align, seq(|items|, k requires 0 <= k < |items| => PlainElement(items[k])))
  }

  /** The document with all marks dropped; two documents that agree here differ
      at most in the marks of their spans. */
  function StripMarks(doc: Doc): Doc {
    seq(|doc|, i requires 0 <= i < |doc| => PlainBlock(doc[i]))
  }

  function MarkValue(marks: map<Mark, bool>, m: Mark): Option<bool> {
    if m in marks then Some(marks[m]) else None
  }

  /** The value of one mark on every span of the document, in order. */
  function MarkValues(doc: Doc, m: Mark): seq<seq<Option<bool>>> {
    var c := Contents(doc);
    seq(|c|, k requires 0 <= k < |c| => seq(|c[k]|, t requires 0 <= t < |c[k]| => MarkValue(c[k][t].marks, m)))
  }

  /** Changing one lowest block changes the contents only at its position. */
  lemma ContentsUpdate(a: Doc, b: Doc, k: nat, x: Element)
    requires k < |Leaves(b)| && Leaves(a) == Leaves(b)[k := x]
    ensures Contents(a) == Contents(b)[k := x.spans]
  {
  }

  lemma {:induction false} LeavesAppend(a: Doc, b: Doc)
    ensures Leaves(a + b) == Leaves(a) + Leaves(b)
    decreases |a|
  {
    if |a| == 0 {
      assert a + b == b;
    } else {
      assert (a + b)[1..] == a[1..] + b;
      LeavesAppend(a[1..], b);
    }
  }

  lemma LeavesSingle(b: Block)
    ensures Leaves([b]) == BlockLeaves(b)
  {
    assert [b][1..] == [];
  }

  /** The leaves of a document are those before block `i`, those of block `i`,
      and those after it. */
  lemma LeavesAround(doc: Doc, i: nat)
    requires i < |doc|
    ensures Leaves(doc) == Leaves(doc[..i]) + BlockLeaves(doc[i]) + Leaves(doc[i + 1..])
  {
    var pre, post := doc[..i], doc[i + 1..];
    AroundBlock(doc, i);
    LeavesAppend(pre + [doc[i]], post);
    LeavesAppend(pre, [doc[i]]);
    LeavesSingle(doc[i]);
  }

  lemma AroundBlock(doc: Doc, i: nat)
    requires i < |doc|
    ensures doc == doc[..i] + [doc[i]] + doc[i + 1..]
  {
  }

  /** Replacing block `i` by the blocks `mid` replaces its leaves by theirs. */
  lemma LeavesSplice(doc: Doc, i: nat, mid: Doc)
    requires i < |doc|
    ensures Leaves(doc[..i] + mid + doc[i + 1..])
            == Leaves(doc[..i]) + Leaves(mid) + Leaves(doc[i + 1..])
  {
    LeavesAppend(doc[..i] + mid, doc[i + 1..]);
    LeavesAppend(doc[..i], mid);
  }

  /** A text block never has a list kind and, as Slate's normalisation
      guarantees, holds at least one span. */
  predicate ElementWellFormed(e: Element) {
    !IsListType(e.kind) && |e.spans| > 0
  }

  /** Structural shape the two-level tree can represent: list kinds appear only
      on non-empty containers of well-formed text blocks. */
  predicate BlockWellFormed(b: Block) {
    match b
    case Leaf(e) => ElementWellFormed(e)
    case Container(kind, _, items) =>
      IsListType(kind) && |items| > 0 && forall j :: 0 <= j < |items| ==> ElementWellFormed(items[j])
  }

  predicate WellFormed(doc: Doc) {
    forall i :: 0 <= i < |doc| ==> BlockWellFormed(doc[i])
  }

  /** The list invariants of the document model: a `list-item` is never a
      top-level block, and a container holds only `list-item` blocks. */
  predicate BlockNormalized(b: Block) {
    match b
    case Leaf(e) => e.kind != ListItem
    case Container(_, _, items) => forall j :: 0 <= j < |items| ==> items[j].kind == ListItem
  }

  predicate Normalized(doc: Doc) {
    WellFormed(doc) && forall i :: 0 <= i < |doc| ==> BlockNormalized(doc[i])
  }

  predicate ValidPath(doc: Doc, p: Path) {
    match p
    case Top(i) => i < |doc| && doc[i].Leaf?
    case Nested(i, j) => i < |doc| && doc[i].Container? && j < |doc[i].items|
  }

  function ElementAt(doc: Doc, p: Path): Element
    requires ValidPath(doc, p)
  {
    match p
    case Top(i) => doc[i].elem
    case Nested(i, j) => doc[i].items[j]
  }

  /** The position of the block at `p` among all lowest blocks. */
  function LeafIndex(doc: Doc, p: Path): (r: nat)
    requires ValidPath(doc, p)
    ensures r < |Leaves(doc)| && Leaves(doc)[r] == ElementAt(doc, p)
  {
    LeavesAround(doc, p.index);
    |Leaves(doc[..p.index])| + (if p.Nested? then p.item else 0)
  }

  predicate ValidSelection(doc: Doc, s: Selection) {
    && ValidPath(doc, s.path)
    && (s.anchor.Caret? ==> s.anchor.leaf < |ElementAt(doc, s.path).spans|)
  }

  /** The element nodes above and at a cursor, root first: what Slate's
      `Editor.nodes` visits at a selection inside one lowest block. */
  function Ancestors(doc: Doc, p: Path): (r: seq<NodeProps>)
    requires ValidPath(doc, p)
    ensures |r| == (if p.Nested? then 2 else 1)
    ensures r[|r| - 1] == NodeProps(ElementAt(doc, p).kind, ElementAt(doc, p).align)
    ensures p.Nested? ==> r[0] == NodeProps(doc[p.index].kind, doc[p.index].align)
  {
    match p
    case Top(i) => [NodeProps(doc[i].elem.kind, doc[i].elem.align)]
    case Nested(i, j) =>
      [NodeProps(doc[i].kind, doc[i].align), NodeProps(doc[i].items[j].kind, doc[i].items[j].align)]
  }
}
