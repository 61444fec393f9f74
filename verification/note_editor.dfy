/** The rich-text command engine of the note editor: the active-state queries
    for blocks and marks, the block toggle (type, alignment and list
    membership), the mark toggle, and the hotkey dispatch of the key handler. */
module NoteEditor {
  import opened Results
  import opened EditorTypes
  import opened Document
  import opened SlateTransforms

  /** The editor state the commands read and write: the document, the
      selection (`None` when the editor has none), and the marks pending at a
      collapsed cursor (`editor.marks`, `None` when unset). */
  datatype Editor = Editor(doc: Doc, selection: Option<Selection>, marks: Option<map<Mark, bool>>)

  /** States the editor can be in: a representable document, a selection that
      resolves, and pending marks only at a collapsed cursor (Slate drops them
      whenever the selection is replaced). */
  predicate Valid(e: Editor) {
    && WellFormed(e.doc)
    && (e.selection.Some? ==> ValidSelection(e.doc, e.selection.value))
    && (e.marks.Some? ==> e.selection.Some? && e.selection.value.anchor.Caret?)
  }

  /** Which property `isBlockActive` compares: `'type'` or `'align'`. */
  datatype Dimension = ByType | ByAlign

  function DimensionOf(format: string): (r: Dimension)
    ensures r == ByAlign <==> IsAlignType(format)
  {
    if IsAlignType(format) then ByAlign else ByType
  }

  /** The `match` callback of `isBlockActive` on one element: an element that
      has an `align` key is compared by align in the align dimension, every
      other element by its type. */
  predicate NodeMatches(n: NodeProps, format: string, dim: Dimension)
    ensures dim == ByType || n.align.None? ==> (NodeMatches(n, format, dim) <==> n.kind == format)
    ensures dim == ByAlign && n.align.Some? ==> (NodeMatches(n, format, dim) <==> AlignOf(format) == n.align)
  {
    if dim == ByAlign && n.align.Some? then AlignName(n.align.value) == format else n.kind == format
  }

  /** `isBlockActive`: some element at the selection, the enclosing container
      included, matches the format. */
  function IsBlockActive(e: Editor, format: string, dim: Dimension): (r: bool)
    requires Valid(e)
    ensures e.selection.None? ==> !r
    ensures e.selection.Some? ==>
              (r <==> exists k :: 0 <= k < |Ancestors(e.doc, e.selection.value.path)|
                                  && NodeMatches(Ancestors(e.doc, e.selection.value.path)[k], format, dim))
  {
    match e.selection
    case None => false
    case Some(sel) =>
      var el := ElementAt(e.doc, sel.path);
      var i := sel.path.index;
      var anc := Ancestors(e.doc, sel.path);
      assert sel.path.Nested? ==> anc[0] == NodeProps(e.doc[i].kind, e.doc[i].align);
      assert anc[|anc| - 1] == NodeProps(el.kind, el.align);
      || (sel.path.Nested? && NodeMatches(NodeProps(e.doc[i].kind, e.doc[i].align), format, dim))
      || NodeMatches(NodeProps(el.kind, el.align), format, dim)
  }

  /** `Editor.marks`: `None` without a selection; otherwise the pending marks if
      any, else the marks of the span at the cursor, or of the first span when
      the whole block is selected. */
  function CurrentMarks(e: Editor): (r: Option<map<Mark, bool>>)
    requires Valid(e)
    ensures r.None? <==> e.selection.None?
    ensures e.selection.Some? && e.marks.Some? ==> r == e.marks
  {
    match e.selection
    case None => None
    case Some(sel) =>
      if e.marks.Some? then e.marks
      else
        var spans := ElementAt(e.doc, sel.path).spans;
        match sel.anchor
        case Whole => Some(spans[0].marks)
        case Caret(k) => Some(spans[k].marks)
  }

  /** Without pending marks, the current marks are those of a span of the
      document: the one under the cursor, or the first of a whole block. */
  lemma CurrentMarksFromDocument(e: Editor)
    requires Valid(e) && e.selection.Some? && e.marks.None?
    ensures var sel := e.selection.value;
            var k := if sel.anchor.Caret? then sel.anchor.leaf else 0;
            && k < |Contents(e.doc)[LeafIndex(e.doc, sel.path)]|
            && CurrentMarks(e) == Some(Contents(e.doc)[LeafIndex(e.doc, sel.path)][k].marks)
  {
  }

  /** `isMarkActive`: the current marks hold the mark with value `true`. */
  predicate IsMarkActive(e: Editor, m: Mark)
    requires Valid(e)
    ensures IsMarkActive(e, m) ==> e.selection.Some?
    ensures e.marks.Some? ==> (IsMarkActive(e, m) <==> MarkValue(e.marks.value, m) == Some(true))
  {
    var marks := CurrentMarks(e);
    marks.Some? && m in marks.value && marks.value[m]
  }

  /** `Editor.addMark(editor, m, true)` when `v` is `Some(true)`, and
      `Editor.removeMark(editor, m)` when `v` is `None`: at a cursor the pending
      marks become the current marks with `m` written; over a whole block every
      span gets `m` written. */
  function SetMark(e: Editor, m: Mark, v: Option<bool>): (r: Editor)
    requires Valid(e)
    ensures Valid(r) && r.selection == e.selection
    ensures e.selection.None? ==> r == e
    ensures StripMarks(r.doc) == StripMarks(e.doc)
    ensures forall m' :: m' != m ==> MarkValues(r.doc, m') == MarkValues(e.doc, m')
    ensures forall m' :: m' != m ==> IsMarkActive(r, m') == IsMarkActive(e, m')
    ensures e.selection.Some? ==> IsMarkActive(r, m) == (v == Some(true))
    ensures e.selection.Some? && e.selection.value.anchor.Caret? ==> r.doc == e.doc
    ensures e.selection.Some? && e.selection.value.anchor.Whole? ==>
              var p := e.selection.value.path;
              var k := LeafIndex(e.doc, p);
              && k < |MarkValues(e.doc, m)|
              && MarkValues(r.doc, m) == MarkValues(e.doc, m)[k := Filled(|ElementAt(e.doc, p).spans|, v)]
  {
    match e.selection
    case None => e
    case Some(sel) =>
      match sel.anchor
      case Caret(_) => e.(marks := Some(WriteMark(CurrentMarks(e).value, m, v)))
      case Whole =>
        var el := ElementAt(e.doc, sel.path);
        var x := el.(spans := WriteMarkAll(el.spans, m, v));
        var d := ReplaceAt(e.doc, sel.path, x);
        RemarkKeepsRest(e.doc, sel.path, m, v);
        RemarkWrites(e.doc, sel.path, m, v);
        e.(doc := d)
  }

  /** Rewriting one mark on the spans of the selected block changes nothing
      but that mark. */
  lemma RemarkKeepsRest(doc: Doc, p: Path, m: Mark, v: Option<bool>)
    requires ValidPath(doc, p)
    ensures var el := ElementAt(doc, p);
            var d := ReplaceAt(doc, p, el.(spans := WriteMarkAll(el.spans, m, v)));
            && StripMarks(d) == StripMarks(doc)
            && forall m' :: m' != m ==> MarkValues(d, m') == MarkValues(doc, m')
  {
    var el := ElementAt(doc, p);
    var x := el.(spans := WriteMarkAll(el.spans, m, v));
    var d := ReplaceAt(doc, p, x);
    assert PlainElement(x) == PlainElement(el);
    assert PlainBlock(d[p.index]) == PlainBlock(doc[p.index]);
    assert StripMarks(d) == StripMarks(doc);
    ContentsUpdate(d, doc, LeafIndex(doc, p), x);
    forall m' | m' != m
      ensures MarkValues(d, m') == MarkValues(doc, m')
    {
      var k := LeafIndex(doc, p);
      assert Contents(doc)[k] == el.spans;
      assert MarkValues(d, m')[k] == MarkValues(doc, m')[k];
    }
  }

  /** `n` copies of one mark value. */
  function Filled(n: nat, v: Option<bool>): (r: seq<Option<bool>>)
    ensures |r| == n && forall t :: 0 <= t < n ==> r[t] == v
  {
    seq(n, t => v)
  }

  /** A whole-block write sets the mark on every span of the selected block
      and on no other span of the document. */
  lemma RemarkWrites(doc: Doc, p: Path, m: Mark, v: Option<bool>)
    requires ValidPath(doc, p)
    ensures var el := ElementAt(doc, p);
            var d := ReplaceAt(doc, p, el.(spans := WriteMarkAll(el.spans, m, v)));
            var k := LeafIndex(doc, p);
            && k < |MarkValues(doc, m)|
            && MarkValues(d, m) == MarkValues(doc, m)[k := Filled(|el.spans|, v)]
  {
    var el := ElementAt(doc, p);
    var x := el.(spans := WriteMarkAll(el.spans, m, v));
    var d := ReplaceAt(doc, p, x);
    var k := LeafIndex(doc, p);
    ContentsUpdate(d, doc, k, x);
    var a := MarkValues(d, m);
    var b := MarkValues(doc, m)[k := Filled(|el.spans|, v)];
    forall i | 0 <= i < |a|
      ensures a[i] == b[i]
    {
      if i == k {
        forall t | 0 <= t < |a[i]|
          ensures a[i][t] == v
        {
          assert Contents(d)[k][t] == x.spans[t];
        }
      }
    }
  }

  /** `toggleMark`: removes the mark when it is active, otherwise adds it with
      value `true`. */
  function ToggleMark(e: Editor, m: Mark): (r: Editor)
    requires Valid(e)
    ensures Valid(r) && r.selection == e.selection
    ensures e.selection.None? ==> r == e
    ensures e.selection.Some? ==> IsMarkActive(r, m) == !IsMarkActive(e, m)
    ensures StripMarks(r.doc) == StripMarks(e.doc)
    ensures forall m' :: m' != m ==> MarkValues(r.doc, m') == MarkValues(e.doc, m')
    ensures forall m' :: m' != m ==> IsMarkActive(r, m') == IsMarkActive(e, m')
    ensures e.selection.Some? && e.selection.value.anchor.Caret? ==> r.doc == e.doc
    ensures e.selection.Some? && e.selection.value.anchor.Whole? ==>
              var p := e.selection.value.path;
              var k := LeafIndex(e.doc, p);
              var v: Option<bool> := if IsMarkActive(e, m) then None else Some(true);
              && k < |MarkValues(e.doc, m)|
              && MarkValues(r.doc, m) == MarkValues(e.doc, m)[k := Filled(|ElementAt(e.doc, p).spans|, v)]
  {
    if IsMarkActive(e, m) then SetMark(e, m, None) else SetMark(e, m, Some(true))
  }

  /** The loop of the key handler from hotkey `i` on: every hotkey the event
      matches toggles the mark it names, in table order. */
  function Dispatch(e: Editor, pressed: string -> bool, i: nat): (r: Editor)
    requires Valid(e) && i <= |HOTKEYS|
    ensures Valid(r) && r.selection == e.selection
    ensures StripMarks(r.doc) == StripMarks(e.doc)
    ensures (forall k :: i <= k < |HOTKEYS| ==> !pressed(HOTKEYS[k].0)) ==> r == e
    decreases |HOTKEYS| - i
  {
    if i == |HOTKEYS| then e
    else
      var key := HOTKEYS[i].0;
      var next := if pressed(key) && MarkOf(HOTKEYS[i].1).Some? then ToggleMark(e, MarkOf(HOTKEYS[i].1).value) else e;
      Dispatch(next, pressed, i + 1)
  }

  /** The hotkey branch of `onKeyDown`; `pressed` is `isHotkey(hotkey, event)`. */
  function OnKeyDown(e: Editor, readOnly: bool, pressed: string -> bool): (r: Editor)
    requires Valid(e)
    ensures Valid(r) && r.selection == e.selection
    ensures readOnly ==> r == e
    ensures StripMarks(r.doc) == StripMarks(e.doc)
  {
    if readOnly then e else Dispatch(e, pressed, 0)
  }

  /** A document with the path the edit point moved to. */
  datatype Located = Located(doc: Doc, path: Path)

  /** `unwrapNodes` over list containers with `split: true`, skipped for
      alignment formats: the selected item is lifted out of its list. */
  function UnwrapLists(doc: Doc, p: Path, format: string): (r: Located)
    requires WellFormed(doc) && ValidPath(doc, p)
    ensures WellFormed(r.doc) && ValidPath(r.doc, r.path)
    ensures ElementAt(r.doc, r.path) == ElementAt(doc, p)
    ensures Leaves(r.doc) == Leaves(doc) && LeafIndex(r.doc, r.path) == LeafIndex(doc, p)
    ensures IsAlignType(format) || p.Top? ==> r == Located(doc, p)
    ensures !IsAlignType(format) ==> r.path.Top?
    ensures Normalized(doc) ==> forall k :: 0 <= k < |r.doc| && k != r.path.index ==> BlockNormalized(r.doc[k])
  {
    if !IsAlignType(format) && p.Nested? && IsListType(doc[p.index].kind) then
      var m := LiftItem(doc, p.index, p.item);
      Located(m.doc, Top(m.at))
    else Located(doc, p)
  }

  /** The `newProperties` of `toggleBlock`. */
  function NewProps(format: string, active: bool): (r: Props)
    ensures r.SetAlign? <==> IsAlignType(format)
    ensures r.SetAlign? ==> (r.align.None? <==> active) && (r.align.Some? ==> AlignName(r.align.value) == format)
    ensures r.SetKind? ==> !IsListType(r.kind) && (active ==> r.kind == Paragraph)
    ensures r.SetKind? && !active ==> r.kind == if IsListType(format) then ListItem else format
  {
    if IsAlignType(format) then SetAlign(if active then None else AlignOf(format))
    else SetKind(if active then Paragraph else if IsListType(format) then ListItem else format)
  }

  /** The type `toggleBlock` writes is never a list type, and a list format
      is never an alignment, so the list branch always unwraps first. */
  lemma NewPropsNeverList(format: string, active: bool)
    ensures NewProps(format, active).SetKind? ==> !IsListType(NewProps(format, active).kind)
    ensures IsListType(format) ==> !IsAlignType(format)
  {
    FormatFamiliesDisjoint(format);
  }

  /** Everything `toggleBlock` does once activity is decided: unwrap, write the
      new property, and wrap for a list format switched on. */
  function Retype(doc: Doc, p: Path, format: string, active: bool): (r: Located)
    requires WellFormed(doc) && ValidPath(doc, p)
    ensures WellFormed(r.doc) && ValidPath(r.doc, r.path)
    ensures LeafIndex(r.doc, r.path) == LeafIndex(doc, p)
    ensures ElementAt(r.doc, r.path) == Apply(ElementAt(doc, p), NewProps(format, active))
    ensures Leaves(r.doc) == Leaves(doc)[LeafIndex(doc, p) := Apply(ElementAt(doc, p), NewProps(format, active))]
  {
    var lifted := UnwrapLists(doc, p, format);
    var props := NewProps(format, active);
    NewPropsNeverList(format, active);
    var updated := SetNodes(lifted.doc, lifted.path, props);
    if !active && IsListType(format) then
      Located(Wrap(updated, lifted.path.index, format), Nested(lifted.path.index, 0))
    else Located(updated, lifted.path)
  }

  /** `toggleBlock`: decide activity, unwrap lists for non-alignment formats,
      write the new type or align on the selected block, and wrap it in a fresh
      list container when a list format is switched on. Exactly the selected
      lowest block changes, by exactly the new property; the edit point follows
      it; the text content is untouched. */
  function ToggleBlock(e: Editor, format: string): (r: Editor)
    requires Valid(e)
    ensures Valid(r) && r.marks == e.marks
    ensures e.selection.None? ==> r == e
    ensures e.selection.Some? ==> r.selection.Some? && r.selection.value.anchor == e.selection.value.anchor
    ensures e.selection.Some? ==>
              var p := e.selection.value.path;
              var idx := LeafIndex(e.doc, p);
              var props := NewProps(format, IsBlockActive(e, format, DimensionOf(format)));
              && LeafIndex(r.doc, r.selection.value.path) == idx
              && ElementAt(r.doc, r.selection.value.path) == Apply(ElementAt(e.doc, p), props)
              && Leaves(r.doc) == Leaves(e.doc)[idx := Apply(ElementAt(e.doc, p), props)]
    ensures Contents(r.doc) == Contents(e.doc)
  {
    match e.selection
    case None => e
    case Some(sel) =>
      var active := IsBlockActive(e, format, DimensionOf(format));
      var t := Retype(e.doc, sel.path, format, active);
      var x := Apply(ElementAt(e.doc, sel.path), NewProps(format, active));
      ContentsUpdate(t.doc, e.doc, LeafIndex(e.doc, sel.path), x);
      assert Contents(e.doc)[LeafIndex(e.doc, sel.path)] == x.spans;
      Editor(t.doc, Some(Selection(t.path, sel.anchor)), e.marks)
  }

  /** With a selection, `toggleBlock` is `Retype` on the selected block, the
      anchor carried to the new path. */
  lemma ToggleBlockRetypes(e: Editor, format: string)
    requires Valid(e) && e.selection.Some?
    ensures var sel := e.selection.value;
            var t := Retype(e.doc, sel.path, format, IsBlockActive(e, format, DimensionOf(format)));
            ToggleBlock(e, format) == Editor(t.doc, Some(Selection(t.path, sel.anchor)), e.marks)
  {
  }

  /** Outside the list-on case, `Retype` writes the new property on the
      unwrapped block and wraps nothing. */
  lemma RetypeUnwrapped(doc: Doc, p: Path, format: string, active: bool)
    requires WellFormed(doc) && ValidPath(doc, p)
    requires active || !IsListType(format)
    ensures var lifted := UnwrapLists(doc, p, format);
            Retype(doc, p, format, active) == Located(SetNodes(lifted.doc, lifted.path, NewProps(format, active)), lifted.path)
  {
  }

  /** In the list-on case, `Retype` retypes the unwrapped block `'list-item'`
      and wraps it alone in a fresh container of the format. */
  lemma RetypeWrapped(doc: Doc, p: Path, format: string)
    requires WellFormed(doc) && ValidPath(doc, p) && IsListType(format)
    ensures var lifted := UnwrapLists(doc, p, format);
            var updated := SetNodes(lifted.doc, lifted.path, SetKind(ListItem));
            && lifted.path.Top? && updated[lifted.path.index].Leaf?
            && Retype(doc, p, format, false)
               == Located(Wrap(updated, lifted.path.index, format), Nested(lifted.path.index, 0))
  {
    NewPropsNeverList(format, false);
  }
}
