/** Properties of the editor commands that relate several calls, or that
    spell out one row of the block toggle's decision table in terms of the
    resulting tree. */
module NoteEditorLaws {
  import opened Results
  import opened EditorTypes
  import opened Document
  import opened SlateTransforms
  import opened NoteEditor

  /** Toggling an alignment never unwraps or wraps a list, never moves the edit
      point and never changes a type: it only writes the align of the selected
      block, clearing it when the alignment was active. */
  lemma AlignToggle(e: Editor, format: string)
    requires Valid(e) && e.selection.Some? && IsAlignType(format)
    ensures var r := ToggleBlock(e, format);
            var p := e.selection.value.path;
            var active := IsBlockActive(e, format, ByAlign);
            && r.selection == e.selection
            && |r.doc| == |e.doc|
            && (forall i :: 0 <= i < |e.doc| ==>
                  r.doc[i].Leaf? == e.doc[i].Leaf?
                  && (e.doc[i].Container? ==> r.doc[i].kind == e.doc[i].kind && |r.doc[i].items| == |e.doc[i].items|))
            && |Leaves(r.doc)| == |Leaves(e.doc)|
            && (forall k :: 0 <= k < |Leaves(e.doc)| ==> Leaves(r.doc)[k].kind == Leaves(e.doc)[k].kind)
            && ElementAt(r.doc, p).align == (if active then None else AlignOf(format))
            && r == e.(doc := SetNodes(e.doc, p, SetAlign(if active then None else AlignOf(format))))
  {
    var p := e.selection.value.path;
    var active := IsBlockActive(e, format, ByAlign);
    NewPropsNeverList(format, active);
    ToggleBlockRetypes(e, format);
    RetypeUnwrapped(e.doc, p, format, active);
  }

  /** From a block with no align and no alignment active, toggling the same
      alignment twice gives back the very same editor state. */
  lemma {:induction false} AlignToggleTwice(e: Editor, a: Align)
    requires Valid(e) && e.selection.Some?
    requires ElementAt(e.doc, e.selection.value.path).align == None
    requires !IsBlockActive(e, AlignName(a), ByAlign)
    ensures ToggleBlock(ToggleBlock(e, AlignName(a)), AlignName(a)) == e
  {
    var format := AlignName(a);
    var p := e.selection.value.path;
    var el := ElementAt(e.doc, p);
    NamesRoundTrip(Bold, a);
    AlignToggle(e, format);
    var e1 := ToggleBlock(e, format);
    assert e1 == e.(doc := SetNodes(e.doc, p, SetAlign(Some(a))));
    assert ElementAt(e1.doc, p) == el.(align := Some(a));
    assert IsBlockActive(e1, format, ByAlign) by {
      assert Ancestors(e1.doc, p)[|Ancestors(e1.doc, p)| - 1] == NodeProps(el.kind, Some(a));
    }
    AlignToggle(e1, format);
    var e2 := ToggleBlock(e1, format);
    assert e2 == e1.(doc := SetNodes(e1.doc, p, SetAlign(None)));
    ReplaceLaws(e.doc, p, el.(align := Some(a)), el);
  }

  /** The document a non-alignment toggle leaves, once the new block `nb` is
      known: a top-level block is replaced in place; a list item takes its
      container's place between the items before it and the items after it,
      each kept in a container of the same kind and align. */
  function Spliced(doc: Doc, p: Path, nb: Block): Doc
    requires ValidPath(doc, p)
  {
    match p
    case Top(i) => doc[i := nb]
    case Nested(i, j) => (doc[..i] + Before(doc[i], j)) + [nb] + (After(doc[i], j) + doc[i + 1..])
  }

  /** Where the new block lands in the spliced document. */
  function SplicedAt(doc: Doc, p: Path): nat
    requires ValidPath(doc, p)
  {
    match p
    case Top(i) => i
    case Nested(i, j) => i + |Before(doc[i], j)|
  }

  /** The spliced document holds `nb` at its landing place, keeps every block
      before the original one, and equals an in-place replacement for a
      top-level block or an only item. */
  lemma SplicedShape(doc: Doc, p: Path, nb: Block)
    requires ValidPath(doc, p)
    ensures var d := Spliced(doc, p, nb);
            var at := SplicedAt(doc, p);
            && at < |d| && d[at] == nb
            && (at == p.index || (p.Nested? && at == p.index + 1))
            && d[..p.index] == doc[..p.index]
            && (p.Top? || |doc[p.index].items| == 1 ==> at == p.index && d == doc[p.index := nb])
  {
    if p.Nested? {
      var i := p.index;
      var d := Spliced(doc, p, nb);
      assert d[..i] == doc[..i];
      if |doc[i].items| == 1 {
        forall k | 0 <= k < |doc|
          ensures d[k] == doc[i := nb][k]
        {
          if k < i {
            assert d[k] == d[..i][k];
          } else if k > i {
            assert d[k] == doc[i + 1..][k - i - 1];
          }
        }
      }
    }
  }

  /** Rewriting the landing place of a spliced document splices the new block. */
  lemma SplicedSet(doc: Doc, p: Path, x: Block, y: Block)
    requires ValidPath(doc, p)
    ensures SplicedAt(doc, p) < |Spliced(doc, p, x)|
    ensures Spliced(doc, p, x)[SplicedAt(doc, p) := y] == Spliced(doc, p, y)
  {
    if p.Nested? {
      var i := p.index;
      var pre := doc[..i] + Before(doc[i], p.item);
      var post := After(doc[i], p.item) + doc[i + 1..];
      UpdateMiddle(pre, [x], post, 0, y);
      assert [x][0 := y] == [y];
    }
  }

  /** Unwrapping for a non-alignment format splices the block, unchanged. */
  lemma UnwrapSpliced(doc: Doc, p: Path, format: string)
    requires WellFormed(doc) && ValidPath(doc, p) && !IsAlignType(format)
    ensures UnwrapLists(doc, p, format) == Located(Spliced(doc, p, Leaf(ElementAt(doc, p))), Top(SplicedAt(doc, p)))
  {
    if p.Top? {
      assert doc[p.index := Leaf(doc[p.index].elem)] == doc;
    } else {
      assert BlockWellFormed(doc[p.index]);
    }
  }

  lemma WrapReplaces(doc: Doc, k: nat, kind: string)
    requires k < |doc| && doc[k].Leaf?
    ensures Wrap(doc, k, kind) == doc[k := Container(kind, None, [doc[k].elem])]
  {
  }

  /** For every format but an alignment, `Retype` splices the retyped block,
      wrapped alone in a fresh container when a list is switched on. */
  lemma RetypeSpliced(doc: Doc, p: Path, format: string, active: bool)
    requires WellFormed(doc) && ValidPath(doc, p) && !IsAlignType(format)
    ensures var r := Retype(doc, p, format, active);
            var el := ElementAt(doc, p);
            var at := SplicedAt(doc, p);
            if !active && IsListType(format) then
              r.doc == Spliced(doc, p, Container(format, None, [el.(kind := ListItem)])) && r.path == Nested(at, 0)
            else
              r.doc == Spliced(doc, p, Leaf(el.(kind := NewProps(format, active).kind))) && r.path == Top(at)
  {
    var el := ElementAt(doc, p);
    var at := SplicedAt(doc, p);
    var props := NewProps(format, active);
    var lifted := UnwrapLists(doc, p, format);
    UnwrapSpliced(doc, p, format);
    SplicedSet(doc, p, Leaf(el), Leaf(Apply(el, props)));
    SplicedShape(doc, p, Leaf(el));
    SetTopLeaf(lifted.doc, at, props);
    var u := Spliced(doc, p, Leaf(Apply(el, props)));
    assert SetNodes(lifted.doc, lifted.path, props) == u;
    if !active && IsListType(format) {
      RetypeWrapped(doc, p, format);
      SplicedShape(doc, p, Leaf(Apply(el, props)));
      WrapReplaces(u, at, format);
      SplicedSet(doc, p, Leaf(Apply(el, props)), Container(format, None, [el.(kind := ListItem)]));
    } else {
      RetypeUnwrapped(doc, p, format, active);
    }
  }

  /** Toggling a type that is neither a list nor an alignment lifts the block
      out of any list and leaves it a top-level block whose type is the format
      when it was inactive, `'paragraph'` when it was active; its align and
      spans are untouched, the rest of its list is kept around it, and a
      top-level block is retyped in place. */
  lemma KindToggle(e: Editor, format: string)
    requires Valid(e) && e.selection.Some?
    requires !IsListType(format) && !IsAlignType(format)
    ensures var r := ToggleBlock(e, format);
            var p := e.selection.value.path;
            var el := ElementAt(e.doc, p);
            var active := IsBlockActive(e, format, ByType);
            var nb := Leaf(el.(kind := if active then Paragraph else format));
            && r.selection.value.path == Top(SplicedAt(e.doc, p))
            && r.doc == Spliced(e.doc, p, nb)
            && r.doc[r.selection.value.path.index] == nb
            && (p.Top? ==> r.selection.value.path == p && r.doc == e.doc[p.index := nb])
  {
    var p := e.selection.value.path;
    var el := ElementAt(e.doc, p);
    var active := IsBlockActive(e, format, ByType);
    ToggleBlockRetypes(e, format);
    RetypeSpliced(e.doc, p, format, active);
    SplicedShape(e.doc, p, Leaf(el.(kind := if active then Paragraph else format)));
  }

  /** From a top-level paragraph, toggling any non-list, non-alignment type
      twice gives back the same editor state. */
  lemma {:induction false} KindToggleTwiceFromParagraph(e: Editor, format: string)
    requires Valid(e) && e.selection.Some? && e.selection.value.path.Top?
    requires ElementAt(e.doc, e.selection.value.path).kind == Paragraph
    requires !IsListType(format) && !IsAlignType(format)
    ensures ToggleBlock(ToggleBlock(e, format), format) == e
  {
    var p := e.selection.value.path;
    var el := ElementAt(e.doc, p);
    KindToggle(e, format);
    var e1 := ToggleBlock(e, format);
    var k1 := if format == Paragraph then Paragraph else format;
    assert e1.doc == e.doc[p.index := Leaf(el.(kind := k1))];
    KindToggle(e1, format);
    assert IsBlockActive(e1, format, ByType) by {
      assert Ancestors(e1.doc, p)[0].kind == format;
    }
    var e2 := ToggleBlock(e1, format);
    assert e2.doc == e1.doc[p.index := Leaf(el.(kind := Paragraph))];
    assert e2.doc == e.doc;
  }

  /** Switching a list format on (it was inactive) unwraps any enclosing list,
      retypes the block `'list-item'` and wraps it alone in a fresh container of
      that list kind with no align, the rest of an enclosing list kept around
      it. The edit point enters the new container. So switching a numbered
      item to bulleted replaces its container rather than nesting one list in
      another. */
  lemma ListOn(e: Editor, format: string)
    requires Valid(e) && e.selection.Some? && IsListType(format)
    requires !IsBlockActive(e, format, ByType)
    ensures var r := ToggleBlock(e, format);
            var p := e.selection.value.path;
            var el := ElementAt(e.doc, p);
            var q := r.selection.value.path;
            var nb := Container(format, None, [el.(kind := ListItem)]);
            && q == Nested(SplicedAt(e.doc, p), 0)
            && r.doc == Spliced(e.doc, p, nb)
            && (q.index == p.index || (p.Nested? && q.index == p.index + 1))
            && r.doc[q.index] == nb
            && r.doc[..p.index] == e.doc[..p.index]
            && (p.Top? ==> r.doc == e.doc[p.index := nb])
  {
    var p := e.selection.value.path;
    var el := ElementAt(e.doc, p);
    NewPropsNeverList(format, false);
    ToggleBlockRetypes(e, format);
    RetypeSpliced(e.doc, p, format, false);
    SplicedShape(e.doc, p, Container(format, None, [el.(kind := ListItem)]));
  }

  /** Switching off the active list format lifts the item out of its container
      and leaves it a top-level `'paragraph'`, with no new container and the
      other items kept around it; an only item replaces its container in
      place. */
  lemma ListOff(e: Editor, format: string)
    requires Valid(e) && e.selection.Some? && IsListType(format)
    requires IsBlockActive(e, format, ByType)
    ensures var r := ToggleBlock(e, format);
            var p := e.selection.value.path;
            var el := ElementAt(e.doc, p);
            var q := r.selection.value.path;
            var nb := Leaf(el.(kind := Paragraph));
            && p.Nested? && e.doc[p.index].kind == format
            && q == Top(SplicedAt(e.doc, p))
            && r.doc == Spliced(e.doc, p, nb)
            && (q.index == p.index || q.index == p.index + 1)
            && r.doc[q.index] == nb
            && (|e.doc[p.index].items| == 1 ==> q == Top(p.index) && r.doc == e.doc[p.index := nb])
  {
    var p := e.selection.value.path;
    var el := ElementAt(e.doc, p);
    NewPropsNeverList(format, true);
    ActiveListIsContainer(e, format);
    ToggleBlockRetypes(e, format);
    RetypeSpliced(e.doc, p, format, true);
    SplicedShape(e.doc, p, Leaf(el.(kind := Paragraph)));
  }

  /** An active list format is matched by the container, never by the
      element itself, which no well-formed document gives a list type. */
  lemma ActiveListIsContainer(e: Editor, format: string)
    requires Valid(e) && e.selection.Some? && IsListType(format)
    requires IsBlockActive(e, format, ByType)
    ensures e.selection.value.path.Nested? && e.doc[e.selection.value.path.index].kind == format
  {
    var p := e.selection.value.path;
    var anc := Ancestors(e.doc, p);
    var k :| 0 <= k < |anc| && NodeMatches(anc[k], format, ByType);
    assert BlockWellFormed(e.doc[p.index]);
    assert ElementWellFormed(ElementAt(e.doc, p));
  }

  /** Setting a property on a top-level block rewrites that one block. */
  lemma SetTopLeaf(doc: Doc, i: nat, props: Props)
    requires i < |doc| && doc[i].Leaf?
    ensures SetNodes(doc, Top(i), props) == doc[i := Leaf(Apply(doc[i].elem, props))]
  {
  }

  /** A top-level paragraph switched into a list and back out again is the
      same editor state: container created, then removed. */
  lemma {:induction false} ListToggleTwiceFromParagraph(e: Editor, format: string)
    requires Valid(e) && e.selection.Some? && e.selection.value.path.Top?
    requires ElementAt(e.doc, e.selection.value.path).kind == Paragraph
    requires IsListType(format)
    ensures ToggleBlock(ToggleBlock(e, format), format) == e
  {
    var p := e.selection.value.path;
    var el := ElementAt(e.doc, p);
    FormatFamiliesDisjoint(format);
    assert !IsBlockActive(e, format, ByType) by {
      assert Ancestors(e.doc, p) == [NodeProps(Paragraph, el.align)];
    }
    ListOn(e, format);
    var e1 := ToggleBlock(e, format);
    assert e1.selection.value.path == Nested(p.index, 0);
    assert IsBlockActive(e1, format, ByType) by {
      assert Ancestors(e1.doc, Nested(p.index, 0))[0].kind == format;
    }
    ListOff(e1, format);
    var e2 := ToggleBlock(e1, format);
    assert e2.doc == e.doc;
  }

  /** The list invariants (no top-level `list-item`, containers of `list-item`
      only) survive every block toggle the toolbar can issue, that is every
      format except `'list-item'` itself. */
  lemma ToggleBlockNormalized(e: Editor, format: string)
    requires Valid(e) && Normalized(e.doc) && format != ListItem
    ensures Normalized(ToggleBlock(e, format).doc)
  {
    if e.selection.Some? {
      var active := IsBlockActive(e, format, DimensionOf(format));
      RetypeNormalized(e.doc, e.selection.value.path, format, active);
    }
  }

  lemma RetypeNormalized(doc: Doc, p: Path, format: string, active: bool)
    requires Normalized(doc) && ValidPath(doc, p) && format != ListItem
    ensures Normalized(Retype(doc, p, format, active).doc)
  {
    var el := ElementAt(doc, p);
    var lifted := UnwrapLists(doc, p, format);
    var k := lifted.path.index;
    var props := NewProps(format, active);
    var updated := SetNodes(lifted.doc, lifted.path, props);
    var r := Retype(doc, p, format, active);
    NewPropsNeverList(format, active);
    if !active && IsListType(format) {
      RetypeWrapped(doc, p, format);
      assert r.doc[k] == Container(format, None, [el.(kind := ListItem)]);
    } else {
      RetypeUnwrapped(doc, p, format, active);
      if IsAlignType(format) {
        AlignKeepsNormalized(doc, p, props);
      } else {
        assert updated[k] == Leaf(el.(kind := props.kind));
      }
    }
    assert BlockNormalized(r.doc[k]);
  }

  /** Writing an align changes no type, so the list invariants of the block
      it lands on still hold. */
  lemma AlignKeepsNormalized(doc: Doc, p: Path, props: Props)
    requires Normalized(doc) && ValidPath(doc, p) && props.SetAlign?
    ensures BlockNormalized(SetNodes(doc, p, props)[p.index])
  {
    assert BlockNormalized(doc[p.index]);
  }

  /** At a collapsed cursor, toggling a mark twice leaves the document alone
      and gives back the current marks, unless the mark was explicitly `false`
      (then it ends up absent). */
  lemma MarkToggleTwiceAtCaret(e: Editor, m: Mark)
    requires Valid(e) && e.selection.Some? && e.selection.value.anchor.Caret?
    requires MarkValue(CurrentMarks(e).value, m) != Some(false)
    ensures ToggleMark(ToggleMark(e, m), m).doc == e.doc
    ensures CurrentMarks(ToggleMark(ToggleMark(e, m), m)) == CurrentMarks(e)
  {
    var cur := CurrentMarks(e).value;
    var e1 := ToggleMark(e, m);
    var e2 := ToggleMark(e1, m);
    if IsMarkActive(e, m) {
      assert CurrentMarks(e1) == Some(cur - {m});
      assert CurrentMarks(e2) == Some((cur - {m})[m := true]);
      assert (cur - {m})[m := true] == cur;
    } else {
      assert CurrentMarks(e1) == Some(cur[m := true]);
      assert CurrentMarks(e2) == Some(cur[m := true] - {m});
      assert cur[m := true] - {m} == cur;
    }
  }

  /** The spans of a block agree on a mark: all lack it, or all hold it `true`. */
  predicate UniformMark(spans: seq<Span>, m: Mark) {
    || (forall k :: 0 <= k < |spans| ==> m !in spans[k].marks)
    || (forall k :: 0 <= k < |spans| ==> m in spans[k].marks && spans[k].marks[m])
  }

  /** With the whole block selected and its spans agreeing on the mark,
      toggling it twice gives back the same editor state. */
  lemma MarkToggleTwiceOverBlock(e: Editor, m: Mark)
    requires Valid(e) && e.selection.Some? && e.selection.value.anchor.Whole?
    requires UniformMark(ElementAt(e.doc, e.selection.value.path).spans, m)
    ensures ToggleMark(ToggleMark(e, m), m) == e
  {
    var p := e.selection.value.path;
    var el := ElementAt(e.doc, p);
    var active := IsMarkActive(e, m);
    var v1: Option<bool> := if active then None else Some(true);
    var v2: Option<bool> := if active then Some(true) else None;
    var s1 := WriteMarkAll(el.spans, m, v1);
    var e1 := ToggleMark(e, m);
    assert e1.doc == ReplaceAt(e.doc, p, el.(spans := s1));
    var e2 := ToggleMark(e1, m);
    assert ElementAt(e1.doc, p) == el.(spans := s1);
    assert IsMarkActive(e1, m) == !active;
    var s2 := WriteMarkAll(s1, m, v2);
    assert e2.doc == ReplaceAt(e1.doc, p, el.(spans := s2));
    WriteMarkAllTwice(el.spans, m, v1, v2);
    assert el.spans[0] in el.spans;
    WriteMarkAllKeeps(el.spans, m, v2);
    assert s2 == el.spans;
    ReplaceLaws(e.doc, p, el.(spans := s1), el);
  }

  /** A second write of the same mark overrides the first. */
  lemma WriteMarkAllTwice(spans: seq<Span>, m: Mark, a: Option<bool>, b: Option<bool>)
    ensures WriteMarkAll(WriteMarkAll(spans, m, a), m, b) == WriteMarkAll(spans, m, b)
  {
    var l := WriteMarkAll(WriteMarkAll(spans, m, a), m, b);
    var r := WriteMarkAll(spans, m, b);
    forall k | 0 <= k < |spans|
      ensures l[k] == r[k]
    {
      assert l[k].marks == r[k].marks;
    }
  }

  /** Writing a mark the spans already agree on changes nothing. */
  lemma WriteMarkAllKeeps(spans: seq<Span>, m: Mark, v: Option<bool>)
    requires v.None? ==> forall k :: 0 <= k < |spans| ==> m !in spans[k].marks
    requires v.Some? ==> forall k :: 0 <= k < |spans| ==> m in spans[k].marks && spans[k].marks[m] == v.value
    ensures WriteMarkAll(spans, m, v) == spans
  {
    var r := WriteMarkAll(spans, m, v);
    forall k | 0 <= k < |spans|
      ensures r[k] == spans[k]
    {
      assert r[k].marks == spans[k].marks;
    }
  }

  /** The hotkeys before `i` that the event does not match are skipped. */
  lemma {:induction false} DispatchSkips(e: Editor, pressed: string -> bool, j: nat, i: nat)
    requires Valid(e) && j <= i <= |HOTKEYS|
    requires forall k :: j <= k < i ==> !pressed(HOTKEYS[k].0)
    ensures Dispatch(e, pressed, j) == Dispatch(e, pressed, i)
    decreases i - j
  {
    if j < i {
      DispatchSkips(e, pressed, j + 1, i);
    }
  }

  /** In an editable editor, a key event matching exactly one hotkey toggles
      exactly the mark that hotkey names. */
  lemma SingleHotkey(e: Editor, i: nat, pressed: string -> bool)
    requires Valid(e) && i < |HOTKEYS|
    requires forall key :: pressed(key) <==> key == HOTKEYS[i].0
    ensures MarkOf(HOTKEYS[i].1).Some?
    ensures OnKeyDown(e, false, pressed) == ToggleMark(e, MarkOf(HOTKEYS[i].1).value)
  {
    HotkeysAreDistinctMarks();
    DispatchSkips(e, pressed, 0, i);
  }

  /** A worked example: "Hello" in a paragraph is made bold, then a heading,
      then a numbered item, then a plain paragraph again; its text and marks
      are carried along unchanged. */
  lemma HelloScenario()
    ensures var plain := Span("Hello", map[]);
            var bold := Span("Hello", map[Bold := true]);
            var e0 := Editor([Leaf(Element(Paragraph, None, [plain]))], Some(Selection(Top(0), Whole)), None);
            var e1 := ToggleMark(e0, Bold);
            var e2 := ToggleBlock(e1, "heading-one");
            var e3 := ToggleBlock(e2, "numbered-list");
            var e4 := ToggleBlock(e3, "numbered-list");
            && e1.doc == [Leaf(Element(Paragraph, None, [bold]))]
            && e2.doc == [Leaf(Element("heading-one", None, [bold]))]
            && e3.doc == [Container("numbered-list", None, [Element(ListItem, None, [bold])])]
            && e3.selection == Some(Selection(Nested(0, 0), Whole))
            && e4.doc == [Leaf(Element(Paragraph, None, [bold]))]
            && e4.selection == Some(Selection(Top(0), Whole))
  {
    var plain := Span("Hello", map[]);
    var bold := Span("Hello", map[Bold := true]);
    var e0 := Editor([Leaf(Element(Paragraph, None, [plain]))], Some(Selection(Top(0), Whole)), None);
    assert Valid(e0);
    var e1 := ToggleMark(e0, Bold);
    assert !IsMarkActive(e0, Bold);
    assert WriteMarkAll([plain], Bold, Some(true)) == [bold];
    assert e1.doc == [Leaf(Element(Paragraph, None, [bold]))];
    KindToggle(e1, "heading-one");
    var e2 := ToggleBlock(e1, "heading-one");
    assert !IsBlockActive(e1, "heading-one", ByType);
    assert e2.doc == [Leaf(Element("heading-one", None, [bold]))];
    assert !IsBlockActive(e2, "numbered-list", ByType);
    ListOn(e2, "numbered-list");
    var e3 := ToggleBlock(e2, "numbered-list");
    assert IsBlockActive(e3, "numbered-list", ByType) by {
      assert Ancestors(e3.doc, Nested(0, 0))[0].kind == "numbered-list";
    }
    ListOff(e3, "numbered-list");
  }
}
