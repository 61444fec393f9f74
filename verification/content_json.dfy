/** How a note body is stored: the editor tree as the plain JSON values of
    `CustomElement` and `CustomText` (`src/components/editor/types.ts`). A
    text node is `{ text, bold?, italic?, underline?, code? }`; an element is
    `{ type, align?, children }`; a list keeps its items as its children. */
module ContentJson {
  import opened Results
  import opened JsValue
  import opened EditorTypes
  import opened Document

  /** Writes mark `m` as a boolean field when the span sets it. */
  function PutMark(f: Record, marks: map<Mark, bool>, m: Mark): Record {
    if m in marks then f[MarkName(m) := Bool(marks[m])] else f
  }

  /** A `CustomText`: the text, then one boolean field per mark the span sets. */
  function EncodeSpan(s: Span): (r: Value)
    ensures r.Obj? && Field(r.fields, "text") == Str(s.text)
    ensures MarksStored(r.fields, s.marks)
  {
    SpanFieldsStored(s);
    Obj(SpanFields(s))
  }

  function SpanFields(s: Span): Record {
    var f := map["text" := Str(s.text)];
    PutMark(PutMark(PutMark(PutMark(f, s.marks, Bold), s.marks, Italic), s.marks, Underline), s.marks, Code)
  }

  /** Writing one mark touches that mark's field and no other. */
  lemma PutMarkField(f: Record, marks: map<Mark, bool>, m: Mark, n: Mark)
    ensures Field(PutMark(f, marks, m), MarkName(n))
            == if n == m && m in marks then Bool(marks[m]) else Field(f, MarkName(n))
    ensures Field(PutMark(f, marks, m), "text") == Field(f, "text")
  {
  }

  lemma SpanFieldsStored(s: Span)
    ensures Field(SpanFields(s), "text") == Str(s.text)
    ensures MarksStored(SpanFields(s), s.marks)
  {
    var f0 := map["text" := Str(s.text)];
    var f1 := PutMark(f0, s.marks, Bold);
    var f2 := PutMark(f1, s.marks, Italic);
    var f3 := PutMark(f2, s.marks, Underline);
    var f4 := PutMark(f3, s.marks, Code);
    assert f4 == SpanFields(s);
    forall n: Mark
      ensures Field(f4, MarkName(n)) == (if n in s.marks then Bool(s.marks[n]) else Undefined)
    {
      assert Field(f0, MarkName(n)) == Undefined;
      PutMarkField(f0, s.marks, Bold, n);
      PutMarkField(f1, s.marks, Italic, n);
      PutMarkField(f2, s.marks, Underline, n);
      PutMarkField(f3, s.marks, Code, n);
    }
  }

  /** Reads an optional boolean mark field: absent is unset, a boolean is that
      value, anything else is not a `CustomText`. */
  function ReadMark(f: Record, m: Mark, marks: Option<map<Mark, bool>>): (r: Option<map<Mark, bool>>)
  {
    match marks
    case None => None
    case Some(ms) =>
      match Field(f, MarkName(m))
      case Undefined => Some(ms)
      case Bool(b) => Some(ms[m := b])
      case _ => None
  }

  /** The four mark fields of a text node, read in declaration order. */
  function ReadMarks(f: Record): Option<map<Mark, bool>> {
    ReadMark(f, Code, ReadMark(f, Underline, ReadMark(f, Italic, ReadMark(f, Bold, Some(map[])))))
  }

  function DecodeSpan(v: Value): (r: Option<Span>)
    ensures r.Some? ==> v.Obj? && Field(v.fields, "text") == Str(r.value.text)
  {
    match v
    case Obj(f) =>
      (match Field(f, "text")
       case Str(t) =>
         var marks := ReadMarks(f);
         if marks.Some? then Some(Span(t, marks.value)) else None
       case _ => None)
    case _ => None
  }

  function EncodeSpans(spans: seq<Span>): (r: seq<Value>)
    ensures |r| == |spans| && forall k :: 0 <= k < |r| ==> r[k] == EncodeSpan(spans[k])
  {
    if |spans| == 0 then [] else [EncodeSpan(spans[0])] + EncodeSpans(spans[1..])
  }

  function DecodeSpans(items: seq<Value>): (r: Option<seq<Span>>)
    ensures r.Some? ==> |r.value| == |items|
  {
    if |items| == 0 then Some([])
    else
      match (DecodeSpan(items[0]), DecodeSpans(items[1..]))
      case (Some(s), Some(rest)) => Some([s] + rest)
      case _ => None
  }

  /** An element node: `type`, `children`, and `align` only when set. */
  function EncodeElement(e: Element): (r: Value)
    ensures r.Obj? && Field(r.fields, "type") == Str(e.kind)
    ensures Field(r.fields, "children") == Arr(EncodeSpans(e.spans))
    ensures e.align.None? <==> "align" !in r.fields
    ensures "text" !in r.fields
  {
    var f := map["type" := Str(e.kind), "children" := Arr(EncodeSpans(e.spans))];
    match e.align
    case None => Obj(f)
    case Some(a) => Obj(f["align" := Str(AlignName(a))])
  }

  /** Reads the optional `align`: absent is unaligned, one of the four names is
      that alignment, anything else is not a `CustomElement`. */
  function DecodeAlign(v: Value): (r: Option<Option<Align>>)
  {
    match v
    case Undefined => Some(None)
    case Str(s) => if AlignOf(s).Some? then Some(AlignOf(s)) else None
    case _ => None
  }

  function DecodeElement(v: Value): (r: Option<Element>)
    ensures r.Some? ==> v.Obj? && Field(v.fields, "type") == Str(r.value.kind)
  {
    match v
    case Obj(f) =>
      (match (Field(f, "type"), Field(f, "children"), DecodeAlign(Field(f, "align")))
       case (Str(kind), Arr(children), Some(align)) =>
         (match DecodeSpans(children)
          case Some(spans) => Some(Element(kind, align, spans))
          case None => None)
       case _ => None)
    case _ => None
  }

  function EncodeElements(es: seq<Element>): (r: seq<Value>)
    ensures |r| == |es| && forall k :: 0 <= k < |r| ==> r[k] == EncodeElement(es[k])
  {
    if |es| == 0 then [] else [EncodeElement(es[0])] + EncodeElements(es[1..])
  }

  function DecodeElements(items: seq<Value>): (r: Option<seq<Element>>)
    ensures r.Some? ==> |r.value| == |items|
  {
    if |items| == 0 then Some([])
    else
      match (DecodeElement(items[0]), DecodeElements(items[1..]))
      case (Some(e), Some(rest)) => Some([e] + rest)
      case _ => None
  }

  /** A top-level node: a text block is its element; a container is an element
      node whose children are its items. */
  function EncodeBlock(b: Block): (r: Value)
    ensures r.Obj? && "text" !in r.fields
    ensures b.Leaf? ==> r == EncodeElement(b.elem)
    ensures b.Container? ==> Field(r.fields, "type") == Str(b.kind) && Field(r.fields, "children") == Arr(EncodeElements(b.items))
  {
    match b
    case Leaf(e) => EncodeElement(e)
    case Container(kind, align, items) =>
      var f := map["type" := Str(kind), "children" := Arr(EncodeElements(items))];
      match align
      case None => Obj(f)
      case Some(a) => Obj(f["align" := Str(AlignName(a))])
  }

  /** A node whose `type` is a list type is read as a container, any other one
      as a text block. */
  function DecodeBlock(v: Value): (r: Option<Block>)
  {
    match v
    case Obj(f) =>
      (match (Field(f, "type"), Field(f, "children"), DecodeAlign(Field(f, "align")))
       case (Str(kind), Arr(children), Some(align)) =>
         if IsListType(kind) then
           (match DecodeElements(children)
            case Some(items) => Some(Container(kind, align, items))
            case None => None)
         else
           (match DecodeElement(v)
            case Some(e) => Some(Leaf(e))
            case None => None)
       case _ => None)
    case _ => None
  }

  function EncodeDoc(doc: Doc): (r: seq<Value>)
    ensures |r| == |doc| && forall k :: 0 <= k < |r| ==> r[k] == EncodeBlock(doc[k])
  {
    if |doc| == 0 then [] else [EncodeBlock(doc[0])] + EncodeDoc(doc[1..])
  }

  function DecodeDoc(v: Value): (r: Option<Doc>)
    ensures r.Some? ==> v.Arr? && |r.value| == |v.items|
  {
    match v
    case Arr(items) => DecodeBlocks(items)
    case _ => None
  }

  function DecodeBlocks(items: seq<Value>): (r: Option<Doc>)
    ensures r.Some? ==> |r.value| == |items|
  {
    if |items| == 0 then Some([])
    else
      match (DecodeBlock(items[0]), DecodeBlocks(items[1..]))
      case (Some(b), Some(rest)) => Some([b] + rest)
      case _ => None
  }

  /** The mark fields of a stored span, as the span's marks say. */
  predicate MarksStored(f: Record, marks: map<Mark, bool>) {
    forall m :: Field(f, MarkName(m)) == (if m in marks then Bool(marks[m]) else Undefined)
  }

  /** Reading one mark field of a stored span copies that mark, if set. */
  lemma ReadMarkStep(f: Record, marks: map<Mark, bool>, m: Mark, acc: map<Mark, bool>)
    requires MarksStored(f, marks)
    ensures ReadMark(f, m, Some(acc)) == Some(if m in marks then acc[m := marks[m]] else acc)
  {
    assert Field(f, MarkName(m)) == (if m in marks then Bool(marks[m]) else Undefined);
  }

  lemma SpanRoundTrip(s: Span)
    ensures DecodeSpan(EncodeSpan(s)) == Some(s)
  {
    var f := EncodeSpan(s).fields;
    ReadMarksStored(f, s.marks);
    assert Field(f, "text") == Str(s.text);
  }

  /** The marks read back from stored fields are the marks stored. */
  lemma ReadMarksStored(f: Record, ms: map<Mark, bool>)
    requires MarksStored(f, ms)
    ensures ReadMarks(f) == Some(ms)
  {
    var a0: map<Mark, bool> := map[];
    var a1 := if Bold in ms then a0[Bold := ms[Bold]] else a0;
    var a2 := if Italic in ms then a1[Italic := ms[Italic]] else a1;
    var a3 := if Underline in ms then a2[Underline := ms[Underline]] else a2;
    var a4 := if Code in ms then a3[Code := ms[Code]] else a3;
    ReadMarkStep(f, ms, Bold, a0);
    ReadMarkStep(f, ms, Italic, a1);
    ReadMarkStep(f, ms, Underline, a2);
    ReadMarkStep(f, ms, Code, a3);
    assert a4 == ms;
  }

  lemma DecodeSpansStep(items: seq<Value>)
    requires |items| > 0 && DecodeSpan(items[0]).Some? && DecodeSpans(items[1..]).Some?
    ensures DecodeSpans(items) == Some([DecodeSpan(items[0]).value] + DecodeSpans(items[1..]).value)
  {
  }

  lemma {:induction false} SpansRoundTrip(spans: seq<Span>)
    ensures DecodeSpans(EncodeSpans(spans)) == Some(spans)
  {
    if |spans| > 0 {
      var e := EncodeSpans(spans);
      assert e[1..] == EncodeSpans(spans[1..]);
      SpanRoundTrip(spans[0]);
      SpansRoundTrip(spans[1..]);
      DecodeSpansStep(e);
      assert [spans[0]] + spans[1..] == spans;
    }
  }

  lemma ElementRoundTrip(e: Element)
    ensures DecodeElement(EncodeElement(e)) == Some(e)
  {
    SpansRoundTrip(e.spans);
    if e.align.Some? {
      NamesRoundTrip(Bold, e.align.value);
    }
  }

  lemma {:induction false} ElementsRoundTrip(es: seq<Element>)
    ensures DecodeElements(EncodeElements(es)) == Some(es)
  {
    if |es| > 0 {
      assert EncodeElements(es)[1..] == EncodeElements(es[1..]);
      ElementRoundTrip(es[0]);
      ElementsRoundTrip(es[1..]);
      assert [es[0]] + es[1..] == es;
    }
  }

  lemma BlockRoundTrip(b: Block)
    requires BlockWellFormed(b)
    ensures DecodeBlock(EncodeBlock(b)) == Some(b)
  {
    match b
    case Leaf(e) => LeafRoundTrip(e);
    case Container(kind, align, items) => ContainerRoundTrip(kind, align, items);
  }

  lemma LeafRoundTrip(e: Element)
    requires !IsListType(e.kind)
    ensures DecodeBlock(EncodeBlock(Leaf(e))) == Some(Leaf(e))
  {
    var v := EncodeElement(e);
    assert EncodeBlock(Leaf(e)) == v;
    ElementRoundTrip(e);
    var f := v.fields;
    assert DecodeAlign(Field(f, "align")) == Some(e.align) by {
      if e.align.Some? {
        NamesRoundTrip(Bold, e.align.value);
      }
    }
  }

  lemma ContainerRoundTrip(kind: string, align: Option<Align>, items: seq<Element>)
    requires IsListType(kind)
    ensures DecodeBlock(EncodeBlock(Container(kind, align, items))) == Some(Container(kind, align, items))
  {
    ElementsRoundTrip(items);
    var v := EncodeBlock(Container(kind, align, items));
    assert Field(v.fields, "type") == Str(kind);
    assert Field(v.fields, "children") == Arr(EncodeElements(items));
    assert DecodeAlign(Field(v.fields, "align")) == Some(align) by {
      if align.Some? {
        NamesRoundTrip(Bold, align.value);
      }
    }
  }

  /** Storing a well-formed document and reading it back gives the same
      document: nothing about kinds, alignments, nesting, texts or marks is
      lost. */
  lemma {:induction false} DocRoundTrip(doc: Doc)
    requires WellFormed(doc)
    ensures DecodeDoc(Arr(EncodeDoc(doc))) == Some(doc)
  {
    BlocksRoundTrip(doc);
  }

  lemma {:induction false} BlocksRoundTrip(doc: Doc)
    requires WellFormed(doc)
    ensures DecodeBlocks(EncodeDoc(doc)) == Some(doc)
  {
    if |doc| > 0 {
      var e := EncodeDoc(doc);
      assert e[1..] == EncodeDoc(doc[1..]);
      WellFormedTail(doc);
      BlockRoundTrip(doc[0]);
      BlocksRoundTrip(doc[1..]);
      DecodeBlocksStep(e);
      assert [doc[0]] + doc[1..] == doc;
    }
  }

  lemma DecodeBlocksStep(items: seq<Value>)
    requires |items| > 0 && DecodeBlock(items[0]).Some? && DecodeBlocks(items[1..]).Some?
    ensures DecodeBlocks(items) == Some([DecodeBlock(items[0]).value] + DecodeBlocks(items[1..]).value)
  {
  }

  lemma WellFormedTail(doc: Doc)
    requires WellFormed(doc) && |doc| > 0
    ensures BlockWellFormed(doc[0]) && WellFormed(doc[1..])
  {
    forall i | 0 <= i < |doc| - 1
      ensures BlockWellFormed(doc[1..][i])
    {
      assert doc[1..][i] == doc[i + 1];
    }
  }
}
