/** The pure parts of the note list page (`src/app/page.tsx`): the text
    preview of a note body and the tag normalisation applied to the notes
    the page loads. `String(v)` for values that are neither strings nor
    `null`/`undefined` and `JSON.parse` are parameters. */
module HomePage {
  import opened Results
  import opened JsValue
  import opened JsString
  import opened EditorTypes
  import opened Document
  import opened ContentJson
  import opened Records
  import NoteUtils
  import MockData
  import Store

  /** The placeholder shown for a note without content. */
  const PLACEHOLDER := "暂无内容"

  /** The longest preview kept whole. */
  const PREVIEW_LIMIT := 100

  const ELLIPSIS := "..."

  /** How `Array.prototype.join` writes one element: `null` and `undefined`
      as nothing, a string as itself, anything else as `String(v)`. */
  function JoinPiece(v: Value, toStr: Value -> string): (r: string)
    ensures v.Null? || v.Undefined? ==> r == ""
    ensures v.Str? ==> r == v.s
  {
    match v
    case Null => ""
    case Undefined => ""
    case Str(s) => s
    case _ => toStr(v)
  }

  /** What one node contributes to `extractText`: an object with a `text`
      property gives that property (checked first); one with `children`
      gives the text extracted from them; anything else gives `''`. */
  function NodePiece(node: Value, toStr: Value -> string): (r: Value)
    ensures node.Obj? && "text" in node.fields ==> r == node.fields["text"]
    ensures !(node.Obj? && "text" in node.fields) ==> r.Str?
    ensures !node.Obj? ==> r == Str("")
    decreases node, 0
  {
    match node
    case Obj(f) =>
      if "text" in f then f["text"]
      else if "children" in f then Str(ExtractText(f["children"], toStr))
      else Str("")
    case _ => Str("")
  }

  /** `extractText(nodes)`: the pieces of the nodes joined with one space and
      trimmed; `''` for anything that is not an array. */
  function ExtractText(nodes: Value, toStr: Value -> string): (r: string)
    ensures !nodes.Arr? ==> r == ""
    ensures |r| > 0 ==> !IsWhitespace(r[0]) && !IsWhitespace(r[|r| - 1])
    decreases nodes, 1
  {
    match nodes
    case Arr(items) =>
      Trim(Join(seq(|items|, k requires 0 <= k < |items| => JoinPiece(NodePiece(items[k], toStr), toStr)), " "))
    case _ => ""
  }

  /** At most `PREVIEW_LIMIT` characters are kept; a longer text is cut there
      and marked with an ellipsis. */
  function Preview(text: string): (r: string)
    ensures |r| <= PREVIEW_LIMIT + |ELLIPSIS|
    ensures |text| <= PREVIEW_LIMIT ==> r == text
    ensures |text| > PREVIEW_LIMIT ==>
              |r| == PREVIEW_LIMIT + |ELLIPSIS| && r[..PREVIEW_LIMIT] == text[..PREVIEW_LIMIT] && r[PREVIEW_LIMIT..] == ELLIPSIS
  {
    if |text| > PREVIEW_LIMIT then text[..PREVIEW_LIMIT] + ELLIPSIS else text
  }

  /** Cutting a preview again changes nothing: a cut preview is exactly as
      long as the limit plus the ellipsis, and cuts to itself. */
  lemma PreviewIdempotent(text: string)
    ensures Preview(Preview(text)) == Preview(text)
  {
    if |text| > PREVIEW_LIMIT {
      var p := Preview(text);
      assert p[..PREVIEW_LIMIT] == text[..PREVIEW_LIMIT];
      assert p[..PREVIEW_LIMIT] + ELLIPSIS == p;
    }
  }

  /** `renderNoteContent(content)`: the placeholder when the content is falsy
      or has length 0, otherwise the preview of its extracted text. */
  function RenderNoteContent(content: Value, toStr: Value -> string): (r: string)
    ensures !Truthy(content) ==> r == PLACEHOLDER
    ensures content == Arr([]) ==> r == PLACEHOLDER
    ensures content.Arr? && |content.items| > 0 ==> r == Preview(ExtractText(content, toStr))
    ensures r == PLACEHOLDER || |r| <= PREVIEW_LIMIT + |ELLIPSIS|
  {
    if !Truthy(content) || Length(content) == Some(Num(0.0)) then PLACEHOLDER
    else Preview(ExtractText(content, toStr))
  }

  /** The text of a span sequence as the preview reads it. */
  function SpanTexts(spans: seq<Span>): (r: seq<string>)
    ensures |r| == |spans| && forall k :: 0 <= k < |r| ==> r[k] == spans[k].text
  {
    seq(|spans|, k requires 0 <= k < |spans| => spans[k].text)
  }

  /** Reference reading of a document's text: the texts of a block's spans
      joined with spaces and trimmed; a list's items likewise, one level up;
      the blocks likewise at the top. */
  function ElementText(e: Element): string {
    Trim(Join(SpanTexts(e.spans), " "))
  }

  function BlockText(b: Block): string {
    match b
    case Leaf(e) => ElementText(e)
    case Container(_, _, items) =>
      Trim(Join(seq(|items|, k requires 0 <= k < |items| => ElementText(items[k])), " "))
  }

  function DocText(doc: Doc): string {
    Trim(Join(seq(|doc|, k requires 0 <= k < |doc| => BlockText(doc[k])), " "))
  }

  /** The pieces of a stored span list are the span texts. */
  lemma SpanPieces(spans: seq<Span>, toStr: Value -> string)
    ensures var items := EncodeSpans(spans);
            seq(|items|, k requires 0 <= k < |items| => JoinPiece(NodePiece(items[k], toStr), toStr)) == SpanTexts(spans)
  {
  }

  lemma ElementPiece(e: Element, toStr: Value -> string)
    ensures JoinPiece(NodePiece(EncodeElement(e), toStr), toStr) == ElementText(e)
  {
    var children := Arr(EncodeSpans(e.spans));
    ChildrenPiece(EncodeElement(e), children, toStr);
    SpanPieces(e.spans, toStr);
    assert ExtractText(children, toStr) == ElementText(e);
  }

  lemma BlockPiece(b: Block, toStr: Value -> string)
    ensures JoinPiece(NodePiece(EncodeBlock(b), toStr), toStr) == BlockText(b)
  {
    match b
    case Leaf(e) => ElementPiece(e, toStr);
    case Container(kind, align, items) => ContainerPiece(kind, align, items, toStr);
  }

  lemma ContainerPiece(kind: string, align: Option<Align>, items: seq<Element>, toStr: Value -> string)
    ensures JoinPiece(NodePiece(EncodeBlock(Container(kind, align, items)), toStr), toStr)
            == BlockText(Container(kind, align, items))
  {
    var enc := EncodeElements(items);
    ChildrenPiece(EncodeBlock(Container(kind, align, items)), Arr(enc), toStr);
    ElementPieces(items, toStr);
  }

  /** An object without `text` contributes the text of its children. */
  lemma ChildrenPiece(v: Value, children: Value, toStr: Value -> string)
    requires v.Obj? && "text" !in v.fields && Field(v.fields, "children") == children
    ensures JoinPiece(NodePiece(v, toStr), toStr) == ExtractText(children, toStr)
  {
  }

  lemma ElementPieces(items: seq<Element>, toStr: Value -> string)
    ensures ExtractText(Arr(EncodeElements(items)), toStr)
            == Trim(Join(seq(|items|, k requires 0 <= k < |items| => ElementText(items[k])), " "))
  {
    var enc := EncodeElements(items);
    var texts := seq(|items|, k requires 0 <= k < |items| => ElementText(items[k]));
    forall k | 0 <= k < |enc|
      ensures JoinPiece(NodePiece(enc[k], toStr), toStr) == texts[k]
    {
      ElementPiece(items[k], toStr);
    }
    ExtractOfPieces(enc, texts, toStr);
  }

  /** Nodes whose pieces are known extract to those pieces, joined and trimmed. */
  lemma ExtractOfPieces(nodes: seq<Value>, texts: seq<string>, toStr: Value -> string)
    requires |nodes| == |texts|
    requires forall k :: 0 <= k < |nodes| ==> JoinPiece(NodePiece(nodes[k], toStr), toStr) == texts[k]
    ensures ExtractText(Arr(nodes), toStr) == Trim(Join(texts, " "))
  {
    var pieces := seq(|nodes|, k requires 0 <= k < |nodes| => JoinPiece(NodePiece(nodes[k], toStr), toStr));
    assert pieces == texts;
  }

  /** The preview of a stored editor document reads the document's text:
      whatever `String` does to other values never comes into it. */
  lemma StoredDocumentText(doc: Doc, toStr: Value -> string)
    ensures ExtractText(Arr(EncodeDoc(doc)), toStr) == DocText(doc)
  {
    var enc := EncodeDoc(doc);
    var texts := seq(|doc|, k requires 0 <= k < |doc| => BlockText(doc[k]));
    forall k | 0 <= k < |enc|
      ensures JoinPiece(NodePiece(enc[k], toStr), toStr) == texts[k]
    {
      BlockPiece(doc[k], toStr);
    }
    ExtractOfPieces(enc, texts, toStr);
  }

  lemma DefaultContentPreview(toStr: Value -> string)
    ensures RenderNoteContent(NoteUtils.DEFAULT_NOTE_CONTENT, toStr) == ""
  {
    NoteUtils.DefaultIsOneEmptyParagraph();
    StoredDocumentText(NoteUtils.EMPTY_DOC, toStr);
    EmptyDocText();
  }

  lemma EmptyDocText()
    ensures DocText(NoteUtils.EMPTY_DOC) == ""
  {
    var e := Element(EditorTypes.Paragraph, None, [Span("", map[])]);
    EmptyJoinTrim();
    assert SpanTexts(e.spans) == [""];
    assert BlockText(NoteUtils.EMPTY_DOC[0]) == "";
    assert seq(1, k requires 0 <= k < 1 => BlockText(NoteUtils.EMPTY_DOC[k])) == [""];
  }

  /** One empty piece joins and trims to nothing. */
  lemma EmptyJoinTrim()
    ensures Trim(Join([""], " ")) == ""
  {
    assert Join([""], " ") == "";
    TrimNoOp("");
  }

  /** A node with both `text` and `children` contributes its text. */
  lemma TextBeforeChildren(t: string, children: Value, toStr: Value -> string)
    ensures ExtractText(Arr([Obj(map["text" := Str(t), "children" := children])]), toStr) == Trim(t)
  {
    var items := [Obj(map["text" := Str(t), "children" := children])];
    var pieces := seq(|items|, k requires 0 <= k < |items| => JoinPiece(NodePiece(items[k], toStr), toStr));
    assert pieces == [t];
  }

  /** The tag normalisation of `loadNotes`: falsy tags become `[]`; a string
      is decoded (`[]` when decoding throws); an array is kept; any other
      truthy value becomes `[]`. */
  function NormalizeTags(tags: Value, parse: NoteUtils.Decoder): (r: Value)
    ensures !Truthy(tags) ==> r == Arr([])
    ensures tags.Arr? ==> r == tags
    ensures tags.Str? && tags.s != "" ==> r == (if parse(tags.s).Some? then parse(tags.s).value else Arr([]))
    ensures !tags.Arr? && !tags.Str? ==> r == Arr([])
  {
    if !Truthy(tags) then Arr([])
    else
      match tags
      case Str(s) => (match parse(s) case Some(v) => v case None => Arr([]))
      case Arr(_) => tags
      case _ => Arr([])
  }

  /** `{ ...note, tags }`: the note with only its tags replaced. */
  function ProcessNote(note: Record, parse: NoteUtils.Decoder): (r: Record)
    ensures r.Keys == note.Keys + {"tags"}
    ensures r["tags"] == NormalizeTags(Field(note, "tags"), parse)
    ensures forall k :: k in note && k != "tags" ==> r[k] == note[k]
  {
    Spread(note, map["tags" := NormalizeTags(Field(note, "tags"), parse)])
  }

  /** `{ ...item, tags }` for an element of the response that may not be an
      object: reading `tags` off `null` or `undefined` throws; a boolean or a
      number has no properties to spread. */
  function ProcessItem(item: Value, parse: NoteUtils.Decoder): (r: Result<Record>)
    ensures item.Null? || item.Undefined? <==> r.Err?
    ensures item.Obj? ==> r == Ok(ProcessNote(item.fields, parse))
  {
    match item
    case Null => Err("TypeError")
    case Undefined => Err("TypeError")
    case Obj(f) => Ok(ProcessNote(f, parse))
    case _ => Ok(map["tags" := Arr([])])
  }

  function ProcessAll(items: seq<Value>, parse: NoteUtils.Decoder): (r: Result<seq<Record>>)
    ensures r.Ok? ==> |r.value| == |items|
    ensures r.Ok? ==> forall k :: 0 <= k < |items| ==> ProcessItem(items[k], parse) == Ok(r.value[k])
    ensures r.Err? <==> exists k :: 0 <= k < |items| && ProcessItem(items[k], parse).Err?
  {
    if |items| == 0 then Ok([])
    else
      var rest := ProcessAll(items[1..], parse);
      assert forall k :: 0 < k < |items| ==> items[k] == items[1..][k - 1];
      match ProcessItem(items[0], parse)
      case Err(e) => Err(e)
      case Ok(n) => if rest.Ok? then Ok([n] + rest.value) else rest
  }

  /** `loadNotes` as written: the response is processed only when it is an
      array; any other response yields an empty list. */
  function LoadNotes(response: Value, parse: NoteUtils.Decoder): (r: Result<seq<Record>>)
    ensures !response.Arr? ==> r == Ok([])
    ensures response.Arr? ==> r == ProcessAll(response.items, parse)
  {
    match response
    case Arr(items) => ProcessAll(items, parse)
    case _ => Ok([])
  }

  /** The response `getNotes` gives is an object, never an array, so the page
      as written lists no note at all, however many the backend holds. */
  lemma LoadNotesDropsEveryNote(db: MockData.Db, parse: NoteUtils.Decoder)
    ensures LoadNotes(MockData.GetNotes(db), parse) == Ok([])
  {
  }

  /** `loadNotes` reading the `notes` field of the response, as the response
      type of `getNotes` says it should. */
  function LoadNotesFixed(response: Value, parse: NoteUtils.Decoder): (r: Result<seq<Record>>)
    ensures response.Obj? && Field(response.fields, "notes").Arr? ==>
              r == ProcessAll(Field(response.fields, "notes").items, parse)
  {
    match response
    case Obj(f) => LoadNotes(Field(f, "notes"), parse)
    case _ => Ok([])
  }

  /** Read through the corrected loader, every note of the backend is listed,
      in order, with only its tags normalised. */
  lemma LoadNotesFixedListsEveryNote(db: MockData.Db, parse: NoteUtils.Decoder)
    ensures var r := LoadNotesFixed(MockData.GetNotes(db), parse);
            && r.Ok? && |r.value| == |db.notes|
            && forall k :: 0 <= k < |db.notes| ==> r.value[k] == ProcessNote(db.notes[k], parse)
  {
    var items := Objs(db.notes);
    var r := ProcessAll(items, parse);
    assert !exists k :: 0 <= k < |items| && ProcessItem(items[k], parse).Err?;
    assert r.Ok?;
    forall k | 0 <= k < |db.notes|
      ensures r.value[k] == ProcessNote(db.notes[k], parse)
    {
      assert ProcessItem(items[k], parse) == Ok(r.value[k]);
    }
  }

  /** `handleDeleteNote`: the backend removes the first note with the id and
      the store then drops every note with it; with ids unique both lists end
      up the same. */
  lemma DeleteAgrees(db: MockData.Db, s: Store.NoteState, id: string)
    requires UniqueIds(db.notes) && s.notes == db.notes
    requires exists k :: 0 <= k < |db.notes| && HasId(db.notes[k], id)
    ensures MockData.DeleteNote(db, id).db.notes == Store.DeleteNote(s, id).notes
  {
    var i := FindIndex(db.notes, id).value;
    RemoveFirstIsDropAll(db.notes, id, i);
  }
}
