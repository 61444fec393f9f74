/** The adapter between what a note stores and what the editor and the list
    show (`src/utils/note.ts`): the default document and two total parsers
    that fall back instead of throwing. `JSON.parse` is a parameter: it
    returns `None` where the real one throws. */
module NoteUtils {
  import opened Results
  import opened JsValue
  import opened JsString
  import EditorTypes
  import Document
  import ContentJson

  /** `JSON.parse`, abstracted: `None` for text it rejects. */
  type Decoder = string -> Option<Value>

  /** One empty text node, `{ text: '' }`. */
  const EMPTY_TEXT: Value := Obj(map["text" := Str("")])

  /** `DEFAULT_NOTE_CONTENT`: one paragraph holding one empty text node. */
  const DEFAULT_NOTE_CONTENT: Value :=
    Arr([Obj(map["type" := Str(EditorTypes.Paragraph), "children" := Arr([EMPTY_TEXT])])])

  /** The editor document the default stands for: one unaligned paragraph
      holding one empty, unmarked span. */
  const EMPTY_DOC: Document.Doc :=
    [Document.Leaf(EditorTypes.Element(EditorTypes.Paragraph, None, [EditorTypes.Span("", map[])]))]

  /** The default content is exactly the stored form of the one-empty-paragraph
      document, reads back as that document, and has length 1. */
  lemma DefaultIsOneEmptyParagraph()
    ensures DEFAULT_NOTE_CONTENT == Arr(ContentJson.EncodeDoc(EMPTY_DOC))
    ensures ContentJson.DecodeDoc(DEFAULT_NOTE_CONTENT) == Some(EMPTY_DOC)
    ensures Length(DEFAULT_NOTE_CONTENT) == Some(Num(1.0))
  {
    var span := EditorTypes.Span("", map[]);
    assert ContentJson.EncodeSpan(span) == EMPTY_TEXT;
    assert ContentJson.EncodeSpans([span]) == [EMPTY_TEXT];
    assert Document.WellFormed(EMPTY_DOC);
    ContentJson.DocRoundTrip(EMPTY_DOC);
  }

  /** `parseNoteContent`: an array is kept as it is (even when empty); a string
      is decoded and the decoded value kept when its `length` is truthy; a
      failed decode, a decoded `null` (reading its `length` throws inside the
      `try`), a decoded value without a truthy `length`, and every other input
      give the default document. */
  function ParseNoteContent(content: Value, parse: Decoder): (r: Value)
    ensures content.Arr? ==> r == content
    ensures !content.Arr? && !content.Str? ==> r == DEFAULT_NOTE_CONTENT
    ensures content.Str? && parse(content.s).None? ==> r == DEFAULT_NOTE_CONTENT
    ensures content.Str? && parse(content.s).Some? ==>
              var parsed := parse(content.s).value;
              && (r == parsed || r == DEFAULT_NOTE_CONTENT)
              && (r == parsed <== Length(parsed).Some? && Truthy(Length(parsed).value))
              && (parsed.Null? || parsed == Arr([]) || parsed == Str("") ==> r == DEFAULT_NOTE_CONTENT)
    ensures !content.Arr? ==> Length(r).Some? && Truthy(Length(r).value)
  {
    match content
    case Arr(_) => content
    case Str(s) =>
      (match parse(s)
       case None => DEFAULT_NOTE_CONTENT
       case Some(parsed) =>
         match Length(parsed)
         case None => DEFAULT_NOTE_CONTENT
         case Some(len) => if Truthy(len) then parsed else DEFAULT_NOTE_CONTENT)
    case _ => DEFAULT_NOTE_CONTENT
  }

  /** Saving a non-empty document as its JSON text and parsing it back gives
      the same document, provided the codec itself round-trips. */
  lemma ContentRoundTrip(doc: seq<Value>, parse: Decoder, stringify: seq<Value> -> string)
    requires |doc| > 0 && parse(stringify(doc)) == Some(Arr(doc))
    ensures ParseNoteContent(Str(stringify(doc)), parse) == Arr(doc)
    ensures ParseNoteContent(Arr(doc), parse) == Arr(doc)
  {
  }

  /** `.map(tag => tag.trim())`. */
  function TrimAll(pieces: seq<string>): (r: seq<string>)
    ensures |r| == |pieces| && forall k :: 0 <= k < |r| ==> r[k] == Trim(pieces[k])
  {
    seq(|pieces|, k requires 0 <= k < |pieces| => Trim(pieces[k]))
  }

  /** `.filter(Boolean)` on strings: the non-empty ones, in order. */
  function DropEmpty(ts: seq<string>): (r: seq<string>)
    ensures |r| <= |ts|
    ensures forall k :: 0 <= k < |r| ==> r[k] != ""
    ensures forall t :: t in r <==> t in ts && t != ""
  {
    if |ts| == 0 then []
    else
      var rest := DropEmpty(ts[1..]);
      assert ts == [ts[0]] + ts[1..];
      if ts[0] == "" then rest else [ts[0]] + rest
  }

  /** `.filter(Boolean)` keeps order and multiplicity: nothing of nothing,
      one string exactly when it is non-empty, and it distributes over
      concatenation. */
  lemma {:induction false} DropEmptyLaws(a: seq<string>, b: seq<string>, t: string)
    ensures DropEmpty([]) == []
    ensures DropEmpty([t]) == if t == "" then [] else [t]
    ensures DropEmpty(a + b) == DropEmpty(a) + DropEmpty(b)
    decreases |a|
  {
    assert [t][1..] == [];
    if |a| == 0 {
      assert a + b == b;
    } else {
      assert (a + b)[1..] == a[1..] + b;
      DropEmptyLaws(a[1..], b, t);
    }
  }

  /** The fallback for tag text that is not JSON: `tags.split(',')`, each
      piece trimmed, the empty ones dropped; a tag is kept exactly when it is a
      non-empty trimmed piece. */
  function SplitTags(s: string): (r: seq<string>)
    ensures |r| <= |Split(s, ',')|
    ensures forall t :: t in r <==> t != "" && t in TrimAll(Split(s, ','))
  {
    DropEmpty(TrimAll(Split(s, ',')))
  }

  /** The fallback reads tags left to right: the trimmed text before the
      first comma (unless blank), then the tags of the rest. */
  lemma SplitTagsFirst(a: string, b: string)
    requires ',' !in a
    ensures SplitTags(a + [','] + b) == (if Trim(a) == "" then [] else [Trim(a)]) + SplitTags(b)
  {
    SplitFirst(a, b, ',');
    var pieces := Split(b, ',');
    TrimAllCons(a, pieces);
    DropEmptyLaws([Trim(a)], TrimAll(pieces), Trim(a));
  }

  /** Text without a comma is one tag, or none when blank. */
  lemma SplitTagsSingle(a: string)
    requires ',' !in a
    ensures SplitTags(a) == if Trim(a) == "" then [] else [Trim(a)]
  {
    SplitWithoutSeparator(a, ',');
    TrimAllCons(a, []);
    DropEmptyLaws([], [], Trim(a));
  }

  lemma TrimAllCons(x: string, pieces: seq<string>)
    ensures TrimAll([x] + pieces) == [Trim(x)] + TrimAll(pieces)
  {
    var l := TrimAll([x] + pieces);
    var r := [Trim(x)] + TrimAll(pieces);
    forall k | 0 <= k < |l|
      ensures l[k] == r[k]
    {
      if k > 0 {
        assert ([x] + pieces)[k] == pieces[k - 1];
      }
    }
  }

  /** No tag of the fallback is empty, holds a comma, or starts or ends with
      whitespace. */
  lemma SplitTagsClean(s: string)
    ensures forall k :: 0 <= k < |SplitTags(s)| ==> CleanTag(SplitTags(s)[k])
  {
    var pieces := Split(s, ',');
    var r := SplitTags(s);
    assert r == DropEmpty(TrimAll(pieces));
    TrimmedPieces(pieces, ',');
    forall k | 0 <= k < |r|
      ensures CleanTag(r[k])
    {
    }
  }

  lemma TrimmedPieces(pieces: seq<string>, c: char)
    requires forall k :: 0 <= k < |pieces| ==> c !in pieces[k]
    ensures var r := DropEmpty(TrimAll(pieces));
            forall k :: 0 <= k < |r| ==> c !in r[k] && !IsWhitespace(r[k][0]) && !IsWhitespace(r[k][|r[k]| - 1])
  {
    var r := DropEmpty(TrimAll(pieces));
    forall k | 0 <= k < |r|
      ensures c !in r[k] && !IsWhitespace(r[k][0]) && !IsWhitespace(r[k][|r[k]| - 1])
    {
      TrimmedPiece(pieces, r[k], c);
    }
  }

  /** A non-empty trimmed piece has no whitespace at either end and holds no
      character that no piece holds. */
  lemma TrimmedPiece(pieces: seq<string>, t: string, c: char)
    requires t in TrimAll(pieces) && t != ""
    requires forall k :: 0 <= k < |pieces| ==> c !in pieces[k]
    ensures c !in t && !IsWhitespace(t[0]) && !IsWhitespace(t[|t| - 1])
  {
    var trimmed := TrimAll(pieces);
    var i :| 0 <= i < |trimmed| && trimmed[i] == t;
    assert t == Trim(pieces[i]);
    if c in t {
      TrimKeepsChars(pieces[i], c);
    }
  }

  /** Each string as a JSON string value. */
  function AsValues(ts: seq<string>): (r: seq<Value>)
    ensures |r| == |ts| && forall k :: 0 <= k < |r| ==> r[k] == Str(ts[k])
  {
    if |ts| == 0 then [] else [Str(ts[0])] + AsValues(ts[1..])
  }

  /** `parseNoteTags`: an array is kept; a string that decodes to an array
      gives the decoded elements; a string that does not decode gives the comma
      fallback; a string that decodes to anything else, and every input that is
      neither array nor string, gives no tags. */
  function ParseNoteTags(tags: Value, parse: Decoder): (r: seq<Value>)
    ensures tags.Arr? ==> r == tags.items
    ensures !tags.Arr? && !tags.Str? ==> r == []
    ensures tags.Str? ==>
              match parse(tags.s)
              case None => r == AsValues(SplitTags(tags.s))
              case Some(v) => r == (if v.Arr? then v.items else [])
  {
    match tags
    case Arr(items) => items
    case Str(s) =>
      (match parse(s)
       case None => AsValues(SplitTags(s))
       case Some(Arr(items)) => items
       case Some(_) => [])
    case _ => []
  }

  /** A tag list saved as JSON text comes back unchanged. */
  lemma TagsRoundTrip(ts: seq<Value>, parse: Decoder, stringify: seq<Value> -> string)
    requires parse(stringify(ts)) == Some(Arr(ts))
    ensures ParseNoteTags(Str(stringify(ts)), parse) == ts
  {
  }

  /** A tag as the fallback produces it: non-empty, comma-free, trimmed. */
  predicate CleanTag(t: string) {
    |t| > 0 && ',' !in t && !IsWhitespace(t[0]) && !IsWhitespace(t[|t| - 1])
  }

  /** When the text is not JSON, two tags separated by a comma and a space
      come back as those two tags. */
  lemma TwoTags(a: string, b: string, parse: Decoder)
    requires CleanTag(a) && CleanTag(b)
    requires parse(a + ", " + b).None?
    ensures ParseNoteTags(Str(a + ", " + b), parse) == [Str(a), Str(b)]
  {
    SplitTagsTwo(a, b);
    AsValuesPair(a, b);
  }

  lemma AsValuesPair(a: string, b: string)
    ensures AsValues([a, b]) == [Str(a), Str(b)]
  {
    assert [a, b][1..] == [b];
  }

  lemma SplitTagsTwo(a: string, b: string)
    requires CleanTag(a) && CleanTag(b)
    ensures SplitTags(a + ", " + b) == [a, b]
  {
    SplitTwo(a, b);
    TrimAllTwo(a, b);
    DropEmptyTwo(a, b);
  }

  lemma TrimAllTwo(a: string, b: string)
    requires |a| > 0 && !IsWhitespace(a[0]) && !IsWhitespace(a[|a| - 1])
    requires |b| > 0 && !IsWhitespace(b[0]) && !IsWhitespace(b[|b| - 1])
    ensures TrimAll([a, " " + b]) == [a, b]
  {
    TrimLeadingSpace(b);
    TrimNoOp(a);
  }

  lemma SplitTwo(a: string, b: string)
    requires ',' !in a && ',' !in b && |b| > 0
    ensures Split(a + ", " + b, ',') == [a, " " + b]
  {
    assert a + ", " + b == a + [','] + (" " + b);
    SplitFirst(a, " " + b, ',');
    SplitWithoutSeparator(" " + b, ',');
  }

  lemma DropEmptyTwo(a: string, b: string)
    requires a != "" && b != ""
    ensures DropEmpty([a, b]) == [a, b]
  {
    assert [a, b][1..] == [b];
    assert [b][1..] == [];
  }

  /** `"work, notes"` gives the tags `work` and `notes`. */
  lemma WorkNotesExample(parse: Decoder)
    requires parse("work, notes").None?
    ensures ParseNoteTags(Str("work, notes"), parse) == [Str("work"), Str("notes")]
  {
    assert "work, notes" == "work" + ", " + "notes";
    TwoTags("work", "notes", parse);
  }

  /** A fallback list is never empty-tagged: every tag the comma fallback
      produces is a non-empty string. */
  lemma FallbackTagsNonEmpty(s: string, parse: Decoder)
    requires parse(s).None?
    ensures forall k :: 0 <= k < |ParseNoteTags(Str(s), parse)| ==>
              var t := ParseNoteTags(Str(s), parse)[k]; t.Str? && t.s != "" && ',' !in t.s
  {
    SplitTagsClean(s);
  }
}
