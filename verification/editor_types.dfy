/** The editor's vocabulary: marks, alignments, the hotkey table, the list and
    alignment format names, and the shape of text blocks and text spans. */
module EditorTypes {
  import opened Results

  /** The optional boolean mark fields of a text span. */
  datatype Mark = Bold | Italic | Underline | Code

  /** The alignment values a block may carry. */
  datatype Align = Left | Center | Right | Justify

  /** A text span: its text plus whichever marks are present. A mark that is
      absent from the map is an unset optional field; any combination is legal. */
  datatype Span = Span(text: string, marks: map<Mark, bool>)

  /** A block whose children are text spans. `kind` is the element's `type`
      string, `align` is `None` when the element has no `align` key. */
  datatype Element = Element(kind: string, align: Option<Align>, spans: seq<Span>)

  const ListItem: string := "list-item"
  const Paragraph: string := "paragraph"

  /** The format names whose toggling builds or removes a list container, in
      declaration order. */
  const LIST_TYPES: seq<string> := ["numbered-list", "bulleted-list"]

  /** The format names that toggle alignment rather than block type. */
  const TEXT_ALIGN_TYPES: seq<string> := ["left", "center", "right", "justify"]

  /** The hotkey table as an ordered object: key combination, then the name
      of the mark it toggles. */
  const HOTKEYS: seq<(string, string)> :=
    [("mod+b", "bold"), ("mod+i", "italic"), ("mod+u", "underline"), ("mod+`", "code")]

  /** `isListType`: the format names one of the two list containers. */
  predicate IsListType(format: string)
  {
    format in LIST_TYPES
  }

  /** `isAlignType`: the format names one of the four alignments. */
  predicate IsAlignType(format: string)
  {
    format in TEXT_ALIGN_TYPES
  }

  function MarkName(m: Mark): string {
    match m
    case Bold => "bold"
    case Italic => "italic"
    case Underline => "underline"
    case Code => "code"
  }

  /** The mark field a format string names, if it names one. */
  function MarkOf(name: string): (r: Option<Mark>)
    ensures r.Some? ==> MarkName(r.value) == name
    ensures r.None? ==> forall m :: MarkName(m) != name
  {
    if name == "bold" then Some(Bold)
    else if name == "italic" then Some(Italic)
    else if name == "underline" then Some(Underline)
    else if name == "code" then Some(Code)
    else None
  }

  function AlignName(a: Align): string {
    match a
    case Left => "left"
    case Center => "center"
    case Right => "right"
    case Justify => "justify"
  }

  /** The alignment an align-format string names; defined exactly on the
      alignment formats. */
  function AlignOf(format: string): (r: Option<Align>)
    ensures r.Some? <==> IsAlignType(format)
    ensures r.Some? ==> AlignName(r.value) == format
  {
    if format == "left" then Some(Left)
    else if format == "center" then Some(Center)
    else if format == "right" then Some(Right)
    else if format == "justify" then Some(Justify)
    else None
  }

  /** Mark names and alignment names are each a bijection with their strings. */
  lemma NamesRoundTrip(m: Mark, a: Align)
    ensures MarkOf(MarkName(m)) == Some(m)
    ensures AlignOf(AlignName(a)) == Some(a)
    ensures IsAlignType(AlignName(a))
  {
  }

  /** The hotkey table has four entries with distinct key combinations, each
      value naming a mark field of a text span, and no two naming the same mark;
      together they cover all four marks. */
  lemma HotkeysAreDistinctMarks()
    ensures |HOTKEYS| == 4
    ensures forall i :: 0 <= i < |HOTKEYS| ==> MarkOf(HOTKEYS[i].1).Some?
    ensures forall i, j :: 0 <= i < j < |HOTKEYS| ==>
              HOTKEYS[i].0 != HOTKEYS[j].0 && MarkOf(HOTKEYS[i].1) != MarkOf(HOTKEYS[j].1)
    ensures (set i | 0 <= i < |HOTKEYS| :: MarkOf(HOTKEYS[i].1))
            == {Some(Bold), Some(Italic), Some(Underline), Some(Code)}
  {
    var marks := set i | 0 <= i < |HOTKEYS| :: MarkOf(HOTKEYS[i].1);
    assert MarkOf(HOTKEYS[0].1) in marks && MarkOf(HOTKEYS[1].1) in marks;
    assert MarkOf(HOTKEYS[2].1) in marks && MarkOf(HOTKEYS[3].1) in marks;
  }

  /** The list formats are exactly the two list kinds, the alignment formats
      exactly the four alignments, and no format is both. */
  lemma FormatFamiliesDisjoint(format: string)
    ensures IsAlignType(format) <==> exists a :: AlignName(a) == format
    ensures !(IsListType(format) && IsAlignType(format))
    ensures !IsListType(ListItem) && !IsListType(Paragraph)
    ensures !IsAlignType(ListItem) && !IsAlignType(Paragraph)
  {
    if IsAlignType(format) {
      assert AlignName(AlignOf(format).value) == format;
    }
  }
}
