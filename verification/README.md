# tiny-note-frontend, modelled in Dafny

This is a model of the logic inside the tiny-note front end, a Next.js note
app.

- **The rich-text command engine** (`NoteEditor.tsx` and `types.ts`):
  - `isBlockActive`, `isMarkActive`, `toggleBlock` and `toggleMark`, and the
    hotkey branch of `onKeyDown`;
  - they run over a closed two-level document. A top-level block is a text
    block or a list container of text blocks, and a selection points at one
    lowest block.
- **The persisted-content adapter** (`utils/note.ts`): the default
  document, `parseNoteContent` and `parseNoteTags`, with the comma fallback
  written out character by character.
- **The note list page** (`app/page.tsx`): `extractText`,
  `renderNoteContent`, and the tag normalisation that `loadNotes` applies to
  every note.
- **The client stores** (`store/index.ts`): the reducers of the auth, note
  and UI stores.
- **The in-memory backend** (`services/mockData.ts`) and the API layer
  above it (`services/api.ts`):
  - every service is a function from the arrays before the call to the
    arrays after it, together with the value it returns or the error it
    throws;
  - `getNote`, `updateTag`/`deleteTag` and `updateCategory`/`deleteCategory`
    carry logic of their own.

JavaScript values are the datatype `JsValue.Value`. A record (a note, tag,
user or category) is a `map<string, Value>`, so object spread `{...a, ...b}`
is map union. Some functions the code calls are parameters of the model
rather than definitions:

- `JSON.parse` and `JSON.stringify`;
- `String(v)` as `Array.prototype.join` applies it;
- `toLowerCase`;
- the clock (`Date.now()`, `toISOString()`);
- `isHotkey`.

Slate's own transforms are stated by their effect on the two-level tree:

- `unwrapNodes` with `split: true` lifts an item out of its list. An only
  child replaces the list. A first or last child moves before or after it.
  A middle child splits the list in two.
- `setNodes` overwrites one key.
- `wrapNodes` puts a fresh list container with no `align` around the block.
- `Editor.marks` gives the pending marks at a collapsed cursor if there are
  any. Otherwise it gives the marks of the span at the cursor, or of the
  first span when the whole block is selected. A caret carries no offset:
  `Caret(k)` stands for the span whose marks `Editor.marks` reads, so a
  caret at offset 0 of span k > 0, which reads the previous span of the
  same block, is `Caret(k - 1)`. No other outcome depends on the offset.
- `addMark`/`removeMark` write the pending marks at a cursor, or every span
  of a fully selected block.

Modules, one per file:

| module | contents |
|---|---|
| `Results` | `Option` and `Result` |
| `JsValue` | JavaScript values, truthiness, `length` and spread |
| `JsString` | `trim`, `split`, `join` and `includes` |
| `EditorTypes` | marks, alignments, hotkeys and format names |
| `Document` | the tree, paths, selections and leaf order |
| `SlateTransforms` | lift, `setNodes` and wrap |
| `NoteEditor` | the commands |
| `NoteEditorLaws` | properties of the commands |
| `ContentJson` | the stored JSON form of a document |
| `NoteUtils` | `note.ts` |
| `Records` | id lookups |
| `MockData` | the backend services |
| `Api` | the API layer |
| `Store` | the zustand stores |
| `HomePage` | `page.tsx` |

## Model

| member | source | states |
|---|---|---|
| EditorTypes.MarkOf | src/components/editor/types.ts:32-38 | a format names a mark exactly when it is one of the four optional boolean fields of a text node, and then it names that mark |
| EditorTypes.AlignOf | src/components/editor/NoteEditor.tsx:310-312 | `isAlignType`: a format names an alignment exactly when it is in `TEXT_ALIGN_TYPES`, and it names the alignment whose name it is |
| EditorTypes.NamesRoundTrip | src/components/editor/types.ts:20-38 | mark names and alignment names are each in one-to-one correspondence with their strings |
| EditorTypes.HotkeysAreDistinctMarks | src/components/editor/types.ts:13-18 | the hotkey table has four distinct key combinations, each naming a mark field, no two the same mark, all four marks covered |
| EditorTypes.FormatFamiliesDisjoint | src/components/editor/types.ts:19-23 | the list formats are exactly numbered/bulleted, the alignment formats exactly the four alignments, no format is both, and neither `paragraph` nor `list-item` is either |
| EditorTypes.IsListType | src/components/editor/NoteEditor.tsx:314-316 | `isListType`: a format is a list format exactly when it is `numbered-list` or `bulleted-list` |
| EditorTypes.IsAlignType | src/components/editor/NoteEditor.tsx:310-312 | `isAlignType`: a format is an alignment exactly when it is `left`, `center`, `right` or `justify` |
| Document.Ancestors | src/components/editor/NoteEditor.tsx:158-160 | the elements `Editor.nodes` visits at a selection: the enclosing container (if any), then the selected block itself |
| SlateTransforms.LiftItem | src/components/editor/NoteEditor.tsx:121-128 | lifting item `j` gives the blocks before the list, the items before `j` in a container of the same kind and align (if any), the item as a top-level block, the items after it in such a container (if any), then the blocks after the list; the leaf order is unchanged, the edit point stays on that item, an only child replaces its list in place, and well-formedness is kept |
| SlateTransforms.SetNodes | src/components/editor/NoteEditor.tsx:139 | `setNodes` changes exactly the selected lowest block, by exactly the written key; all other blocks and the leaf order stay |
| SlateTransforms.ReplaceLaws | src/components/editor/NoteEditor.tsx:139 | writing back the element already there changes nothing, and a second write at the same place supersedes the first |
| SlateTransforms.WriteMark | src/components/editor/NoteEditor.tsx:149-151 | `addMark` sets the mark to the value, `removeMark` deletes it, and every other mark is kept |
| SlateTransforms.Wrap | src/components/editor/NoteEditor.tsx:140-143 | `wrapNodes` puts a fresh list container with no `align` around exactly the selected block; the leaf order and the other blocks are unchanged |
| NoteEditor.IsBlockActive | src/components/editor/NoteEditor.tsx:155-173 | false without a selection; otherwise true exactly when the container or the block matches, by `align` when it has one in the align dimension, by `type` otherwise |
| NoteEditor.DimensionOf | src/components/editor/NoteEditor.tsx:115-119 | activity is compared by `align` exactly for alignment formats, by `type` otherwise |
| NoteEditor.NodeMatches | src/components/editor/NoteEditor.tsx:161-169 | an element matches by `type` unless the comparison is by align and the element has an `align` key; then it matches exactly when its alignment is the one the format names |
| NoteEditor.CurrentMarks | src/components/editor/NoteEditor.tsx:175-177 | there are current marks exactly when there is a selection, and pending marks set at a collapsed cursor take precedence |
| NoteEditor.CurrentMarksFromDocument | src/components/editor/NoteEditor.tsx:175-177 | with no pending marks, the current marks are those of the text at the selection's anchor (the first span of a whole-block selection) |
| NoteEditor.IsMarkActive | src/components/editor/NoteEditor.tsx:175-178 | a mark is active only with a selection, and with pending marks exactly when they hold it as `true`; a missing or `false` mark is inactive |
| NoteEditor.SetMark | src/components/editor/NoteEditor.tsx:149-151 | writing a mark keeps the editor valid and the selection unchanged. It leaves all text and every other mark as it was. Afterwards the mark is active exactly when it was set to `true`. At a cursor the document is untouched; over a whole block every span of that block holds the written value and every other span of the document keeps its value of the mark |
| NoteEditor.RemarkKeepsRest | src/components/editor/NoteEditor.tsx:149-151 | rewriting one mark over a whole block changes neither the texts nor the values of any other mark anywhere in the document |
| NoteEditor.RemarkWrites | src/components/editor/NoteEditor.tsx:149-151 | a whole-block write changes the mark's values only at the selected block, where every span gets the written value |
| NoteEditor.ToggleMark | src/components/editor/NoteEditor.tsx:146-153 | with a selection, the mark's activity flips. Texts, other marks, other marks' activity and the selection are unchanged. At a cursor the document is untouched; over a whole block the mark is removed from (when active) or set `true` on every span of that block and nowhere else. Without a selection nothing happens |
| NoteEditor.Dispatch | src/components/editor/NoteEditor.tsx:101-107 | the hotkey loop keeps the editor valid, changes no text, and is the identity when no remaining hotkey matches |
| NoteEditor.OnKeyDown | src/components/editor/NoteEditor.tsx:98-107 | a read-only editor ignores every key; otherwise only marks may change, never the texts or the selection |
| NoteEditor.UnwrapLists | src/components/editor/NoteEditor.tsx:121-128 | alignment formats and top-level blocks are left alone; otherwise a list item is lifted to the top level, with leaf order and edit point kept |
| NoteEditor.NewProps | src/components/editor/NoteEditor.tsx:129-138 | alignment formats write `align`, the others `type`; an active alignment is cleared and an inactive one set to the alignment the format names; an active type becomes `paragraph`, an inactive list format `list-item`, any other inactive format itself; no list type is ever written on a block |
| NoteEditor.Retype | src/components/editor/NoteEditor.tsx:129-143 | after unwrapping, writing and wrapping, exactly the selected lowest block has changed, by exactly the new property; it keeps its place in leaf order |
| NoteEditor.ToggleBlock | src/components/editor/NoteEditor.tsx:114-144 | the editor stays valid; the selected lowest block alone changes, by the property `newProperties` names; the selection follows it; the text content (spans and marks) of the document is unchanged |
| NoteEditorLaws.AlignToggle | src/components/editor/NoteEditor.tsx:121-133 | toggling an alignment keeps the document's shape, every type and the selection; it writes the alignment on the selected block, or clears it when active |
| NoteEditorLaws.AlignToggleTwice | src/components/editor/NoteEditor.tsx:121-139 | from an unaligned block, toggling an alignment twice gives back the same editor state |
| NoteEditorLaws.KindToggle | src/components/editor/NoteEditor.tsx:120-139 | toggling a non-list, non-alignment type lifts the block out of any list, the rest of that list kept around it as `unwrapNodes` with `split` leaves it; its type becomes the format when inactive and `paragraph` when active; align and spans are kept; a top-level block is retyped in place and every other block is unchanged |
| NoteEditorLaws.KindToggleTwiceFromParagraph | src/components/editor/NoteEditor.tsx:134-139 | from a top-level paragraph, toggling such a type twice gives back the same editor state |
| NoteEditorLaws.ListOn | src/components/editor/NoteEditor.tsx:120-143 | switching a list format on leaves the block a `list-item` as the only child of a fresh container of that format with no align, never nested in another list; the items before and after it in an enclosing list stay in containers of that list's kind around it, and every other block is unchanged |
| NoteEditorLaws.ListOff | src/components/editor/NoteEditor.tsx:121-140 | switching the active list format off leaves the block a top-level `paragraph`, with no new container; the items before and after it stay in containers of the list's kind around it, an only item replaces its list, and every other block is unchanged |
| NoteEditorLaws.RetypeSpliced | src/components/editor/NoteEditor.tsx:120-143 | for every non-alignment format the result is the document with the block lifted out of its list as `split` does and retyped, wrapped alone in a fresh container when a list is switched on |
| NoteEditorLaws.ListToggleTwiceFromParagraph | src/components/editor/NoteEditor.tsx:120-143 | a top-level paragraph switched into a list and back is the same editor state |
| NoteEditorLaws.ToggleBlockNormalized | src/components/editor/NoteEditor.tsx:114-144 | every toolbar block toggle keeps the list invariants: no top-level `list-item`, and containers hold `list-item` blocks only |
| NoteEditorLaws.RetypeNormalized | src/components/editor/NoteEditor.tsx:121-143 | the unwrap, write and wrap steps together keep the list invariants |
| NoteEditorLaws.MarkToggleTwiceAtCaret | src/components/editor/NoteEditor.tsx:146-153 | at a cursor, toggling a mark twice leaves the document alone and gives back the current marks, unless the mark was explicitly `false` |
| NoteEditorLaws.MarkToggleTwiceOverBlock | src/components/editor/NoteEditor.tsx:146-153 | over a whole block whose spans agree on the mark, toggling it twice gives back the same editor state |
| NoteEditorLaws.WriteMarkAllTwice | src/components/editor/NoteEditor.tsx:149-151 | a second write of one mark over a block overrides the first |
| NoteEditorLaws.DispatchSkips | src/components/editor/NoteEditor.tsx:101-102 | hotkeys the event does not match are skipped |
| NoteEditorLaws.SingleHotkey | src/components/editor/NoteEditor.tsx:98-107 | in an editable editor, an event matching exactly one hotkey toggles exactly the mark that hotkey names |
| NoteEditorLaws.HelloScenario | src/components/editor/NoteEditor.tsx:114-153 | "Hello" made bold, then a heading, then a numbered item, then a paragraph again keeps its text and its bold mark throughout |
| ContentJson.EncodeSpan | src/components/editor/types.ts:32-38 | a stored text node carries its text and exactly the mark fields the span sets |
| ContentJson.EncodeElement | src/components/editor/types.ts:26-30 | a stored element carries its type and its children, and an `align` key exactly when aligned |
| ContentJson.SpanRoundTrip | src/components/editor/types.ts:32-38 | reading back a stored text node gives the same span, marks included |
| ContentJson.ElementRoundTrip | src/components/editor/types.ts:26-38 | reading back a stored element gives the same element |
| ContentJson.BlockRoundTrip | src/components/editor/types.ts:26-38 | reading back a stored well-formed block, list containers included, gives the same block |
| ContentJson.DocRoundTrip | src/components/editor/types.ts:26-38 | storing a well-formed document and reading it back loses nothing |
| NoteUtils.DefaultIsOneEmptyParagraph | src/utils/note.ts:3-8 | the default content is the stored form of one unaligned paragraph holding one empty unmarked span, reads back as that document, and has length 1 |
| NoteUtils.ParseNoteContent | src/utils/note.ts:10-23 | an array is kept, even when empty. A string that fails to decode gives the default. A decoded value with a truthy `length` is kept. A decoded `null`, `[]` or `""` gives the default. Every other input gives the default. A non-array input never yields a value with a falsy length |
| NoteUtils.ContentRoundTrip | src/utils/note.ts:10-17 | a non-empty document saved as JSON text, or passed as an array, parses back to itself |
| NoteUtils.DropEmpty | src/utils/note.ts:39 | `.filter(Boolean)` keeps exactly the non-empty strings |
| NoteUtils.DropEmptyLaws | src/utils/note.ts:39 | `.filter(Boolean)` keeps order and multiplicity: it maps nothing to nothing, one string to itself exactly when non-empty, and distributes over concatenation |
| NoteUtils.SplitTags | src/utils/note.ts:36-39 | a tag is kept exactly when it is a non-empty trimmed comma-separated piece |
| NoteUtils.SplitTagsFirst | src/utils/note.ts:36-39 | the fallback reads left to right: the trimmed text before the first comma (unless blank), then the tags of the rest |
| NoteUtils.SplitTagsSingle | src/utils/note.ts:36-39 | text without a comma gives its trimmed self as the one tag, or no tag when blank |
| NoteUtils.SplitTagsClean | src/utils/note.ts:36-39 | no fallback tag is empty, holds a comma, or starts or ends with whitespace |
| NoteUtils.ParseNoteTags | src/utils/note.ts:25-43 | an array is kept. A string that decodes to an array gives that array's elements. A string that decodes to anything else gives `[]`. A string that does not decode gives the comma fallback. Any other input gives `[]` |
| NoteUtils.TagsRoundTrip | src/utils/note.ts:26-34 | a tag list saved as JSON text parses back to itself |
| NoteUtils.TwoTags | src/utils/note.ts:35-40 | non-JSON text `a, b` of two clean tags gives exactly the tags `a` and `b` |
| NoteUtils.WorkNotesExample | src/utils/note.ts:35-40 | `"work, notes"` gives `["work", "notes"]` |
| NoteUtils.FallbackTagsNonEmpty | src/utils/note.ts:35-40 | every tag the comma fallback produces is a non-empty, comma-free string |
| JsString.Trim | src/utils/note.ts:38 | `trim` leaves a contiguous piece of the input with no whitespace at either end, everything before and after that piece being whitespace, and leaves nothing only for all-whitespace input |
| JsString.TrimIdempotent | src/utils/note.ts:38 | trimming twice is trimming once |
| JsString.Split | src/utils/note.ts:37 | `split` yields at least one piece, no piece holds the separator, and joining the pieces with it gives the input back |
| JsString.SplitFirst | src/utils/note.ts:37 | splitting at the first separator gives the piece before it, then the split of the rest |
| JsString.IncludesAt | src/services/mockData.ts:290-291 | a string includes every substring it holds at some offset |
| JsString.IncludesWitness | src/services/mockData.ts:290-291 | a string includes a needle only when the needle occurs at some offset |
| JsValue.Spread | src/store/index.ts:69 | object spread has the keys of both operands, the right one winning |
| JsValue.Length | src/utils/note.ts:17 | reading `length` throws exactly on `null` and `undefined`, and gives the size of strings and arrays |
| Records.FindIndex | src/services/mockData.ts:261 | `findIndex` gives the first index holding the id, or none exactly when no record has it |
| Records.Find | src/services/api.ts:94 | `find` gives the first record with the id, and some record exactly when one has the id |
| Records.DropId | src/store/index.ts:78 | `filter(r => r.id !== id)` keeps exactly the records without the id |
| Records.DropIdLaws | src/store/index.ts:76-81 | the filter keeps order and multiplicity: nothing gives nothing, one record is kept exactly when its id differs, and it distributes over concatenation |
| Records.RemoveFirstIsDropAll | src/services/mockData.ts:278-283 | with unique ids, splicing out the first record with the id equals filtering out every record with it |
| MockData.Login | src/services/mockData.ts:204-210 | login succeeds exactly for the demo credentials. Its token is `mock-jwt-token-` plus the clock. The user is the demo account while it is first. Nothing changes |
| MockData.Register | src/services/mockData.ts:216-225 | exactly one user is appended and returned, with the given name and email and the clock as id; nothing else changes |
| MockData.GetNotes | src/services/mockData.ts:238-241 | the response holds the notes and a `total` equal to their number |
| MockData.CreateNote | src/services/mockData.ts:247-254 | the new note goes to the front. `noteData` may override the generated id but never the timestamps. Every other field comes from `noteData` |
| MockData.UpdateNote | src/services/mockData.ts:261-270 | an unknown id throws and changes nothing; otherwise only the first note with the id is replaced, by itself overridden with `updates` and a fresh `updatedAt` |
| MockData.DeleteNote | src/services/mockData.ts:278-283 | an unknown id throws and changes nothing; otherwise exactly the first note with the id is removed, the rest in order |
| MockData.SearchNotes | src/services/mockData.ts:289-292 | the search throws exactly when some note makes its predicate throw. Otherwise it keeps exactly the notes whose lower-cased title or serialised content includes the lower-cased query |
| MockData.SearchConcat | src/services/mockData.ts:289-292 | the search keeps the original order and multiplicity: it distributes over concatenation, and throws when either part throws |
| MockData.SearchOne | src/services/mockData.ts:289-292 | one note is kept, dropped or thrown on exactly as the predicate judges it, and the search of no notes is empty |
| MockData.HitOccurs | src/services/mockData.ts:289-292 | a note the search keeps holds the lower-cased query at some offset of its lower-cased title or serialised content |
| MockData.EmptyQueryFindsAll | src/services/mockData.ts:289-292 | an empty query returns every note, in order, when all titles are strings |
| MockData.Owned | src/services/mockData.ts:306-310 | `{ id: now, ...data, userId: '1' }`: `data` may override the id but never the owner |
| MockData.CreateTag | src/services/mockData.ts:306-312 | one tag owned by user `1` is appended and returned |
| MockData.CreateCategory | src/services/mockData.ts:327-333 | one category owned by user `1` is appended and returned |
| MockData.ServicesKeepDemoFirst | src/services/mockData.ts:204-333 | every service keeps the demo account first, so the demo credentials always log in as it |
| MockData.CreateThenDelete | src/services/mockData.ts:247-283 | deleting a freshly created note by its id restores the backend |
| MockData.UpdateKeepsPlace | src/services/mockData.ts:261-272 | an update of a known note keeps the list length and the note's id, and touches no other array |
| Api.GetNote | src/services/api.ts:92-97 | `getNote` gives the first note with the id, and throws exactly when no note has it; nothing changes |
| Api.UpdateTag | src/services/api.ts:131-136 | `updateTag` returns the first stored tag with the id, overridden by `data`, throws exactly on an unknown id, and stores nothing |
| Api.UpdateTagReadsFind | src/services/api.ts:131-136 | with nothing to override, `updateTag` returns exactly the tag `find` returns, and an override that leaves `id` alone keeps the id |
| Api.DeleteTag | src/services/api.ts:139-142 | `deleteTag` succeeds and changes nothing |
| Api.UpdateCategory | src/services/api.ts:158-163 | `updateCategory` returns the first stored category with the id, overridden by `data`, throws exactly on an unknown id, and stores nothing |
| Api.DeleteCategory | src/services/api.ts:166-169 | `deleteCategory` succeeds and changes nothing |
| Api.GetAfterUpdate | src/services/api.ts:92-98 | after a successful update, `getNote` reads back the updated note |
| Store.Login | src/store/index.ts:42-43 | `login` sets the token and keeps the user |
| Store.Logout | src/store/index.ts:44-45 | `logout` returns the store to its initial state |
| Store.SetUser | src/store/index.ts:47-48 | `setUser` stores the user, or `null` for none, and keeps the token |
| Store.Partialize | src/store/index.ts:52 | exactly the user and the token are persisted |
| Store.PersistRoundTrip | src/store/index.ts:50-53 | rehydrating what was persisted gives back the auth state |
| Store.LogoutClearsPersisted | src/store/index.ts:42-52 | after logging out nothing is persisted; logging in after logging out persists only the token |
| Store.AddNote | src/store/index.ts:64-65 | the note goes in front; nothing else changes |
| Store.UpdateNote | src/store/index.ts:66-75 | every note with the id is merged with `updates`, in place, and the others are untouched; the current note is merged exactly when it has the id |
| Store.DeleteNote | src/store/index.ts:76-81 | the notes are the list filtered by id, which keeps order and multiplicity (`Records.DropIdLaws`); the current note is cleared exactly when it has the id |
| Store.ToggleSidebar | src/store/index.ts:93-94 | the collapsed flag flips and the theme stays |
| Store.ToggleSidebarTwice | src/store/index.ts:93-94 | toggling the sidebar twice is the identity |
| Store.UpdateIdempotent | src/store/index.ts:66-75 | the same update applied twice is applied once, when it leaves the id alone |
| Store.DeleteIdempotent | src/store/index.ts:76-81 | deleting twice is deleting once, and no note with the id remains |
| Store.AddThenDelete | src/store/index.ts:64-81 | adding a note and deleting its id leaves the list as deleting the id alone would |
| HomePage.NodePiece | src/app/page.tsx:138-145 | a node with `text` contributes that property's value (checked first); a non-object contributes `''`; any other node contributes a string |
| HomePage.ChildrenPiece | src/app/page.tsx:142-145 | an object without `text` contributes the text extracted from its `children`, which is `''` when it has none |
| HomePage.ExtractText | src/app/page.tsx:137-147 | a non-array gives `''`, and the result never starts or ends with whitespace |
| HomePage.StoredDocumentText | src/app/page.tsx:137-147 | the text extracted from a stored editor document is the document's own text: spans joined with spaces, block by block, trimmed |
| HomePage.TextBeforeChildren | src/app/page.tsx:139-143 | a node with both `text` and `children` contributes its text |
| HomePage.Preview | src/app/page.tsx:150 | the preview is at most 103 characters long. Text of at most 100 characters is kept. Longer text becomes its first 100 characters followed by `...` |
| HomePage.PreviewIdempotent | src/app/page.tsx:150 | cutting a preview again changes nothing |
| HomePage.RenderNoteContent | src/app/page.tsx:133-151 | falsy or empty content shows the placeholder; a non-empty array shows the preview of its text |
| HomePage.DefaultContentPreview | src/app/page.tsx:133-151 | the default note body previews as the empty string, not as the placeholder |
| HomePage.NormalizeTags | src/app/page.tsx:52-63 | falsy tags become `[]`. A non-empty string becomes its decoding, or `[]` when decoding fails. An array is kept. Anything else becomes `[]` |
| HomePage.ProcessNote | src/app/page.tsx:64-67 | a processed note equals its input except for `tags` |
| HomePage.ProcessItem | src/app/page.tsx:51-67 | reading `tags` off a `null` or `undefined` element throws, and only then; an object element is processed as a note |
| HomePage.ProcessAll | src/app/page.tsx:51-68 | each element of the response is processed in order; the map throws exactly when reading `tags` throws on some element |
| HomePage.LoadNotes | src/app/page.tsx:51-68 | as written: a response that is not an array yields no notes |
| HomePage.LoadNotesDropsEveryNote | src/app/page.tsx:48-68 | as written, the page lists no note whatever the backend holds |
| HomePage.LoadNotesFixed | src/app/page.tsx:51-68 | the corrected loader processes the `notes` field of the response |
| HomePage.LoadNotesFixedListsEveryNote | src/app/page.tsx:48-68 | through the corrected loader every backend note is listed, in order, with only its tags normalised |
| HomePage.DeleteAgrees | src/app/page.tsx:109-114 | with unique ids, the backend's delete and the store's delete leave the same list |

## Left out

- Slate's internals are not modelled: `Editor.nodes`, `unhangRange`, history, and the splitting of text leaves by `addMark` over partial ranges. A selection is one caret or one whole lowest block. Selections spanning several blocks are not modelled.
- Nesting deeper than a list of text blocks is not modelled. `WellFormed` states what the two-level tree can hold.
- `JSON.parse`, `JSON.stringify`, `toLowerCase`, `String(v)`, `isHotkey` and the clock are parameters, as are the three seed notes of `mockNotes`. Their contents are not reproduced.
- The `setTimeout` delays, the zustand `create`/`persist` plumbing, local storage, React rendering, the toolbar and element renderers, routing and the form pages are not modelled.
- The trivial setters `setNotes`, `setCurrentNote`, `setTags`, `setCategories`, `setLoading` and `setTheme` are not modelled. Nor are the remaining functions of `api.ts`. `authAPI.login`, `authAPI.register`, `createNote`, `updateNote`, `deleteNote`, `searchNotes`, `getTags`, `createTag`, `getCategories` and `createCategory` only pass their arguments through to the service. `getNotes` drops its `params` and returns `getNotes()` of the service. `authAPI.logout` only waits. `authAPI.getProfile` waits and returns the first mock user.
- `getNotes` and `getTags` return the live arrays. Later mutation through that alias is not modelled.
- Object key order is not modelled, so `JSON.stringify` of a note is a function of its contents only.
- Strings are sequences of characters, not UTF-16 code units, so `length` and `substring(0, 100)` count characters.
- NoteEditor.SetMark: Slate's normaliser, which merges adjacent text nodes with equal marks and drops empty ones after a write, is not modelled. So over `[a{bold}, b{}]`, removing bold leaves two spans here where Slate keeps the single span `ab{}`. The contracts about spans (`StripMarks`, `MarkValues`) describe the document before normalisation.
- EditorTypes.Element: the `type` of an element is optional in `CustomElement`, but every modelled element has one. `ContentJson.DecodeElement` rejects a stored element without `type`. `isBlockActive` on such an element, which compares `undefined` with the format, is not modelled.
- MockData.CreateNote: `noteData` is a record; spreading a string or an array argument (which adds index keys) is not modelled.
- HomePage.ProcessItem: a boolean, number, string or array element of the response is treated as having no keys to spread. A string's or array's index keys are dropped.
- HomePage.ExtractText: its own contract states only the shape of the result. What the text is is stated against the document's text by `HomePage.StoredDocumentText`, for stored editor documents only.

## Findings

| source | as written | input that shows it | evidently intended | confidence | as-written member | corrected member |
|---|---|---|---|---|---|---|
| src/app/page.tsx:48-68 | `loadNotes` processes the response of `noteAPI.getNotes()` only when `Array.isArray(notesData)`, and otherwise lists nothing; but `getNotes` returns the object `{ notes, total }` (src/services/mockData.ts:238-241, src/services/api.ts:88-90) | any backend state, e.g. the three seed notes: the page sets its list to `[]` | process `notesData.notes` | high, not executed | HomePage.LoadNotes, HomePage.LoadNotesDropsEveryNote | HomePage.LoadNotesFixed, HomePage.LoadNotesFixedListsEveryNote |
