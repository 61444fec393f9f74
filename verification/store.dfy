/** The client-side stores (`src/store/index.ts`): the state each zustand
    store holds and what each reducer makes of it. `set` merges the returned
    fields into the state, so every field a reducer does not return is kept;
    the functions that sit in the state and the persistence middleware itself
    are not modelled. */
module Store {
  import opened Results
  import opened JsValue
  import opened Records

  /** `useAuthStore`: the signed-in user and token, `null` as `None`. */
  datatype AuthState = AuthState(user: Option<Record>, token: Option<string>)

  /** `useNoteStore`. */
  datatype NoteState = NoteState(notes: seq<Record>, currentNote: Option<Record>,
                                 tags: seq<Record>, categories: seq<Record>, isLoading: bool)

  datatype Theme = Light | Dark

  /** `useUIStore`. */
  datatype UIState = UIState(sidebarCollapsed: bool, theme: Theme)

  /** What the auth store writes to local storage. */
  datatype Persisted = Persisted(user: Option<Record>, token: Option<string>)

  const INITIAL_AUTH := AuthState(None, None)
  const INITIAL_NOTES := NoteState([], None, [], [], false)
  const INITIAL_UI := UIState(false, Light)

  /** `login(token)`: stores the token; the user is left as it was. */
  function Login(s: AuthState, token: string): (r: AuthState)
    ensures r.token == Some(token) && r.user == s.user
  {
    s.(token := Some(token))
  }

  /** `logout()`: forgets both the user and the token. */
  function Logout(s: AuthState): (r: AuthState)
    ensures r == INITIAL_AUTH
  {
    AuthState(None, None)
  }

  /** `setUser(user)`: `user || null`; a user object is always truthy, so an
      omitted user stores `null` and any other user is stored as given. */
  function SetUser(s: AuthState, user: Option<Record>): (r: AuthState)
    ensures r.user == user && r.token == s.token
  {
    s.(user := user)
  }

  /** `partialize`: only the user and the token are persisted. */
  function Partialize(s: AuthState): (r: Persisted)
    ensures r.user == s.user && r.token == s.token
  {
    Persisted(s.user, s.token)
  }

  /** Reloading from what was persisted gives back the same auth state: the
      auth store holds nothing that is not persisted. */
  function Rehydrate(p: Persisted): AuthState {
    AuthState(p.user, p.token)
  }

  lemma PersistRoundTrip(s: AuthState)
    ensures Rehydrate(Partialize(s)) == s
  {
  }

  /** Logging in, then out, persists nothing, whatever was there before. */
  lemma LogoutClearsPersisted(s: AuthState, token: string)
    ensures Partialize(Logout(Login(s, token))) == Persisted(None, None)
    ensures Partialize(Login(Logout(s), token)) == Persisted(None, Some(token))
  {
  }

  /** `addNote(note)`: the note goes in front of the list. */
  function AddNote(s: NoteState, note: Record): (r: NoteState)
    ensures r.notes == [note] + s.notes
    ensures r.(notes := s.notes) == s
  {
    s.(notes := [note] + s.notes)
  }

  /** One note under `updateNote`: `{...note, ...updates}` when the id
      matches, the note itself otherwise. */
  function Updated(note: Record, id: string, updates: Record): Record {
    if HasId(note, id) then Spread(note, updates) else note
  }

  function UpdateAll(notes: seq<Record>, id: string, updates: Record): (r: seq<Record>)
    ensures |r| == |notes|
    ensures forall k :: 0 <= k < |r| ==> r[k] == Updated(notes[k], id, updates)
  {
    if |notes| == 0 then [] else [Updated(notes[0], id, updates)] + UpdateAll(notes[1..], id, updates)
  }

  /** `updateNote(id, updates)`: every note with the id is merged with
      `updates`, in place; the others are untouched; the current note is
      merged exactly when it has the id. */
  function UpdateNote(s: NoteState, id: string, updates: Record): (r: NoteState)
    ensures |r.notes| == |s.notes|
    ensures forall k :: 0 <= k < |s.notes| ==>
              (HasId(s.notes[k], id) ==> r.notes[k] == Spread(s.notes[k], updates))
              && (!HasId(s.notes[k], id) ==> r.notes[k] == s.notes[k])
    ensures s.currentNote.Some? && HasId(s.currentNote.value, id) ==> r.currentNote == Some(Spread(s.currentNote.value, updates))
    ensures !(s.currentNote.Some? && HasId(s.currentNote.value, id)) ==> r.currentNote == s.currentNote
    ensures r.tags == s.tags && r.categories == s.categories && r.isLoading == s.isLoading
  {
    var current :=
      match s.currentNote
      case Some(c) => if HasId(c, id) then Some(Spread(c, updates)) else s.currentNote
      case None => None;
    s.(notes := UpdateAll(s.notes, id, updates), currentNote := current)
  }

  /** `deleteNote(id)`: every note with the id is dropped, the rest keep their
      order, and the current note is cleared exactly when it has the id. */
  function DeleteNote(s: NoteState, id: string): (r: NoteState)
    ensures r.notes == DropId(s.notes, id)
    ensures forall n :: n in r.notes <==> n in s.notes && !HasId(n, id)
    ensures r.currentNote.None? <==> s.currentNote.None? || HasId(s.currentNote.value, id)
    ensures r.currentNote.Some? ==> r.currentNote == s.currentNote
    ensures r.tags == s.tags && r.categories == s.categories && r.isLoading == s.isLoading
  {
    var current :=
      match s.currentNote
      case Some(c) => if HasId(c, id) then None else s.currentNote
      case None => None;
    s.(notes := DropId(s.notes, id), currentNote := current)
  }

  /** `toggleSidebar()`: flips the collapsed flag; the theme stays. */
  function ToggleSidebar(s: UIState): (r: UIState)
    ensures r.sidebarCollapsed == !s.sidebarCollapsed && r.theme == s.theme
  {
    s.(sidebarCollapsed := !s.sidebarCollapsed)
  }

  lemma ToggleSidebarTwice(s: UIState)
    ensures ToggleSidebar(ToggleSidebar(s)) == s
  {
  }

  /** Applying the same update twice is the same as applying it once, as
      long as the update does not change the id it selects by. */
  lemma {:induction false} UpdateIdempotent(s: NoteState, id: string, updates: Record)
    requires "id" !in updates
    ensures UpdateNote(UpdateNote(s, id, updates), id, updates) == UpdateNote(s, id, updates)
  {
    var once := UpdateNote(s, id, updates);
    var twice := UpdateNote(once, id, updates);
    forall k | 0 <= k < |s.notes|
      ensures twice.notes[k] == once.notes[k]
    {
      if HasId(s.notes[k], id) {
        assert HasId(once.notes[k], id);
        assert Spread(Spread(s.notes[k], updates), updates) == Spread(s.notes[k], updates);
      }
    }
    if s.currentNote.Some? && HasId(s.currentNote.value, id) {
      var c := s.currentNote.value;
      assert Spread(Spread(c, updates), updates) == Spread(c, updates);
    }
  }

  /** Deleting twice is deleting once, and afterwards no note has the id. */
  lemma DeleteIdempotent(s: NoteState, id: string)
    ensures DeleteNote(DeleteNote(s, id), id) == DeleteNote(s, id)
    ensures forall k :: 0 <= k < |DeleteNote(s, id).notes| ==> !HasId(DeleteNote(s, id).notes[k], id)
  {
    var once := DeleteNote(s, id);
    assert forall k :: 0 <= k < |once.notes| ==> !HasId(once.notes[k], id) by {
      forall k | 0 <= k < |once.notes|
        ensures !HasId(once.notes[k], id)
      {
        assert once.notes[k] in once.notes;
      }
    }
    DropNone(once.notes, id);
  }

  /** A note that is added and then deleted by its own id leaves the list as
      deleting that id would have. */
  lemma AddThenDelete(s: NoteState, note: Record, id: string)
    requires HasId(note, id)
    ensures DeleteNote(AddNote(s, note), id).notes == DeleteNote(s, id).notes
  {
    assert (([note] + s.notes)[1..]) == s.notes;
  }
}
