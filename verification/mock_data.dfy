/** The in-memory backend (`src/services/mockData.ts`): module-level arrays of
    users, notes, tags and categories, and the services that read and change
    them. Each service is a function from the arrays before the call to the
    arrays after it and what the call returns or throws. The clock
    (`Date.now()`, `toISOString()`), `toLowerCase` and `JSON.stringify` are
    parameters; the artificial delays are not modelled. */
module MockData {
  import opened Results
  import opened JsValue
  import opened JsString
  import opened Records

  datatype Db = Db(users: seq<Record>, notes: seq<Record>, tags: seq<Record>, categories: seq<Record>)

  /** What a service call leaves behind: the arrays after it, and its return
      value or the error it throws. */
  datatype Outcome<T> = Outcome(db: Db, result: Result<T>)

  /** `{ user, token }` as login and register return it. */
  datatype Session = Session(user: Value, token: string)

  const DEMO_EMAIL := "demo@example.com"
  const DEMO_PASSWORD := "demo123"
  const TOKEN_PREFIX := "mock-jwt-token-"
  const OWNER_ID := "1"

  /** `mockUsers[0]`, the demo account. */
  const DEMO_USER: Record :=
    map["id" := Str("1"), "username" := Str("demo"), "email" := Str(DEMO_EMAIL), "avatar" := Str("")]

  function Seeded(id: string, name: string, color: string): Record {
    map["id" := Str(id), "name" := Str(name), "color" := Str(color), "userId" := Str(OWNER_ID)]
  }

  const SEED_TAGS: seq<Record> := [
    Seeded("1", "工作", "#1890ff"), Seeded("2", "学习", "#52c41a"),
    Seeded("3", "生活", "#faad14"), Seeded("4", "技术", "#722ed1")]

  const SEED_CATEGORIES: seq<Record> := [
    Seeded("1", "工作笔记", "#1890ff"), Seeded("2", "学习笔记", "#52c41a"),
    Seeded("3", "生活记录", "#faad14"), Seeded("4", "技术文档", "#722ed1")]

  /** The arrays at module load; the three seed notes are a parameter. */
  function Initial(notes: seq<Record>): Db {
    Db([DEMO_USER], notes, SEED_TAGS, SEED_CATEGORIES)
  }

  /** The user list only grows at its end, so the demo account stays first. */
  predicate DemoFirst(db: Db) {
    |db.users| > 0 && db.users[0] == DEMO_USER
  }

  /** `mockAuthService.login`: only the demo credentials are accepted, and
      they always log in as `mockUsers[0]` (`undefined` if there were none).
      The users are not consulted otherwise; nothing changes. */
  function Login(db: Db, email: string, password: string, now: string): (r: Outcome<Session>)
    ensures r.db == db
    ensures r.result.Ok? <==> email == DEMO_EMAIL && password == DEMO_PASSWORD
    ensures r.result.Ok? ==> r.result.value.token == TOKEN_PREFIX + now
    ensures r.result.Ok? && DemoFirst(db) ==> r.result.value.user == Obj(DEMO_USER)
  {
    if email == DEMO_EMAIL && password == DEMO_PASSWORD then
      var user := if |db.users| > 0 then Obj(db.users[0]) else Undefined;
      Outcome(db, Ok(Session(user, TOKEN_PREFIX + now)))
    else Outcome(db, Err("邮箱或密码错误"))
  }

  /** `mockAuthService.register`: appends one user built from the name, the
      email and the clock (the password is ignored), and returns it with a
      token. */
  function Register(db: Db, username: string, email: string, password: string,
                    stamp: string, created: string, updated: string, now: string): (r: Outcome<Session>)
    ensures r.result.Ok?
    ensures |r.db.users| == |db.users| + 1 && r.db.users[..|db.users|] == db.users
    ensures var u := r.db.users[|db.users|];
            && r.result.value.user == Obj(u)
            && Field(u, "username") == Str(username) && Field(u, "email") == Str(email)
            && Field(u, "id") == Str(stamp) && Field(u, "avatar") == Str("")
    ensures r.db.notes == db.notes && r.db.tags == db.tags && r.db.categories == db.categories
    ensures r.result.value.token == TOKEN_PREFIX + now
  {
    var user := map["id" := Str(stamp), "username" := Str(username), "email" := Str(email),
                    "avatar" := Str(""), "created_at" := Str(created), "updated_at" := Str(updated)];
    Outcome(db.(users := db.users + [user]), Ok(Session(Obj(user), TOKEN_PREFIX + now)))
  }

  /** `mockNoteService.getNotes`: `{ notes, total }`, the list itself and its
      length. */
  function GetNotes(db: Db): (r: Value)
    ensures r.Obj? && Field(r.fields, "notes") == Arr(Objs(db.notes))
    ensures Field(r.fields, "total") == Num(|db.notes| as real)
  {
    Obj(map["notes" := Arr(Objs(db.notes)), "total" := Num(|db.notes| as real)])
  }

  /** `mockNoteService.createNote`: the new note is `noteData` over a fresh
      id, under the two timestamps, and goes to the front of the list. */
  function CreateNote(db: Db, noteData: Record, stamp: string, created: string, updated: string): (r: Outcome<Record>)
    ensures r.result.Ok? && r.db == db.(notes := [r.result.value] + db.notes)
    ensures var n := r.result.value;
            && Field(n, "id") == (if "id" in noteData then noteData["id"] else Str(stamp))
            && Field(n, "createdAt") == Str(created) && Field(n, "updatedAt") == Str(updated)
            && n.Keys == noteData.Keys + {"id", "createdAt", "updatedAt"}
            && forall k :: k in noteData && k !in {"createdAt", "updatedAt"} ==> n[k] == noteData[k]
  {
    var n := Spread(Spread(map["id" := Str(stamp)], noteData), map["createdAt" := Str(created), "updatedAt" := Str(updated)]);
    Outcome(db.(notes := [n] + db.notes), Ok(n))
  }

  /** `mockNoteService.updateNote`: the first note with the id becomes itself
      overridden by `updates` and a fresh `updatedAt`; an unknown id throws
      and changes nothing. */
  function UpdateNote(db: Db, id: string, updates: Record, updated: string): (r: Outcome<Record>)
    ensures r.result.Err? <==> forall k :: 0 <= k < |db.notes| ==> !HasId(db.notes[k], id)
    ensures r.result.Err? ==> r.db == db
    ensures r.result.Ok? ==>
              var i := FindIndex(db.notes, id).value;
              && r.result.value == Spread(Spread(db.notes[i], updates), map["updatedAt" := Str(updated)])
              && r.db == db.(notes := db.notes[i := r.result.value])
  {
    match FindIndex(db.notes, id)
    case None => Outcome(db, Err("笔记不存在"))
    case Some(i) =>
      var n := Spread(Spread(db.notes[i], updates), map["updatedAt" := Str(updated)]);
      Outcome(db.(notes := db.notes[i := n]), Ok(n))
  }

  /** `mockNoteService.deleteNote`: the first note with the id is spliced out;
      an unknown id throws and changes nothing. */
  function DeleteNote(db: Db, id: string): (r: Outcome<()>)
    ensures r.result.Err? <==> forall k :: 0 <= k < |db.notes| ==> !HasId(db.notes[k], id)
    ensures r.result.Err? ==> r.db == db
    ensures r.result.Ok? ==>
              var i := FindIndex(db.notes, id).value;
              && |r.db.notes| == |db.notes| - 1
              && r.db == db.(notes := db.notes[..i] + db.notes[i + 1..])
  {
    match FindIndex(db.notes, id)
    case None => Outcome(db, Err("笔记不存在"))
    case Some(i) => Outcome(db.(notes := db.notes[..i] + db.notes[i + 1..]), Ok(()))
  }

  /** How the search predicate fares on one note: it matches, it does not, or
      it throws (a title that is not a string has no `toLowerCase`; a title
      that does not match and a missing `content`, which `JSON.stringify` turns
      into `undefined`, have none either). */
  datatype Verdict = Hit | Miss | Throws

  function Judge(note: Record, query: string, lower: string -> string, stringify: Value -> string): Verdict {
    match Field(note, "title")
    case Str(title) =>
      if Includes(lower(title), lower(query)) then Hit
      else
        (match Field(note, "content")
         case Undefined => Throws
         case content => if Includes(lower(stringify(content)), lower(query)) then Hit else Miss)
    case _ => Throws
  }

  /** `mockNoteService.searchNotes`: the notes the predicate keeps, in order;
      the first note on which it throws makes the whole call throw. */
  function SearchNotes(db: Db, query: string, lower: string -> string, stringify: Value -> string): (r: Outcome<seq<Record>>)
    ensures r.db == db
    ensures r.result.Err? <==> exists k :: 0 <= k < |db.notes| && Judge(db.notes[k], query, lower, stringify) == Throws
    ensures r.result.Ok? ==> forall n :: n in r.result.value <==> n in db.notes && Judge(n, query, lower, stringify) == Hit
    ensures r.result.Ok? ==> |r.result.value| <= |db.notes|
  {
    Outcome(db, Search(db.notes, query, lower, stringify))
  }

  function Search(notes: seq<Record>, query: string, lower: string -> string, stringify: Value -> string): (r: Result<seq<Record>>)
    ensures r.Err? <==> exists k :: 0 <= k < |notes| && Judge(notes[k], query, lower, stringify) == Throws
    ensures r.Ok? ==> forall n :: n in r.value <==> n in notes && Judge(n, query, lower, stringify) == Hit
    ensures r.Ok? ==> |r.value| <= |notes|
    ensures r.Err? ==> r.message == "TypeError"
  {
    if |notes| == 0 then Ok([])
    else
      var rest := Search(notes[1..], query, lower, stringify);
      assert notes == [notes[0]] + notes[1..];
      assert forall k :: 0 < k < |notes| ==> notes[k] == notes[1..][k - 1];
      match Judge(notes[0], query, lower, stringify)
      case Throws => Err("TypeError")
      case Hit => if rest.Ok? then Ok([notes[0]] + rest.value) else rest
      case Miss => rest
  }

  /** A note the search keeps really holds the lower-cased query, in its
      lower-cased title or in its stringified content. */
  lemma HitOccurs(n: Record, query: string, lower: string -> string, stringify: Value -> string)
    requires Judge(n, query, lower, stringify) == Hit
    ensures Field(n, "title").Str?
    ensures || (exists i: nat :: OccursAt(lower(Field(n, "title").s), lower(query), i))
            || (exists i: nat :: OccursAt(lower(stringify(Field(n, "content"))), lower(query), i))
  {
    var title := Field(n, "title").s;
    if Includes(lower(title), lower(query)) {
      IncludesWitness(lower(title), lower(query));
    } else {
      IncludesWitness(lower(stringify(Field(n, "content"))), lower(query));
    }
  }

  /** `filter` keeps the matching notes in their original order and with
      their multiplicity: the search of nothing is empty, one note is kept,
      dropped or thrown on as judged, and the search distributes over
      concatenation, throwing when either part throws. */
  lemma {:induction false} SearchConcat(a: seq<Record>, b: seq<Record>, query: string,
                                         lower: string -> string, stringify: Value -> string)
    ensures var ra := Search(a, query, lower, stringify);
            var rb := Search(b, query, lower, stringify);
            Search(a + b, query, lower, stringify)
            == if ra.Ok? && rb.Ok? then Ok(ra.value + rb.value) else Err("TypeError")
    decreases |a|
  {
    var rb := Search(b, query, lower, stringify);
    if |a| == 0 {
      assert a + b == b;
      if rb.Ok? {
        assert [] + rb.value == rb.value;
      }
    } else {
      var x, t := a[0], a[1..];
      assert a == [x] + t;
      assert a + b == [x] + (t + b);
      SearchCons(x, t, query, lower, stringify);
      SearchCons(x, t + b, query, lower, stringify);
      SearchConcat(t, b, query, lower, stringify);
      var rt := Search(t, query, lower, stringify);
      if rt.Ok? && rb.Ok? {
        assert [x] + (rt.value + rb.value) == ([x] + rt.value) + rb.value;
      }
    }
  }

  /** The search of a list with a first note, in terms of the rest. */
  lemma SearchCons(x: Record, t: seq<Record>, query: string, lower: string -> string, stringify: Value -> string)
    ensures var rest := Search(t, query, lower, stringify);
            Search([x] + t, query, lower, stringify)
            == match Judge(x, query, lower, stringify)
               case Throws => Err("TypeError")
               case Hit => if rest.Ok? then Ok([x] + rest.value) else rest
               case Miss => rest
  {
    assert ([x] + t)[1..] == t;
  }

  lemma SearchOne(n: Record, query: string, lower: string -> string, stringify: Value -> string)
    ensures Search([], query, lower, stringify) == Ok([])
    ensures Search([n], query, lower, stringify)
            == match Judge(n, query, lower, stringify)
               case Hit => Ok([n])
               case Miss => Ok([])
               case Throws => Err("TypeError")
  {
    assert [n][1..] == [];
    assert [n] + [] == [n];
  }

  /** With a query that lower-cases to the empty string, every note whose
      title is a string matches, so the search returns the whole list. */
  lemma EmptyQueryFindsAll(db: Db, lower: string -> string, stringify: Value -> string)
    requires lower("") == ""
    requires forall k :: 0 <= k < |db.notes| ==> Field(db.notes[k], "title").Str?
    ensures SearchNotes(db, "", lower, stringify).result == Ok(db.notes)
  {
    EmptyQueryKeepsAll(db.notes, lower, stringify);
  }

  lemma {:induction false} EmptyQueryKeepsAll(notes: seq<Record>, lower: string -> string, stringify: Value -> string)
    requires lower("") == ""
    requires forall k :: 0 <= k < |notes| ==> Field(notes[k], "title").Str?
    ensures Search(notes, "", lower, stringify) == Ok(notes)
  {
    if |notes| > 0 {
      IncludesEmpty(lower(Field(notes[0], "title").s));
      assert Judge(notes[0], "", lower, stringify) == Hit;
      EmptyQueryKeepsAll(notes[1..], lower, stringify);
      assert [notes[0]] + notes[1..] == notes;
    }
  }

  /** `{ id: now, ...data, userId: '1' }`: a fresh id that `data` may
      override, and an owner that it may not. */
  function Owned(data: Record, stamp: string): (r: Record)
    ensures Field(r, "userId") == Str(OWNER_ID)
    ensures Field(r, "id") == (if "id" in data then data["id"] else Str(stamp))
    ensures r.Keys == data.Keys + {"id", "userId"}
    ensures forall k :: k in data && k != "userId" ==> r[k] == data[k]
  {
    Spread(Spread(map["id" := Str(stamp)], data), map["userId" := Str(OWNER_ID)])
  }

  /** `mockTagService.createTag`: one owned record appended to the tags. */
  function CreateTag(db: Db, tagData: Record, stamp: string): (r: Outcome<Record>)
    ensures r.result.Ok? && r.result.value == Owned(tagData, stamp)
    ensures r.db == db.(tags := db.tags + [r.result.value])
    ensures Field(r.result.value, "userId") == Str(OWNER_ID)
  {
    var t := Owned(tagData, stamp);
    Outcome(db.(tags := db.tags + [t]), Ok(t))
  }

  /** `mockCategoryService.createCategory`: the same on the categories. */
  function CreateCategory(db: Db, categoryData: Record, stamp: string): (r: Outcome<Record>)
    ensures r.result.Ok? && r.result.value == Owned(categoryData, stamp)
    ensures r.db == db.(categories := db.categories + [r.result.value])
    ensures Field(r.result.value, "userId") == Str(OWNER_ID)
  {
    var c := Owned(categoryData, stamp);
    Outcome(db.(categories := db.categories + [c]), Ok(c))
  }

  /** Every service keeps the demo account first, so on any state reachable
      from module load the demo credentials log in as `mockUsers[0]`. */
  lemma ServicesKeepDemoFirst(db: Db, s: string, t: string, u: string, v: string, d: Record)
    requires DemoFirst(db)
    ensures DemoFirst(Register(db, s, t, u, v, v, v, v).db)
    ensures DemoFirst(CreateNote(db, d, s, t, u).db)
    ensures DemoFirst(UpdateNote(db, s, d, t).db)
    ensures DemoFirst(DeleteNote(db, s).db)
    ensures DemoFirst(CreateTag(db, d, s).db) && DemoFirst(CreateCategory(db, d, s).db)
    ensures Login(db, DEMO_EMAIL, DEMO_PASSWORD, s).result == Ok(Session(Obj(DEMO_USER), TOKEN_PREFIX + s))
  {
  }

  /** Creating a note and then deleting it by its id gives back the list
      before the creation. */
  lemma CreateThenDelete(db: Db, noteData: Record, stamp: string, created: string, updated: string)
    ensures var c := CreateNote(db, noteData, stamp, created, updated);
            var id := c.result.value["id"];
            id.Str? ==> DeleteNote(c.db, id.s) == Outcome(db, Ok(()))
  {
    var c := CreateNote(db, noteData, stamp, created, updated);
    var id := c.result.value["id"];
    if id.Str? {
      assert FindIndex(c.db.notes, id.s) == Some(0);
      assert c.db.notes[1..] == db.notes;
    }
  }

  /** An update of a known note keeps the length of the list, and the note at
      that place still carries the id when `updates` leaves `id` alone. */
  lemma UpdateKeepsPlace(db: Db, id: string, updates: Record, updated: string)
    requires exists k :: 0 <= k < |db.notes| && HasId(db.notes[k], id)
    requires "id" !in updates
    ensures var r := UpdateNote(db, id, updates, updated);
            && r.result.Ok? && |r.db.notes| == |db.notes| && HasId(r.result.value, id)
            && r.db.users == db.users && r.db.tags == db.tags && r.db.categories == db.categories
  {
  }
}
