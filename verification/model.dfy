/** The values the options page works with: the signed-in user, the session handed to the
    background worker, note rows of the `notes` table, the `{ data, error }` replies of the
    remote calls, and the two list operations that rebuild the cached note list. */
module Model {

  datatype Option<+T> = None | Some(value: T)

  /** The `id` and `email` of the authenticated user; the page reads nothing else of it. */
  datatype User = User(id: string, email: string)

  /** What `getSession` yields: the session's user and its two tokens. */
  datatype Session = Session(user: User, accessToken: string, refreshToken: string)

  /** Note ids are handled as strings on the page; the remote delete converts them with
      `Number(id)` (options/index.tsx:161), which the model does not distinguish. */
  type NoteId = string

  /** A row of the `notes` table. */
  datatype Note = Note(id: NoteId, userId: string, content: string)

  /** The `{ data, error }` pair every awaited call resolves to: an error, or data that
      may be null. A thrown exception that the handler catches is an `Err` as well. */
  datatype Reply<+T> = Ok(data: Option<T>) | Err(message: string)

  /** Which button called `handleEmailLogin`. */
  datatype AuthKind = LogIn | SignUp

  /** The remote calls the page makes, as it passes them their arguments. */
  datatype RemoteCall =
    | GetSession
    | SignInWithPassword(email: string, password: string)
    | SignUpWithPassword(email: string, password: string)
    | SelectNotes(userId: string)
    | InsertNote(owner: Option<string>, content: string)
    | UpdateContent(id: NoteId, content: string)
    | DeleteById(id: NoteId)
    | SignOut

  /** The one message sent to the background worker. */
  datatype Message = InitSession(accessToken: string, refreshToken: string)

  /** `user?.id`: the signed-in user's id, or `undefined` when nobody is signed in. */
  function UserId(user: Option<User>): (id: Option<string>)
    ensures id.Some? <==> user.Some?
    ensures id.Some? ==> id.value == user.value.id
  {
    if user.Some? then Some(user.value.id) else None
  }

  /** `notes.filter((note) => note.id !== id)`: the cached list without the notes that
      carry `id`, the others kept in their order. */
  function WithoutId(notes: seq<Note>, id: NoteId): (r: seq<Note>)
    ensures |r| <= |notes|
    ensures forall n :: n in r <==> n in notes && n.id != id
  {
    if notes == [] then []
    else
      assert notes == [notes[0]] + notes[1..];
      (if notes[0].id == id then [] else [notes[0]]) + WithoutId(notes[1..], id)
  }

  /** Filtering a concatenation filters each part in place: survivors keep their order. */
  lemma {:induction false} WithoutIdConcat(a: seq<Note>, b: seq<Note>, id: NoteId)
    ensures WithoutId(a + b, id) == WithoutId(a, id) + WithoutId(b, id)
  {
    if a != [] {
      assert (a + b)[1..] == a[1..] + b;
      WithoutIdConcat(a[1..], b, id);
    } else {
      assert a + b == b;
    }
  }

  /** Removing an id no cached note has leaves the list as it was. */
  lemma {:induction false} WithoutAbsentId(notes: seq<Note>, id: NoteId)
    requires forall n :: n in notes ==> n.id != id
    ensures WithoutId(notes, id) == notes
  {
    if notes != [] {
      assert notes[0] in notes;
      assert forall n :: n in notes[1..] ==> n in notes;
      WithoutAbsentId(notes[1..], id);
    }
  }

  /** Removing an id twice removes it once. */
  lemma WithoutIdIdempotent(notes: seq<Note>, id: NoteId)
    ensures WithoutId(WithoutId(notes, id), id) == WithoutId(notes, id)
  {
    WithoutAbsentId(WithoutId(notes, id), id);
  }

  /** Appending a note with a fresh id and then removing that id gives back the list. */
  lemma DeleteUndoesAppend(notes: seq<Note>, n: Note)
    requires forall m :: m in notes ==> m.id != n.id
    ensures WithoutId(notes + [n], n.id) == notes
  {
    WithoutIdConcat(notes, [n], n.id);
    WithoutAbsentId(notes, n.id);
    assert WithoutId([n], n.id) == [];
  }

  /** `[...notes, newNote[0]]` as written: JavaScript reads index 0 of an empty array as
      `undefined`, shown here as `None`, and appends it all the same. */
  function AppendFirstAsWritten(notes: seq<Note>, rows: seq<Note>): (r: seq<Option<Note>>)
    ensures |r| == |notes| + 1
    ensures forall i :: 0 <= i < |notes| ==> r[i] == Some(notes[i])
  {
    Lifted(notes) + [if rows == [] then None else Some(rows[0])]
  }

  /** A list of notes seen as JavaScript values, none of which is `undefined`. */
  function Lifted(notes: seq<Note>): (r: seq<Option<Note>>)
    ensures |r| == |notes|
    ensures forall i :: 0 <= i < |notes| ==> r[i] == Some(notes[i])
    ensures None !in r
  {
    seq(|notes|, i requires 0 <= i < |notes| => Some(notes[i]))
  }

  /** An insert that answers with an empty array leaves an entry in the list that is not a
      note at all (rendering it reads `note.id` of `undefined`). */
  lemma AsWrittenAppendsUndefined(notes: seq<Note>)
    ensures None in AppendFirstAsWritten(notes, [])
  {
    var r := AppendFirstAsWritten(notes, []);
    assert r[|notes|] == None;
  }

  /** The intended append: the first inserted row goes at the end of the list, after the
      notes already there; with no row the list stays as it was. */
  function AppendFirst(notes: seq<Note>, rows: seq<Note>): (r: seq<Note>)
    ensures rows == [] ==> r == notes
    ensures rows != [] ==> |r| == |notes| + 1 && r[..|notes|] == notes && r[|notes|] == rows[0]
  {
    if rows == [] then notes else notes + [rows[0]]
  }

  /** Whenever the insert answers with a row, the intended append and the code as written
      build the same list. */
  lemma AppendFirstMatchesAsWritten(notes: seq<Note>, rows: seq<Note>)
    requires rows != []
    ensures |AppendFirstAsWritten(notes, rows)| == |AppendFirst(notes, rows)|
    ensures forall i :: 0 <= i < |AppendFirst(notes, rows)| ==>
      AppendFirstAsWritten(notes, rows)[i] == Some(AppendFirst(notes, rows)[i])
  {
  }
}
