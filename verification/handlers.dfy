/** What each handler of the options page does to the page's state, as functions of the
    state before and of the reply its one remote call receives. The `IndexOptions` class
    in module Options is proved against these; the lemmas here are about them alone. */
module Handlers {
  import opened Text
  import opened Model

  /** The three state slots of the page: the persisted `user`, the cached `notes` and
      the draft `newNoteText`. */
  datatype Page = Page(user: Option<User>, notes: seq<Note>, draft: string)

  /** The page as it mounts: the user last stored under the key "user", no notes, an
      empty draft (options/index.tsx:27-34). */
  function Mounted(stored: Option<User>): Page {
    Page(stored, [], "")
  }

  predicate Succeeded<T>(reply: Reply<T>) {
    reply.Ok? && reply.data.Some?
  }

  // ---- init: session restore and hand-off to the background worker ----

  /** `init`: a session found by `getSession` becomes the page's user; an error or an
      absent session leaves the page as it was. */
  function Restored(p: Page, reply: Reply<Session>): (q: Page)
    ensures q.notes == p.notes && q.draft == p.draft
    ensures Succeeded(reply) ==> q.user == Some(reply.data.value.user)
    ensures !Succeeded(reply) ==> q == p
  {
    match reply
    case Ok(Some(session)) => p.(user := Some(session.user))
    case _ => p
  }

  /** The messages `init` sends: one `init-session` carrying the found session's tokens,
      and none on an error or when there is no session. */
  function RestoreMessages(reply: Reply<Session>): (sent: seq<Message>)
    ensures |sent| <= 1
    ensures |sent| == 1 <==> Succeeded(reply)
    ensures |sent| == 1 ==>
      sent[0].accessToken == reply.data.value.accessToken &&
      sent[0].refreshToken == reply.data.value.refreshToken
  {
    match reply
    case Ok(Some(session)) => [InitSession(session.accessToken, session.refreshToken)]
    case _ => []
  }

  // ---- handleEmailLogin ----

  /** The call `handleEmailLogin` makes for each button. */
  function AuthCall(kind: AuthKind, email: string, password: string): (call: RemoteCall)
    ensures call.SignInWithPassword? <==> kind == LogIn
    ensures call.SignInWithPassword? || call.SignUpWithPassword?
    ensures call.email == email && call.password == password
  {
    match kind
    case LogIn => SignInWithPassword(email, password)
    case SignUp => SignUpWithPassword(email, password)
  }

  /** `handleEmailLogin`: the user changes only when the call succeeds with a user; an
      auth error, or a signup whose user awaits confirmation (no user), leaves it. */
  function LoggedIn(p: Page, reply: Reply<User>): (q: Page)
    ensures q.notes == p.notes && q.draft == p.draft
    ensures q.user != p.user ==> Succeeded(reply)
    ensures Succeeded(reply) ==> q.user == Some(reply.data.value)
  {
    match reply
    case Ok(Some(user)) => p.(user := Some(user))
    case _ => p
  }

  // ---- fetchNotes ----

  /** The calls `fetchNotes` makes: the select of the user's rows; none when nobody is
      signed in, because reading `user.id` throws before the query is built. */
  function FetchCalls(p: Page): (calls: seq<RemoteCall>)
    ensures calls == [] <==> p.user.None?
    ensures p.user.Some? ==> calls == [SelectNotes(p.user.value.id)]
  {
    if p.user.Some? then [SelectNotes(p.user.value.id)] else []
  }

  /** `fetchNotes`: the returned rows replace the cached list wholesale; an error, null
      data or a missing user leave the page as it was. */
  function Fetched(p: Page, reply: Reply<seq<Note>>): (q: Page)
    ensures q.user == p.user && q.draft == p.draft
    ensures p.user.Some? && Succeeded(reply) ==> q.notes == reply.data.value
    ensures p.user.None? || !Succeeded(reply) ==> q == p
  {
    if p.user.None? then p
    else
      match reply
      case Ok(Some(rows)) => p.(notes := rows)
      case _ => p
  }

  // ---- addNote ----

  /** The calls `addNote` makes: none for a blank draft, otherwise one insert of the
      trimmed draft under `user?.id`. */
  function AddCalls(p: Page): (calls: seq<RemoteCall>)
    ensures calls == [] <==> IsBlank(p.draft)
    ensures calls != [] ==>
      calls == [InsertNote(UserId(p.user), Trim(p.draft))] && calls[0].content != []
  {
    if IsBlank(p.draft) then [] else [InsertNote(UserId(p.user), Trim(p.draft))]
  }

  /** `addNote`: on an insert that returns a row, the row is appended after the cached
      notes and the draft is cleared; a blank draft, an error or no row change nothing. */
  function Added(p: Page, reply: Reply<seq<Note>>): (q: Page)
    ensures q.user == p.user
    ensures IsBlank(p.draft) || !Succeeded(reply) || reply.data.value == [] ==> q == p
    ensures !IsBlank(p.draft) && Succeeded(reply) && reply.data.value != [] ==>
      |q.notes| == |p.notes| + 1 && q.notes[..|p.notes|] == p.notes &&
      q.notes[|p.notes|] == reply.data.value[0] && q.draft == ""
  {
    if IsBlank(p.draft) then p
    else
      match reply
      case Ok(Some(rows)) =>
        if rows == [] then p else Page(p.user, AppendFirst(p.notes, rows), "")
      case _ => p
  }

  /** `addNote` as written: `if (newNote)` also lets an empty array through, so the
      list gains `[][0]`, which is `undefined` (written None), and the draft is cleared.
      The result is the list of JavaScript values and the new draft. */
  function AddedAsWritten(p: Page, reply: Reply<seq<Note>>): (r: (seq<Option<Note>>, string))
    ensures IsBlank(p.draft) || !Succeeded(reply) ==> r == (Lifted(p.notes), p.draft)
    ensures !IsBlank(p.draft) && Succeeded(reply) ==> |r.0| == |p.notes| + 1 && r.1 == ""
  {
    if IsBlank(p.draft) then (Lifted(p.notes), p.draft)
    else
      match reply
      case Ok(Some(rows)) => (AppendFirstAsWritten(p.notes, rows), "")
      case _ => (Lifted(p.notes), p.draft)
  }

  /** An insert that answers with an empty array: as written, the list gains an `undefined`
      entry and the draft is lost; the intended step keeps the page as it was. */
  lemma AsWrittenEmptyInsert(p: Page)
    requires !IsBlank(p.draft)
    ensures None in AddedAsWritten(p, Ok(Some([]))).0
    ensures AddedAsWritten(p, Ok(Some([]))).1 == ""
    ensures Added(p, Ok(Some([]))) == p
  {
    AsWrittenAppendsUndefined(p.notes);
  }

  /** On every other reply the code as written and the intended step agree: same list
      (with no `undefined` entry) and same draft. */
  lemma AddedMatchesAsWritten(p: Page, reply: Reply<seq<Note>>)
    requires !(Succeeded(reply) && reply.data.value == [])
    ensures AddedAsWritten(p, reply) == (Lifted(Added(p, reply).notes), Added(p, reply).draft)
  {
    if !IsBlank(p.draft) && Succeeded(reply) {
      var rows := reply.data.value;
      var q := Added(p, reply);
      assert q.notes == p.notes + [rows[0]];
      assert AppendFirstAsWritten(p.notes, rows) == Lifted(q.notes);
    }
  }

  // ---- deleteNote ----

  /** `deleteNote(id)`: once the delete returns data, every cached note with `id` is
      dropped and the rest keep their order; an error or null data change nothing. */
  function Deleted(p: Page, id: NoteId, reply: Reply<seq<Note>>): (q: Page)
    ensures q.user == p.user && q.draft == p.draft
    ensures Succeeded(reply) ==> forall n :: n in q.notes <==> n in p.notes && n.id != id
    ensures Succeeded(reply) ==> q.notes == WithoutId(p.notes, id)
    ensures !Succeeded(reply) ==> q == p
  {
    match reply
    case Ok(Some(_)) => p.(notes := WithoutId(p.notes, id))
    case _ => p
  }

  // ---- handleLogout ----

  /** `handleLogout`: nobody is signed in and no note is cached; the draft stays. */
  function LoggedOut(p: Page): (q: Page)
    ensures q.user.None? && q.notes == [] && q.draft == p.draft
  {
    Page(None, [], p.draft)
  }

  // ---- runs of handlers ----

  /** One handler invocation, with the reply its remote call received. `EditDraft` is the
      draft input's `onChange` (options/index.tsx:277). */
  datatype Action =
    | Restore(session: Reply<Session>)
    | EmailLogin(kind: AuthKind, email: string, password: string, auth: Reply<User>)
    | Fetch(selected: Reply<seq<Note>>)
    | Update(id: NoteId, content: string, updated: Reply<seq<Note>>)
    | Add(inserted: Reply<seq<Note>>)
    | Delete(id: NoteId, deleted: Reply<seq<Note>>)
    | Logout
    | EditDraft(text: string)

  function Step(p: Page, a: Action): Page {
    match a
    case Restore(reply) => Restored(p, reply)
    case EmailLogin(_, _, _, reply) => LoggedIn(p, reply)
    case Fetch(reply) => Fetched(p, reply)
    case Update(_, _, _) => p
    case Add(reply) => Added(p, reply)
    case Delete(id, reply) => Deleted(p, id, reply)
    case Logout => LoggedOut(p)
    case EditDraft(text) => p.(draft := text)
  }

  /** The remote calls one handler invocation makes. */
  function Calls(p: Page, a: Action): seq<RemoteCall> {
    match a
    case Restore(_) => [GetSession]
    case EmailLogin(kind, email, password, _) => [AuthCall(kind, email, password)]
    case Fetch(_) => FetchCalls(p)
    case Update(id, content, _) => [UpdateContent(id, content)]
    case Add(_) => AddCalls(p)
    case Delete(id, _) => [DeleteById(id)]
    case Logout => [SignOut]
    case EditDraft(_) => []
  }

  function Run(p: Page, acts: seq<Action>): Page
    decreases |acts|
  {
    if acts == [] then p else Run(Step(p, acts[0]), acts[1..])
  }

  /** The messages a run sends to the background worker. */
  function RunMessages(acts: seq<Action>): seq<Message>
    decreases |acts|
  {
    if acts == [] then []
    else (if acts[0].Restore? then RestoreMessages(acts[0].session) else []) + RunMessages(acts[1..])
  }

  /** How many invocations of a run established a session. */
  function SessionsEstablished(acts: seq<Action>): nat
    decreases |acts|
  {
    if acts == [] then 0
    else (if acts[0].Restore? && Succeeded(acts[0].session) then 1 else 0) + SessionsEstablished(acts[1..])
  }

  /** Exactly one `init-session` message per session established in a run, and none for
      anything else, email login included. */
  lemma {:induction false} OneMessagePerSession(acts: seq<Action>)
    ensures |RunMessages(acts)| == SessionsEstablished(acts)
  {
    if acts != [] {
      OneMessagePerSession(acts[1..]);
    }
  }

  // ---- every cached note belongs to the signed-in user ----

  /** The cache holds only notes whose owner is the signed-in user. */
  predicate Owned(p: Page) {
    forall n :: n in p.notes ==> p.user.Some? && n.userId == p.user.value.id
  }

  /** When each handler can run, and what the store answers. Login runs only from the
      form shown while nobody is signed in (options/index.tsx:184-240); a session that
      `init` restores either arrives before any note is cached or belongs to the user
      already signed in; the select answers only rows with the `user_id` it filtered on
      (options/index.tsx:102); the insert answers a row owned by the `user_id` it was
      sent (options/index.tsx:138). Update, delete, logout and typing are never limited. */
  function Admissible(p: Page, a: Action): (ok: bool)
    ensures ok && a.EmailLogin? ==> p.user.None?
    ensures ok && a.Restore? && Succeeded(a.session) && p.notes != [] ==>
      UserId(p.user) == Some(a.session.data.value.user.id)
    ensures a.Update? || a.Delete? || a.Logout? || a.EditDraft? ==> ok
    ensures a.Fetch? && !Succeeded(a.selected) ==> ok
  {
    match a
    case Restore(reply) =>
      p.notes == [] || (Succeeded(reply) ==> UserId(p.user) == Some(reply.data.value.user.id))
    case EmailLogin(_, _, _, _) => p.user.None?
    case Fetch(reply) =>
      p.user.Some? && Succeeded(reply) ==>
        forall n :: n in reply.data.value ==> n.userId == p.user.value.id
    case Add(reply) =>
      !IsBlank(p.draft) && Succeeded(reply) && reply.data.value != [] ==>
        UserId(p.user) == Some(reply.data.value[0].userId)
    case _ => true
  }

  predicate AdmissibleRun(p: Page, acts: seq<Action>)
    decreases |acts|
  {
    acts == [] || (Admissible(p, acts[0]) && AdmissibleRun(Step(p, acts[0]), acts[1..]))
  }

  /** Each admissible handler keeps every cached note owned by the signed-in user. */
  lemma StepKeepsOwned(p: Page, a: Action)
    requires Owned(p) && Admissible(p, a)
    ensures Owned(Step(p, a))
  {
    match a
    case Restore(reply) =>
      if p.notes != [] && Succeeded(reply) {
        assert p.user.Some? && p.user.value.id == reply.data.value.user.id;
      }
    case Add(reply) =>
      var q := Added(p, reply);
      if q != p {
        forall n | n in q.notes ensures q.user.Some? && n.userId == q.user.value.id {
          var i :| 0 <= i < |q.notes| && q.notes[i] == n;
          if i < |p.notes| {
            assert n == q.notes[..|p.notes|][i];
            assert n in p.notes;
          }
        }
      }
    case _ =>
  }

  /** From a page whose cache is owned, every admissible run keeps it owned. */
  lemma {:induction false} RunKeepsOwned(p: Page, acts: seq<Action>)
    requires Owned(p) && AdmissibleRun(p, acts)
    ensures Owned(Run(p, acts))
    decreases |acts|
  {
    if acts != [] {
      StepKeepsOwned(p, acts[0]);
      RunKeepsOwned(Step(p, acts[0]), acts[1..]);
    }
  }

  /** A freshly mounted page is owned, so every admissible run from it is. */
  lemma MountedRunsOwned(stored: Option<User>, acts: seq<Action>)
    requires AdmissibleRun(Mounted(stored), acts)
    ensures Owned(Run(Mounted(stored), acts))
  {
    RunKeepsOwned(Mounted(stored), acts);
  }

  // ---- single-handler properties ----

  /** Two fetches that receive the same reply leave the same cache as one. */
  lemma FetchIdempotent(p: Page, reply: Reply<seq<Note>>)
    ensures Fetched(Fetched(p, reply), reply) == Fetched(p, reply)
    ensures FetchCalls(Fetched(p, reply)) == FetchCalls(p)
  {
  }

  /** The run with every `updateNote` call taken out. */
  function WithoutUpdates(acts: seq<Action>): (r: seq<Action>)
    ensures forall a :: a in r <==> a in acts && !a.Update?
    decreases |acts|
  {
    if acts == [] then []
    else
      assert acts == [acts[0]] + acts[1..];
      (if acts[0].Update? then [] else [acts[0]]) + WithoutUpdates(acts[1..])
  }

  /** `updateNote` never touches the page, whatever the store answers: taking every
      update out of any run leaves the page it reaches unchanged. */
  lemma {:induction false} UpdatesLeavePage(p: Page, acts: seq<Action>)
    ensures Run(p, WithoutUpdates(acts)) == Run(p, acts)
    decreases |acts|
  {
    if acts != [] {
      var q := Step(p, acts[0]);
      var rest := WithoutUpdates(acts[1..]);
      UpdatesLeavePage(q, acts[1..]);
      if acts[0].Update? {
        assert q == p;
        assert WithoutUpdates(acts) == [] + rest == rest;
      } else {
        var kept := [acts[0]] + rest;
        assert WithoutUpdates(acts) == kept;
        assert kept[0] == acts[0] && kept[1..] == rest;
        assert Run(p, kept) == Run(q, rest);
      }
    }
  }

  /** After logout a fetch makes no remote call and the cache stays empty. */
  lemma LogoutThenFetch(p: Page, reply: Reply<seq<Note>>)
    ensures Calls(Step(p, Logout), Fetch(reply)) == []
    ensures Run(p, [Logout, Fetch(reply)]).notes == []
    ensures Run(p, [Logout, Fetch(reply)]).user.None?
  {
    var q := Step(p, Logout);
    assert [Logout, Fetch(reply)][1..] == [Fetch(reply)];
    assert Run(p, [Logout, Fetch(reply)]) == Run(q, [Fetch(reply)]);
    assert Run(q, [Fetch(reply)]) == Step(q, Fetch(reply));
  }

  /** A note added and then deleted by its store-assigned id leaves the cache as before,
      provided the store assigned an id not already cached. */
  lemma DeleteUndoesAdd(p: Page, n: Note, deleted: seq<Note>)
    requires !IsBlank(p.draft)
    requires forall m :: m in p.notes ==> m.id != n.id
    ensures Deleted(Added(p, Ok(Some([n]))), n.id, Ok(Some(deleted))).notes == p.notes
  {
    DeleteUndoesAppend(p.notes, n);
  }

  /** A session from a freshly mounted page with no stored user: log in as u1, fetch
      [1:"a"], type "b" and add it, update note 1 to "a2", delete note 2. The cache ends
      as [1:"a"]: the update is sent to the store but the cached content is not patched. */
  lemma LoginFetchAddUpdateDeleteRun()
    ensures Run(Mounted(None), LoginFetchAddUpdateDeleteActions()) ==
      Page(Some(User("u1", "u1@example.org")), [Note("1", "u1", "a")], "")
  {
    var u1 := User("u1", "u1@example.org");
    var a := Note("1", "u1", "a");
    var b := Note("2", "u1", "b");
    var acts := LoginFetchAddUpdateDeleteActions();
    var p1 := Page(Some(u1), [], "");
    var p2 := Page(Some(u1), [a], "");
    var p3 := Page(Some(u1), [a], "b");
    var p4 := Page(Some(u1), [a, b], "");
    RunStep(Mounted(None), acts, p1);
    RunStep(p1, acts[1..], p2);
    RunStep(p2, acts[2..], p3);
    DraftBIsNotBlank();
    RunStep(p3, acts[3..], p4);
    RunStep(p4, acts[4..], p4);
    assert WithoutId([a, b], "2") == [a] by {
      assert [a, b][1..] == [b];
    }
    RunStep(p4, acts[5..], p2);
  }

  function LoginFetchAddUpdateDeleteActions(): seq<Action> {
    var u1 := User("u1", "u1@example.org");
    [ EmailLogin(LogIn, "u1@example.org", "secret", Ok(Some(u1))),
      Fetch(Ok(Some([Note("1", "u1", "a")]))),
      EditDraft("b"),
      Add(Ok(Some([Note("2", "u1", "b")]))),
      Update("1", "a2", Ok(None)),
      Delete("2", Ok(Some([Note("2", "u1", "b")]))) ]
  }

  lemma DraftBIsNotBlank()
    ensures !IsBlank("b")
  {
    assert !IsWhitespace("b"[0]);
  }

  // ---- which notes the cache holds after a run of edits ----

  /** The handlers that edit the cache in place, as opposed to replacing it. */
  predicate CacheEdit(a: Action) {
    a.Add? || a.Delete? || a.Update? || a.EditDraft?
  }

  /** Some delete after position `k` returned data for `id` (`k == -1`: anywhere). */
  ghost predicate DeletedAfter(acts: seq<Action>, k: int, id: NoteId) {
    exists j :: 0 <= j < |acts| && k < j && acts[j].Delete? && acts[j].id == id && Succeeded(acts[j].deleted)
  }

  /** The handler at position `i` is an add, run on a draft that is not blank, whose insert
      returned `n` as its first row. */
  ghost predicate AddsAt(q: Page, acts: seq<Action>, i: int, n: Note) {
    0 <= i < |acts| && acts[i].Add? && !IsBlank(Run(q, acts[..i]).draft) &&
    Succeeded(acts[i].inserted) && acts[i].inserted.data.value != [] &&
    acts[i].inserted.data.value[0] == n
  }

  /** Why `n` can be cached after `acts` from `q`: it was cached at the start, or some add
      brought it in; and no later delete of its id returned data. */
  ghost predicate Explained(q: Page, acts: seq<Action>, n: Note) {
    (n in q.notes && !DeletedAfter(acts, -1, n.id)) ||
    (exists i :: AddsAt(q, acts, i, n) && !DeletedAfter(acts, i, n.id))
  }

  lemma {:induction false} RunSnoc(p: Page, init: seq<Action>, a: Action)
    ensures Run(p, init + [a]) == Step(Run(p, init), a)
    decreases |init|
  {
    if init == [] {
      assert [] + [a] == [a];
      assert [a][1..] == [];
    } else {
      assert (init + [a])[0] == init[0];
      assert (init + [a])[1..] == init[1..] + [a];
      RunSnoc(Step(p, init[0]), init[1..], a);
    }
  }

  /** Appending a handler keeps every earlier add, and adds one only at the new position. */
  lemma AddsAtSnoc(q: Page, init: seq<Action>, a: Action, n: Note)
    ensures forall i :: 0 <= i < |init| ==> (AddsAt(q, init + [a], i, n) <==> AddsAt(q, init, i, n))
    ensures AddsAt(q, init + [a], |init|, n) <==>
      a.Add? && !IsBlank(Run(q, init).draft) && Succeeded(a.inserted) &&
      a.inserted.data.value != [] && a.inserted.data.value[0] == n
  {
    var acts := init + [a];
    assert acts[..|init|] == init;
    forall i | 0 <= i < |init|
      ensures AddsAt(q, acts, i, n) <==> AddsAt(q, init, i, n)
    {
      assert acts[..i] == init[..i];
      assert acts[i] == init[i];
    }
  }

  /** Appending a handler adds at most one delete, at the new position. */
  lemma DeletedAfterSnoc(init: seq<Action>, a: Action, k: int, id: NoteId)
    requires -1 <= k < |init|
    ensures DeletedAfter(init + [a], k, id) <==>
      DeletedAfter(init, k, id) || (a.Delete? && a.id == id && Succeeded(a.deleted))
  {
    var acts := init + [a];
    if DeletedAfter(init, k, id) {
      var j :| 0 <= j < |init| && k < j && init[j].Delete? && init[j].id == id && Succeeded(init[j].deleted);
      assert acts[j] == init[j];
    }
    if a.Delete? && a.id == id && Succeeded(a.deleted) {
      assert acts[|init|] == a;
    }
    if DeletedAfter(acts, k, id) {
      var j :| 0 <= j < |acts| && k < j && acts[j].Delete? && acts[j].id == id && Succeeded(acts[j].deleted);
      if j < |init| {
        assert acts[j] == init[j];
      }
    }
  }

  /** After any run of adds, deletes, updates and typing, a note is cached exactly when it
      was cached at the start or was the first row of an insert made on a non-blank draft,
      and no later delete of its id returned data. */
  lemma {:induction false} CacheAfterEdits(q: Page, acts: seq<Action>, n: Note)
    requires forall i :: 0 <= i < |acts| ==> CacheEdit(acts[i])
    ensures n in Run(q, acts).notes <==> Explained(q, acts, n)
    decreases |acts|
  {
    if acts == [] {
      assert !DeletedAfter(acts, -1, n.id);
      assert forall i :: !AddsAt(q, acts, i, n);
    } else {
      var init := acts[..|acts| - 1];
      var a := acts[|acts| - 1];
      assert acts == init + [a];
      CacheAfterEdits(q, init, n);
      RunSnoc(q, init, a);
      AddsAtSnoc(q, init, a, n);
      DeletedAfterSnoc(init, a, -1, n.id);
      var r := Run(q, init);
      var deletesN := a.Delete? && a.id == n.id && Succeeded(a.deleted);
      var addsN := AddsAt(q, acts, |init|, n);
      // Every position before the new one keeps its adds; a delete of n.id after it is
      // a delete after it in `init`, or the new handler.
      forall i | 0 <= i < |init|
        ensures DeletedAfter(acts, i, n.id) <==> DeletedAfter(init, i, n.id) || deletesN
      {
        DeletedAfterSnoc(init, a, i, n.id);
      }
      assert !DeletedAfter(acts, |init|, n.id);
      if Explained(q, acts, n) {
        if n in q.notes && !DeletedAfter(acts, -1, n.id) {
          assert Explained(q, init, n) && !deletesN;
        } else {
          var i :| AddsAt(q, acts, i, n) && !DeletedAfter(acts, i, n.id);
          if i < |init| {
            assert AddsAt(q, init, i, n);
            assert Explained(q, init, n) && !deletesN;
          } else {
            assert addsN;
          }
        }
      }
      if Explained(q, init, n) && !deletesN {
        if n in q.notes && !DeletedAfter(init, -1, n.id) {
          assert !DeletedAfter(acts, -1, n.id);
        } else {
          var i :| AddsAt(q, init, i, n) && !DeletedAfter(init, i, n.id);
          assert AddsAt(q, acts, i, n) && !DeletedAfter(acts, i, n.id);
        }
      }
      if addsN {
        assert AddsAt(q, acts, |init|, n) && !DeletedAfter(acts, |init|, n.id);
      }
      // Now the step itself.
      assert Run(q, acts) == Step(r, a);
      assert n in Step(r, a).notes <==> (n in r.notes && !deletesN) || addsN;
    }
  }

  /** A successful fetch followed by edits: a note is cached exactly when it is one of the
      fetched rows or the first row of an insert on a non-blank draft, with no later delete
      of its id returning data. */
  lemma FetchThenEdits(p: Page, rows: seq<Note>, acts: seq<Action>, n: Note)
    requires p.user.Some?
    requires forall i :: 0 <= i < |acts| ==> CacheEdit(acts[i])
    ensures n in Run(p, [Fetch(Ok(Some(rows)))] + acts).notes <==>
      Explained(Page(p.user, rows, p.draft), acts, n)
  {
    var fetched := Page(p.user, rows, p.draft);
    var all := [Fetch(Ok(Some(rows)))] + acts;
    assert all[0] == Fetch(Ok(Some(rows))) && all[1..] == acts;
    assert Run(p, all) == Run(fetched, acts);
    CacheAfterEdits(fetched, acts, n);
  }

  lemma RunStep(p: Page, acts: seq<Action>, q: Page)
    requires acts != [] && Step(p, acts[0]) == q
    ensures Run(p, acts) == Run(q, acts[1..])
  {
  }
}
