# Notes extension options page: session and note-cache model

This project models the state logic of the notes browser extension's options page. That logic is
the `IndexOptions` component in `options/index.tsx`. The component keeps three state slots:

- the signed-in `user`, persisted in local extension storage under the key "user";
- the cached `notes` list, in display order;
- the draft `newNoteText`.

Seven async handlers change these slots after one remote call each:

- `init` restores the session and sends an `init-session` message to the background worker;
- `handleEmailLogin` logs in or signs up;
- `fetchNotes` loads the user's notes;
- `updateNote` sends edited content;
- `addNote` inserts the draft;
- `deleteNote` removes a note;
- `handleLogout` signs out.

The model has four modules:

- `Text` (`text.dfy`) models JavaScript's `String.prototype.trim` over the ECMAScript whitespace
  and line-terminator code points. It also models the test `!s.trim()`.
- `Model` (`model.dfy`) holds the values: `User`, `Session`, `Note`, and the `{ data, error }`
  reply shape as `Reply<T> = Ok(data: Option<T>) | Err(message)`. It also holds the remote calls,
  the background message, and the two list rebuilds: `filter` by id, and append of the first
  inserted row.
- `Handlers` (`handlers.dfy`) defines one pure step function per handler over a `Page` value
  (user, notes, draft). It also defines runs of handlers, and the lemmas about them.
- `Options` (`options.dfy`) is the class `IndexOptions`. Its fields are `user`, `notes` and
  `newNoteText`, plus two ghost logs: the remote calls made (`calls`) and the messages sent to the
  background worker (`sent`). Each handler is a method that takes the reply of its remote call as
  a parameter. Each method's `ensures` ties the new state to the step function of `Handlers`, and
  gives the logs exactly.

Remote calls (the authentication service, the `notes` table), local storage and the messaging
library are not modelled as code. A call's reply is a parameter of its handler. Storage is the
`user` field. Sending a message is an append to the ghost `sent` log.

In these points the model follows the code, not what a session and note layer would be expected
to do:

- `handleEmailLogin` sends no `init-session` message. Only `init` does.
- `updateNote` never patches the cached note; the cache keeps its old content.
- `handleLogout` leaves the draft as it was.
- A fetch with nobody signed in throws at `user.id` (options/index.tsx:98). The throw is caught,
  no query is sent, and the cache is unchanged.
- Neither login nor session restore clears the cache. The ownership invariant (`Handlers.Owned`)
  therefore holds only for runs in which login happens while nobody is signed in, and in which a
  restored session arrives before any note is cached or belongs to the user already signed in.
  The login form is shown only while nobody is signed in (options/index.tsx:184-240). The restore
  condition is an assumption: `init` runs once, at mount, but its reply can arrive late, and the
  popups mount the same component over the same stored "user" slot. `Handlers.Admissible` states
  both conditions.

## Model

| member | source | states |
|---|---|---|
| Text.IsWhitespace | options/index.tsx:135-139 | the characters `trim` strips include space, tab, line feed and carriage return, and exclude every ASCII letter and digit |
| Text.LeadingWhitespace | options/index.tsx:135 | the leading run `trim` strips: within the string, all whitespace, and followed by a non-whitespace character or the end |
| Text.TrailingWhitespace | options/index.tsx:135 | the trailing run `trim` strips: within the string, all whitespace, and preceded by a non-whitespace character or the start |
| Text.Trim | options/index.tsx:135-139 | `trim` returns the string minus whitespace-only ends: empty exactly when the string is all whitespace, else its first and last characters are not whitespace |
| Text.IsBlank | options/index.tsx:135 | `!newNoteText.trim()` holds exactly when every character of the draft is whitespace |
| Text.TrimIdempotent | options/index.tsx:135-139 | trimming the already trimmed draft changes nothing |
| Model.UserId | options/index.tsx:138 | `user?.id` (also the select filter at line 102) is defined exactly when a user is signed in, and is then that user's id |
| Model.WithoutId | options/index.tsx:168 | the filtered list holds exactly the cached notes whose id differs from the deleted id, and is no longer than before |
| Model.WithoutIdConcat | options/index.tsx:168 | the filter works element by element in place, so the survivors keep their relative order |
| Model.WithoutAbsentId | options/index.tsx:168 | deleting an id that no cached note has leaves the list unchanged |
| Model.WithoutIdIdempotent | options/index.tsx:168 | deleting the same id twice leaves the same list as deleting it once |
| Model.DeleteUndoesAppend | options/index.tsx:147-168 | appending a note with a fresh id, then filtering that id out, gives back the old list |
| Model.AppendFirstAsWritten | options/index.tsx:146-148 | the spread-append as written: old entries kept in place, one entry added, which is `undefined` when the insert returned an empty array |
| Model.AsWrittenAppendsUndefined | options/index.tsx:146-148 | an insert that answers with an empty array leaves an `undefined` entry in the list |
| Model.Lifted | options/index.tsx:146-148 | a list of notes read as JavaScript values keeps length and order and holds no `undefined` |
| Model.AppendFirst | options/index.tsx:146-149 | the intended append: the first returned row goes after the old notes, which keep their order; with no row the list is unchanged |
| Model.AppendFirstMatchesAsWritten | options/index.tsx:146-148 | whenever a row is returned, the intended append and the code as written give the same list |
| Handlers.Restored | options/index.tsx:40-56 | a found session's user becomes the page's user; an error or no session leaves the page unchanged; notes and draft are never touched |
| Handlers.RestoreMessages | options/index.tsx:47-56 | exactly one `init-session` message when a session is found, carrying its access and refresh tokens; none otherwise |
| Handlers.OneMessagePerSession | options/index.tsx:40-94 | over any run of handlers, the number of background messages equals the number of restores that found a session; email login sends none |
| Handlers.AuthCall | options/index.tsx:76-81 | the Login button calls `signInWithPassword` and the Sign Up button `signUpWithPassword`, each with the email and password as typed |
| Handlers.LoggedIn | options/index.tsx:83-89 | the user changes only when the call succeeds with a user, and then becomes that user; an auth error or a pending signup confirmation keeps it |
| Handlers.FetchCalls | options/index.tsx:96-103 | a fetch makes no remote call exactly when nobody is signed in; otherwise it selects the rows of the user's id |
| Handlers.Fetched | options/index.tsx:96-113 | on success the returned rows replace the cache wholesale; an error, null data or no user leave the page unchanged; the user and draft are never touched |
| Handlers.FetchIdempotent | options/index.tsx:99-112 | two fetches that get the same reply leave the same cache as one, and make the same call |
| Handlers.UpdatesLeavePage | options/index.tsx:115-131 | `updateNote` changes no slot, whether the store reports an error or not: taking every update out of any run of handlers leaves the page it reaches unchanged |
| Handlers.AddCalls | options/index.tsx:135-140 | a blank draft makes no remote call; otherwise one insert of the trimmed (non-empty) draft tagged with `user?.id` |
| Handlers.Added | options/index.tsx:133-153 | a returned row is appended after the old notes, which keep their order, and the draft is cleared; a blank draft, an error or no row leave the page unchanged; the user is never touched |
| Handlers.AddedAsWritten | options/index.tsx:133-153 | `addNote` as written: a blank draft or a failed insert leaves the list and draft; any insert that returns data, even an empty array, adds one entry and clears the draft |
| Handlers.AsWrittenEmptyInsert | options/index.tsx:146-149 | an insert answering an empty array leaves an `undefined` entry and clears the draft as written, while the intended step leaves the page unchanged |
| Handlers.AddedMatchesAsWritten | options/index.tsx:133-153 | on every other reply the code as written and the intended step give the same list, with no `undefined`, and the same draft |
| Handlers.Deleted | options/index.tsx:155-173 | once the delete returns data, the cache is the filtered list: every note with the id removed and the rest kept; an error or null data leave the page unchanged |
| Handlers.LoggedOut | options/index.tsx:175-179 | after logout nobody is signed in and the cache is empty; the draft stays |
| Handlers.LogoutThenFetch | options/index.tsx:96-179 | a fetch after logout makes no remote call and the cache stays empty with no user |
| Handlers.DeleteUndoesAdd | options/index.tsx:133-173 | adding a note and then deleting it by its fresh id restores the cache |
| Handlers.Admissible | options/index.tsx:184-240 | login only while nobody is signed in; a restored session arrives before any note is cached or is the signed-in user's; the select answers rows of the queried user and the insert a row of the given owner; update, delete, logout and typing are always allowed |
| Handlers.StepKeepsOwned | options/index.tsx:96-179 | each handler, run as the UI allows and with the store answering as queried, keeps every cached note owned by the signed-in user |
| Handlers.RunKeepsOwned | options/index.tsx:96-179 | every admissible run of handlers from an owned page keeps every cached note owned by the signed-in user |
| Handlers.MountedRunsOwned | options/index.tsx:27-179 | from the freshly mounted page, every admissible run keeps the cache owned by the signed-in user |
| Handlers.CacheAfterEdits | options/index.tsx:133-173 | after any run of adds, deletes, updates and typing, a note is cached exactly when it was cached at the start or was the first row of an insert on a non-blank draft, and no later delete of its id returned data |
| Handlers.FetchThenEdits | options/index.tsx:96-173 | after a successful fetch followed by edits, a note is cached exactly when it is a fetched row or the first row of such an insert, and no later delete of its id returned data |
| Handlers.LoginFetchAddUpdateDeleteRun | options/index.tsx:66-179 | login as u1, fetch [1:"a"], add "b", update 1 to "a2", then delete 2 ends with the cache [1:"a"]; the cached content is not patched by the update |
| Options.IndexOptions.constructor | options/index.tsx:27-34 | the page mounts with the stored user, no notes, an empty draft and empty logs |
| Options.IndexOptions.Init | options/index.tsx:40-56 | the state moves as `Restored`; exactly one `getSession` call is logged; the messages of `RestoreMessages` are sent |
| Options.IndexOptions.HandleEmailLogin | options/index.tsx:66-94 | the state moves as `LoggedIn`; one sign-in or sign-up call is logged; no message is sent |
| Options.IndexOptions.FetchNotes | options/index.tsx:96-113 | the state moves as `Fetched`; the calls of `FetchCalls` are logged |
| Options.IndexOptions.UpdateNote | options/index.tsx:115-131 | no slot changes; one update call is logged |
| Options.IndexOptions.AddNote | options/index.tsx:133-153 | the state moves as `Added`; the calls of `AddCalls` are logged (none for a blank draft) |
| Options.IndexOptions.DeleteNote | options/index.tsx:155-173 | the state moves as `Deleted`; one delete call is logged |
| Options.IndexOptions.HandleLogout | options/index.tsx:175-179 | the state moves as `LoggedOut`; one sign-out call is logged |
| Options.IndexOptions.SetNewNoteText | options/index.tsx:274-279 | the draft becomes the typed text; nothing else changes |

## Left out

- Rendering (JSX, Chakra UI, the `Editable` widgets; options/index.tsx:181-301) is presentation.
  It is modelled only where it decides when a handler can run (`Handlers.Admissible`), and as the
  draft input's `onChange`.
- `popup.tsx` and `popup/index.tsx` only wrap `IndexOptions`. `popup.tsx`'s `handleSubmit` only
  logs.
- The effect that calls `fetchNotes` whenever `notes` changes (options/index.tsx:62-64) is left
  out. Every successful fetch stores a new array, so the effect fires again. The page keeps
  refetching without end. Here a fetch happens only when `FetchNotes` is called explicitly. This
  loop is a defect. Modelling it would need React's effect scheduler and array identity, which
  the model does not have.
- Interleaving of handlers in flight at the same time is left out. Each handler runs atomically;
  the completion order of concurrent calls is not controlled by this code.
- The Update button passes the note's cached `note.content`, not the edited text
  (options/index.tsx:261). `Options.IndexOptions.UpdateNote` takes the content as a parameter. On
  the page, that parameter is always the stale cached content.
- `deleteNote` matches remotely on `Number(id)` but filters locally with a string `!==`
  (options/index.tsx:161,168). The model uses one string id type, so that mismatch is not
  represented.
- `console.log`, `console.error` and `alert` have no effect on the state. The `user &&` branch
  inside the `!user` branch (options/index.tsx:187-200) can never be reached.
- The internals of the Supabase client, `@plasmohq/storage` and `@plasmohq/messaging` are not
  modelled. Replies are parameters; storage is the `user` field; messages go to a ghost log.
  Asynchronous persistence of the stored user is not represented. `../types` (the `Note` type) is
  not part of this model; its fields are inferred from use.
- Options.IndexOptions.HandleLogout: `signOut`'s reply is ignored, as in the code. A rejected
  sign-out promise would stop the handler before it clears the state; the model assumes the
  promise resolves.
- Handlers.Added: on an insert that answers an empty array, the page is left unchanged, where
  the code appends `undefined` and clears the draft; the code as written is
  `Handlers.AddedAsWritten`, and the difference is the one row under "## Findings".
- Options.IndexOptions.AddNote: follows `Handlers.Added`, so on an insert that answers an empty
  array it leaves the list and the draft as they were; see "## Findings".
- Handlers.RunKeepsOwned: proved for one page alone. The popups mount the same component
  (popup/index.tsx:8, popup.tsx:22) over the same stored "user" slot, so another surface can
  change the stored user between two handlers; such writes are not steps of a run here, and
  the restore condition of `Handlers.Admissible` stands in for them.
- The username and password inputs (options/index.tsx:36-37) are form state. They are passed
  directly as parameters of `HandleEmailLogin`.

## Findings

| source | as written | input that shows it | evidently intended | confidence | as-written member | corrected member |
|---|---|---|---|---|---|---|
| options/index.tsx:146-149 | `if (newNote)` accepts an empty array (truthy in JavaScript), appends `newNote[0]`, which is `undefined`, to the list, and clears the draft | an insert that resolves to `{ data: [], error: null }` | append only when a row came back, and otherwise keep the list and the draft | not executed; medium (depends on what the store returns for an insert) | Handlers.AsWrittenEmptyInsert | Handlers.Added |
