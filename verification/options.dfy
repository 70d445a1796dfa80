/** The `IndexOptions` component of the extension's options page (options/index.tsx):
    its three state slots become fields, each handler a method that receives the reply of
    its one remote call as a parameter. Two ghost logs record the remote calls made and
    the messages sent to the background worker. Every method is proved against a step
    function of module Handlers, where the properties of the handlers are stated. */
module Options {
  import opened Text
  import opened Model
  import opened Handlers

  class IndexOptions {
    /** The user persisted in local extension storage under the key "user". */
    var user: Option<User>
    /** The cached notes, in display order. */
    var notes: seq<Note>
    /** The draft typed into the "Enter new note" input. */
    var newNoteText: string

    /** Every remote call made so far, in order. */
    ghost var calls: seq<RemoteCall>
    /** Every message sent to the background worker so far, in order. */
    ghost var sent: seq<Message>

    function View(): Page
      reads this
    {
      Page(user, notes, newNoteText)
    }

    /** The component mounting: `stored` is what local storage holds under "user". */
    constructor (stored: Option<User>)
      ensures View() == Mounted(stored)
      ensures calls == [] && sent == []
    {
      user := stored;
      notes := [];
      newNoteText := "";
      calls := [];
      sent := [];
    }

    /** `init`: restore the session and hand its tokens to the background worker. */
    method Init(reply: Reply<Session>)
      modifies this
      ensures View() == Restored(old(View()), reply)
      ensures calls == old(calls) + [GetSession]
      ensures sent == old(sent) + RestoreMessages(reply)
    {
      calls := calls + [GetSession];
      if reply.Err? {
        return;
      }
      if reply.data.Some? {
        var session := reply.data.value;
        user := Some(session.user);
        sent := sent + [InitSession(session.accessToken, session.refreshToken)];
      }
    }

    /** `handleEmailLogin`: sign in or sign up with an email and a password. */
    method HandleEmailLogin(kind: AuthKind, email: string, password: string, reply: Reply<User>)
      modifies this
      ensures View() == LoggedIn(old(View()), reply)
      ensures calls == old(calls) + [AuthCall(kind, email, password)]
      ensures sent == old(sent)
    {
      calls := calls + [AuthCall(kind, email, password)];
      match reply
      case Err(_) =>
      case Ok(None) =>
      case Ok(Some(signedIn)) =>
        user := Some(signedIn);
    }

    /** `fetchNotes`: replace the cache with the signed-in user's rows. */
    method FetchNotes(reply: Reply<seq<Note>>)
      modifies this
      ensures View() == Fetched(old(View()), reply)
      ensures calls == old(calls) + FetchCalls(old(View()))
      ensures sent == old(sent)
    {
      if user.None? {
        return;
      }
      calls := calls + [SelectNotes(user.value.id)];
      if reply.Err? {
        return;
      }
      if reply.data.Some? {
        notes := reply.data.value;
      }
    }

    /** `updateNote(id, content)`: send the new content; the cache is not touched, whether
        the store reports an error or not. */
    method UpdateNote(id: NoteId, content: string, reply: Reply<seq<Note>>)
      modifies this
      ensures View() == old(View())
      ensures calls == old(calls) + [UpdateContent(id, content)]
      ensures sent == old(sent)
    {
      calls := calls + [UpdateContent(id, content)];
    }

    /** `addNote`: insert the trimmed draft and append the row the store returns. */
    method AddNote(reply: Reply<seq<Note>>)
      modifies this
      ensures View() == Added(old(View()), reply)
      ensures calls == old(calls) + AddCalls(old(View()))
      ensures sent == old(sent)
    {
      if IsBlank(newNoteText) {
        return;
      }
      calls := calls + [InsertNote(UserId(user), Trim(newNoteText))];
      if reply.Err? {
        return;
      }
      if reply.data.Some? && reply.data.value != [] {
        notes := AppendFirst(notes, reply.data.value);
        newNoteText := "";
      }
    }

    /** `deleteNote(id)`: delete the row and drop every cached note with that id. */
    method DeleteNote(id: NoteId, reply: Reply<seq<Note>>)
      modifies this
      ensures View() == Deleted(old(View()), id, reply)
      ensures calls == old(calls) + [DeleteById(id)]
      ensures sent == old(sent)
    {
      calls := calls + [DeleteById(id)];
      if reply.Err? {
        return;
      }
      if reply.data.Some? {
        notes := WithoutId(notes, id);
      }
    }

    /** `handleLogout`: sign out, forget the user and empty the cache. */
    method HandleLogout()
      modifies this
      ensures View() == LoggedOut(old(View()))
      ensures calls == old(calls) + [SignOut]
      ensures sent == old(sent)
    {
      calls := calls + [SignOut];
      user := None;
      notes := [];
    }

    /** The draft input's `onChange`: the draft becomes what was typed. */
    method SetNewNoteText(text: string)
      modifies this
      ensures View() == old(View()).(draft := text)
      ensures calls == old(calls) && sent == old(sent)
    {
      newNoteText := text;
    }
  }
}
