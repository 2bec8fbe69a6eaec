/** The in-memory repository: the user list, the note list (newest first)
    and the per-note chat logs, as one immutable value. Every operation
    returns the new store; each postcondition says which slot changed and
    that nothing else did. */
module Data {
  import opened Wrappers
  import opened Types
  import opened Seqs

  datatype Store = Store(
    users: seq<User>,
    notes: seq<Note>,
    chats: map<string, seq<ChatMessage>>)

  /** The first note carrying `id`, or absent; never fails. */
  function GetNoteById(s: Store, id: string): (r: Option<Note>)
    ensures r.Some? ==> r.value.id == id
    ensures r.Some? ==> exists k :: 0 <= k < |s.notes| && s.notes[k] == r.value
                           && forall j :: 0 <= j < k ==> s.notes[j].id != id
    ensures r.None? <==> forall k :: 0 <= k < |s.notes| ==> s.notes[k].id != id
  {
    var k := FindIndex(s.notes, NoteKey, id);
    if k.Some? then Some(s.notes[k.value]) else None
  }

  /** `unshift` followed by returning the argument. */
  function AddNote(s: Store, note: Note): (r: (Store, Note))
    ensures r.1 == note
    ensures |r.0.notes| == |s.notes| + 1
    ensures r.0.notes[0] == note && r.0.notes[1..] == s.notes
    ensures r.0.users == s.users && r.0.chats == s.chats
  {
    (s.(notes := [note] + s.notes), note)
  }

  /** Replaces the first note with the same id, if any; returns the argument
      either way. */
  function UpdateNote(s: Store, note: Note): (r: (Store, Note))
    ensures r.1 == note
    ensures |r.0.notes| == |s.notes|
    ensures (forall k :: 0 <= k < |s.notes| ==> s.notes[k].id != note.id) ==> r.0 == s
    ensures forall k :: 0 <= k < |s.notes| && s.notes[k].id == note.id
                        && (forall j :: 0 <= j < k ==> s.notes[j].id != note.id) ==>
              r.0.notes[k] == note
              && forall j :: 0 <= j < |s.notes| && j != k ==> r.0.notes[j] == s.notes[j]
    ensures r.0.users == s.users && r.0.chats == s.chats
  {
    (s.(notes := ReplaceFirst(s.notes, NoteKey, note)), note)
  }

  /** The log of `noteId`, or the empty log when there is none. */
  function GetChatMessages(s: Store, noteId: string): (r: seq<ChatMessage>)
    ensures noteId !in s.chats ==> r == []
    ensures noteId in s.chats ==> r == s.chats[noteId]
  {
    if noteId in s.chats then s.chats[noteId] else []
  }

  /** Appends `message` to the log of `noteId`, creating the log first when
      it is missing; returns the message. */
  function AddChatMessage(s: Store, noteId: string, message: ChatMessage): (r: (Store, ChatMessage))
    ensures r.1 == message
    ensures GetChatMessages(r.0, noteId) == GetChatMessages(s, noteId) + [message]
    ensures forall other :: other != noteId ==> GetChatMessages(r.0, other) == GetChatMessages(s, other)
    ensures r.0.chats.Keys == s.chats.Keys + {noteId}
    ensures r.0.users == s.users && r.0.notes == s.notes
  {
    var log := GetChatMessages(s, noteId);
    (s.(chats := s.chats[noteId := log + [message]]), message)
  }

  /** The first user carrying `id`, or absent; never fails. */
  function GetUserById(s: Store, id: string): (r: Option<User>)
    ensures r.Some? ==> r.value.id == id
    ensures r.Some? ==> exists k :: 0 <= k < |s.users| && s.users[k] == r.value
                           && forall j :: 0 <= j < k ==> s.users[j].id != id
    ensures r.None? <==> forall k :: 0 <= k < |s.users| ==> s.users[k].id != id
  {
    var k := FindIndex(s.users, UserKey, id);
    if k.Some? then Some(s.users[k.value]) else None
  }

  /** Replaces the first user with the same id, if any; returns the argument. */
  function UpdateUser(s: Store, user: User): (r: (Store, User))
    ensures r.1 == user
    ensures |r.0.users| == |s.users|
    ensures (forall k :: 0 <= k < |s.users| ==> s.users[k].id != user.id) ==> r.0 == s
    ensures forall k :: 0 <= k < |s.users| && s.users[k].id == user.id
                        && (forall j :: 0 <= j < k ==> s.users[j].id != user.id) ==>
              r.0.users[k] == user
              && forall j :: 0 <= j < |s.users| && j != k ==> r.0.users[j] == s.users[j]
    ensures r.0.notes == s.notes && r.0.chats == s.chats
  {
    (s.(users := ReplaceFirst(s.users, UserKey, user)), user)
  }

  /** A note just added is what its id now finds, and every other id finds
      what it found before. */
  lemma AddNoteThenGet(s: Store, note: Note, id: string)
    ensures GetNoteById(AddNote(s, note).0, note.id) == Some(note)
    ensures id != note.id ==> GetNoteById(AddNote(s, note).0, id) == GetNoteById(s, id)
  {
    var s' := AddNote(s, note).0;
    if id != note.id {
      assert s'.notes[1..] == s.notes;
      var k := FindIndex(s.notes, NoteKey, id);
      var k' := FindIndex(s'.notes, NoteKey, id);
      if k.Some? {
        assert k'.Some? && k'.value == k.value + 1 by {
          assert s'.notes[k.value + 1] == s.notes[k.value];
          forall j | 0 <= j < k.value + 1 ensures s'.notes[j].id != id {
            if j > 0 { assert s'.notes[j] == s.notes[j - 1]; }
          }
        }
      } else {
        forall j | 0 <= j < |s'.notes| ensures s'.notes[j].id != id {
          if j > 0 { assert s'.notes[j] == s.notes[j - 1]; }
        }
      }
    }
  }

  /** Re-fetching a note after updating it yields the update, when a note
      with that id was present; otherwise the store is unchanged. */
  lemma UpdateNoteThenGet(s: Store, note: Note)
    ensures GetNoteById(s, note.id).Some? ==> GetNoteById(UpdateNote(s, note).0, note.id) == Some(note)
    ensures GetNoteById(s, note.id).None? ==> UpdateNote(s, note).0 == s
  {
    if GetNoteById(s, note.id).Some? {
      FindAfterReplace(s.notes, NoteKey, note);
    }
  }

  /** `getUserById` after `updateUser` of a present id yields the update. */
  lemma UpdateUserThenGet(s: Store, user: User)
    ensures GetUserById(s, user.id).Some? ==> GetUserById(UpdateUser(s, user).0, user.id) == Some(user)
    ensures GetUserById(s, user.id).None? ==> UpdateUser(s, user).0 == s
  {
    if GetUserById(s, user.id).Some? {
      FindAfterReplace(s.users, UserKey, user);
    }
  }

  /** Every note names, by `teacherId`, a teacher whose current name is the
      note's `teacherName`. */
  predicate NotesOwnedByTeachers(s: Store) {
    forall k :: 0 <= k < |s.notes| ==>
      var owner := GetUserById(s, s.notes[k].teacherId);
      owner.Some? && owner.value.role == Teacher && owner.value.name == s.notes[k].teacherName
  }
}
