/** The three server actions: note upload (authorisation, then schema
    validation, then a prepended note), the chat-send protocol, and the
    teacher profile update. The hosted-model answer is a parameter that may
    fail; clock-derived ids and timestamps are parameters too. */
module Actions {
  import opened Wrappers
  import opened Text
  import opened Types
  import opened Seqs
  import opened Data

  const FileSizeLimit: int := 5 * 1024 * 1024
  const AllowedFileTypes: seq<string> := ["application/pdf"]

  const UnauthorizedMessage := "Unauthorized access."
  const UploadInvalidMessage := "Validation failed. Please check your inputs."
  const ProfileInvalidMessage := "Validation failed."
  const ProfileUpdatedMessage := "Profile updated successfully!"
  const NotFoundMessage := "User or Note not found"
  const TeacherDashboardPath := "/teacher/dashboard"

  /** The parts of a browser `File` the action reads. */
  datatype FileInfo = FileInfo(name: string, size: int, mimeType: string)

  datatype UploadForm = UploadForm(title: string, subject: string, semester: string, file: FileInfo)

  /** A flattened schema error: field name to its messages, for failing
      fields only. */
  type FieldErrors = map<string, seq<string>>

  /** What an action hands back to its form: a message, with the field
      errors when validation failed; or a redirect. */
  datatype ActionReply = Reply(message: string, errors: Option<FieldErrors>) | Redirect(path: string)

  /** A `z.string().min(n, message)` check. */
  function MinLength(s: string, n: nat, message: string): (errs: seq<string>)
    ensures errs == [] <==> |s| >= n
    ensures errs != [] ==> errs == [message]
  {
    if |s| >= n then [] else [message]
  }

  /** The three refinements on the file, each run and reported in order. */
  function FileErrors(f: FileInfo): (errs: seq<string>)
    ensures "A file must be selected." in errs <==> f.size <= 0
    ensures "File size must be less than 5MB." in errs <==> f.size > FileSizeLimit
    ensures "Only PDF files are allowed." in errs <==> f.mimeType != "application/pdf"
    ensures errs == [] <==> 0 < f.size <= FileSizeLimit && f.mimeType == "application/pdf"
    ensures |errs| <= 2
    ensures IsSubsequence(errs, ["A file must be selected.", "File size must be less than 5MB.", "Only PDF files are allowed."])
  {
    (if f.size > 0 then [] else ["A file must be selected."])
    + (if f.size <= FileSizeLimit then [] else ["File size must be less than 5MB."])
    + (if f.mimeType in AllowedFileTypes then [] else ["Only PDF files are allowed."])
  }

  function FieldEntry(field: string, errs: seq<string>): (m: FieldErrors)
    ensures field in m <==> errs != []
    ensures m.Keys <= {field}
    ensures field in m ==> m[field] == errs
  {
    if errs == [] then map[] else map[field := errs]
  }

  /** The union of the four per-field entries, each under its own key. */
  function JoinEntries(title: FieldErrors, subject: FieldErrors, semester: FieldErrors, file: FieldErrors): (m: FieldErrors)
    requires title.Keys <= {"title"} && subject.Keys <= {"subject"}
    requires semester.Keys <= {"semester"} && file.Keys <= {"file"}
    ensures m.Keys == title.Keys + subject.Keys + semester.Keys + file.Keys
    ensures "title" in m ==> m["title"] == title["title"]
    ensures "subject" in m ==> m["subject"] == subject["subject"]
    ensures "semester" in m ==> m["semester"] == semester["semester"]
    ensures "file" in m ==> m["file"] == file["file"]
  {
    title + subject + semester + file
  }

  /** The upload constraints, stated independently of the error map. */
  predicate UploadValid(form: UploadForm) {
    && |form.title| >= 3
    && |form.subject| >= 2
    && |form.semester| >= 3
    && 0 < form.file.size <= FileSizeLimit
    && form.file.mimeType == "application/pdf"
  }

  /** `UploadNoteSchema.safeParse(...).error.flatten().fieldErrors`: exactly
      the violated fields are present. */
  function UploadFieldErrors(form: UploadForm): (errs: FieldErrors)
    ensures "title" in errs <==> |form.title| < 3
    ensures "subject" in errs <==> |form.subject| < 2
    ensures "semester" in errs <==> |form.semester| < 3
    ensures "file" in errs <==> !(0 < form.file.size <= FileSizeLimit && form.file.mimeType == "application/pdf")
    ensures "title" in errs ==> errs["title"] == ["Title must be at least 3 characters."]
    ensures "subject" in errs ==> errs["subject"] == ["Subject must be at least 2 characters."]
    ensures "semester" in errs ==> errs["semester"] == ["Semester must be at least 3 characters."]
    ensures "file" in errs ==> errs["file"] == FileErrors(form.file)
    ensures errs.Keys <= {"title", "subject", "semester", "file"}
    ensures errs == map[] <==> UploadValid(form)
  {
    var title := FieldEntry("title", MinLength(form.title, 3, "Title must be at least 3 characters."));
    var subject := FieldEntry("subject", MinLength(form.subject, 2, "Subject must be at least 2 characters."));
    var semester := FieldEntry("semester", MinLength(form.semester, 3, "Semester must be at least 3 characters."));
    var file := FieldEntry("file", FileErrors(form.file));
    JoinEntries(title, subject, semester, file)
  }

  /** The text stored as the content of an uploaded note. */
  function ContentPlaceholder(fileName: string): string {
    "PDF content for \"" + fileName + "\" uploaded. In a real app, this would be a viewable document."
  }

  /** The acting user exists and is a teacher. */
  predicate ActsAsTeacher(s: Store, userId: string) {
    var user := GetUserById(s, userId);
    user.Some? && user.value.role == Teacher
  }

  /** `uploadNoteAction`; `stamp` stands for `Date.now()` and `now` for the
      ISO timestamp. */
  function UploadNoteAction(s: Store, userId: string, form: UploadForm, stamp: string, now: string): (r: (Store, ActionReply))
    ensures !ActsAsTeacher(s, userId) ==> r == (s, Reply(UnauthorizedMessage, None))
    ensures ActsAsTeacher(s, userId) && !UploadValid(form) ==>
      r.0 == s && r.1 == Reply(UploadInvalidMessage, Some(UploadFieldErrors(form))) && r.1.errors.value != map[]
    ensures ActsAsTeacher(s, userId) && UploadValid(form) ==>
      var user := GetUserById(s, userId).value;
      && r.1 == Redirect(TeacherDashboardPath)
      && |r.0.notes| == |s.notes| + 1 && r.0.notes[1..] == s.notes
      && r.0.users == s.users && r.0.chats == s.chats
      && var note := r.0.notes[0];
      && note.id == "note_" + stamp && note.createdAt == now
      && note.title == form.title && note.subject == form.subject && note.semester == form.semester
      && note.teacherId == userId && note.teacherName == user.name
      && note.viewCount == 0 && note.downloadCount == 0
      && note.content == ContentPlaceholder(form.file.name)
      && note.summary.None? && note.keywords.None?
    ensures r.0 != s ==> r.1.Redirect?
  {
    var user := GetUserById(s, userId);
    if user.None? || user.value.role != Teacher then
      (s, Reply(UnauthorizedMessage, None))
    else
      var errs := UploadFieldErrors(form);
      if errs != map[] then
        (s, Reply(UploadInvalidMessage, Some(errs)))
      else
        var note := Note("note_" + stamp, form.title, form.subject, form.semester,
                         user.value.id, user.value.name, ContentPlaceholder(form.file.name),
                         None, None, 0, 0, now);
        (AddNote(s, note).0, Redirect(TeacherDashboardPath))
  }

  /** A file of exactly 5 * 1024 * 1024 bytes passes the size check, even
      though its message speaks of "less than 5MB". */
  lemma ExactLimitAccepted(name: string)
    ensures FileErrors(FileInfo(name, 5242880, "application/pdf")) == []
    ensures FileErrors(FileInfo(name, 5242881, "application/pdf")) == ["File size must be less than 5MB."]
  {
  }

  /** Uploads keep every note owned by a teacher of the same name. */
  lemma UploadPreservesOwnership(s: Store, userId: string, form: UploadForm, stamp: string, now: string)
    requires NotesOwnedByTeachers(s)
    ensures NotesOwnedByTeachers(UploadNoteAction(s, userId, form, stamp, now).0)
  {
    var s' := UploadNoteAction(s, userId, form, stamp, now).0;
    if s' != s {
      assert s'.users == s.users;
      forall k | 0 <= k < |s'.notes|
        ensures var owner := GetUserById(s', s'.notes[k].teacherId);
                owner.Some? && owner.value.role == Teacher && owner.value.name == s'.notes[k].teacherName
      {
        if k > 0 {
          assert s'.notes[k] == s.notes[k - 1];
          assert GetUserById(s', s'.notes[k].teacherId) == GetUserById(s, s.notes[k - 1].teacherId);
        }
      }
    }
  }

  /** The write half of a chat send: append the user message, then, if the
      model answered, the assistant message; reply with the pair, or with the
      model's error after only the first append. */
  function RecordExchange(
    s: Store, noteId: string, userMessage: ChatMessage,
    reply: Result<string, string>, assistantMsgId: string): (r: (Store, Result<seq<ChatMessage>, string>))
    ensures r.0.users == s.users && r.0.notes == s.notes
    ensures forall other :: other != noteId ==> GetChatMessages(r.0, other) == GetChatMessages(s, other)
    ensures reply.Success? ==>
      var assistantMessage := ChatMessage(assistantMsgId, FromAssistant, reply.value);
      && r.1 == Success([userMessage, assistantMessage])
      && GetChatMessages(r.0, noteId) == GetChatMessages(s, noteId) + [userMessage, assistantMessage]
    ensures reply.Failure? ==>
      && r.1 == Failure(reply.error)
      && GetChatMessages(r.0, noteId) == GetChatMessages(s, noteId) + [userMessage]
  {
    var s1 := AddChatMessage(s, noteId, userMessage).0;
    match reply
    case Failure(e) => (s1, Failure(e))
    case Success(text) =>
      var assistantMessage := ChatMessage(assistantMsgId, FromAssistant, text);
      var s2 := AddChatMessage(s1, noteId, assistantMessage).0;
      assert GetChatMessages(s2, noteId) == GetChatMessages(s, noteId) + [userMessage] + [assistantMessage];
      (s2, Success([userMessage, assistantMessage]))
  }

  /** Both ids of a chat send resolve. */
  predicate ChatTargetsExist(s: Store, noteId: string, userId: string) {
    GetUserById(s, userId).Some? && GetNoteById(s, noteId).Some?
  }

  /** `sendChatMessageAction`. A blank message returns `[]` untouched; a
      missing user or note fails before anything is written; otherwise the
      user message is appended BEFORE the model is asked, so a failing
      answer leaves that message in the log. `answer(question, content)`
      stands for the hosted model. */
  function SendChatMessageAction(
    s: Store, noteId: string, userId: string, message: string,
    userMsgId: string, assistantMsgId: string,
    answer: (string, string) -> Result<string, string>): (r: (Store, Result<seq<ChatMessage>, string>))
    ensures IsBlank(message) ==> r == (s, Success([]))
    ensures !IsBlank(message) && !ChatTargetsExist(s, noteId, userId) ==> r == (s, Failure(NotFoundMessage))
    ensures !IsBlank(message) && ChatTargetsExist(s, noteId, userId) ==>
      var reply := answer(message, GetNoteById(s, noteId).value.content);
      var userMessage := ChatMessage(userMsgId, FromUser, message);
      && r.0.users == s.users && r.0.notes == s.notes
      && (forall other :: other != noteId ==> GetChatMessages(r.0, other) == GetChatMessages(s, other))
      && (reply.Success? ==>
            var assistantMessage := ChatMessage(assistantMsgId, FromAssistant, reply.value);
            r.1 == Success([userMessage, assistantMessage])
            && GetChatMessages(r.0, noteId) == GetChatMessages(s, noteId) + [userMessage, assistantMessage])
      && (reply.Failure? ==>
            r.1 == Failure(reply.error)
            && GetChatMessages(r.0, noteId) == GetChatMessages(s, noteId) + [userMessage])
  {
    TrimEmptyIffBlank(message);
    if Trim(message) == "" then
      (s, Success([]))
    else
      var user := GetUserById(s, userId);
      var note := GetNoteById(s, noteId);
      if user.None? || note.None? then
        (s, Failure(NotFoundMessage))
      else
        var userMessage := ChatMessage(userMsgId, FromUser, message);
        RecordExchange(s, noteId, userMessage, answer(message, note.value.content), assistantMsgId)
  }

  /** The reply of a chat send is `[]`, a pair, or an error; it is `[]`
      exactly for a blank message. */
  lemma ChatReplyShape(
    s: Store, noteId: string, userId: string, message: string,
    userMsgId: string, assistantMsgId: string,
    answer: (string, string) -> Result<string, string>)
    ensures var reply := SendChatMessageAction(s, noteId, userId, message, userMsgId, assistantMsgId, answer).1;
      && (reply == Success([]) <==> IsBlank(message))
      && (reply.Success? && reply.value != [] ==>
            |reply.value| == 2 && reply.value[0].role == FromUser && reply.value[1].role == FromAssistant
            && reply.value[0].content == message)
  {
  }

  datatype ProfileForm = ProfileForm(name: string, subject: string)

  /** The user a successful profile update stores: new name, new subject
      unless the submitted one is empty (`subject || user.subject`). */
  function ProfileUpdated(user: User, form: ProfileForm): (u: User)
    ensures u.id == user.id && u.email == user.email && u.role == user.role && u.avatarUrl == user.avatarUrl
    ensures u.name == form.name
    ensures form.subject == "" ==> u.subject == user.subject
    ensures form.subject != "" ==> u.subject == Some(form.subject)
  {
    user.(name := form.name, subject := if form.subject != "" then Some(form.subject) else user.subject)
  }

  /** `updateTeacherProfileAction`. */
  function UpdateTeacherProfileAction(s: Store, userId: string, form: ProfileForm): (r: (Store, ActionReply))
    ensures !ActsAsTeacher(s, userId) ==> r == (s, Reply(UnauthorizedMessage, None))
    ensures ActsAsTeacher(s, userId) && |form.name| < 2 ==>
      r == (s, Reply(ProfileInvalidMessage, Some(map["name" := ["Name must be at least 2 characters."]])))
    ensures ActsAsTeacher(s, userId) && |form.name| >= 2 ==>
      var k := FindIndex(s.users, UserKey, userId).value;
      && r.1 == Reply(ProfileUpdatedMessage, None)
      && r.0.users == s.users[k := ProfileUpdated(s.users[k], form)]
      && r.0.notes == s.notes && r.0.chats == s.chats
  {
    var user := GetUserById(s, userId);
    if user.None? || user.value.role != Teacher then
      (s, Reply(UnauthorizedMessage, None))
    else
      var errs := FieldEntry("name", MinLength(form.name, 2, "Name must be at least 2 characters."));
      if errs != map[] then
        (s, Reply(ProfileInvalidMessage, Some(errs)))
      else
        var updated := ProfileUpdated(user.value, form);
        assert FindIndex(s.users, UserKey, UserKey(updated)) == FindIndex(s.users, UserKey, userId);
        (UpdateUser(s, updated).0, Reply(ProfileUpdatedMessage, None))
  }
}
