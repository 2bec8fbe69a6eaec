/** The three records of the application (`User`, `Note`, `ChatMessage`).
    Optional TypeScript fields are `Option`s. */
module Types {
  import opened Wrappers

  datatype Role = Student | Teacher

  datatype User = User(
    id: string,
    name: string,
    email: string,
    role: Role,
    avatarUrl: string,
    subject: Option<string>)   // teachers only

  /** A course note. `summary` and `keywords` are absent until AI processing
      fills them in; counters are plain numbers. */
  datatype Note = Note(
    id: string,
    title: string,
    subject: string,
    semester: string,
    teacherId: string,
    teacherName: string,
    content: string,
    summary: Option<string>,
    keywords: Option<seq<string>>,
    downloadCount: int,
    viewCount: int,
    createdAt: string)

  datatype Speaker = FromUser | FromAssistant

  datatype ChatMessage = ChatMessage(id: string, role: Speaker, content: string)

  /** Key projections, passed to the generic lookups by name so that every
      use denotes the same function value. */
  function UserKey(u: User): string { u.id }
  function NoteKey(n: Note): string { n.id }

  /** Summary and keywords are filled in, so the student search can read them. */
  predicate Processed(n: Note) {
    n.summary.Some? && n.keywords.Some?
  }
}
