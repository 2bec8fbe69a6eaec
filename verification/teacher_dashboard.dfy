/** The teacher dashboard: the notes of the logged-in teacher, in store
    order, and which of skeleton, table or empty state it shows. */
module TeacherDashboard {
  import opened Wrappers
  import opened Types
  import opened Seqs

  datatype TeacherView = TeacherView(notes: seq<Note>, loading: bool)

  const InitialTeacherView := TeacherView([], true)

  /** `allNotes.filter(note => note.teacherId === teacherId)`. */
  function OwnedBy(all: seq<Note>, teacherId: string): (r: seq<Note>)
    ensures forall j :: 0 <= j < |r| ==> r[j] in all && r[j].teacherId == teacherId
    ensures forall j :: 0 <= j < |all| && all[j].teacherId == teacherId ==> all[j] in r
    ensures IsSubsequence(r, all)
    ensures forall x :: multiset(r)[x] == if x.teacherId == teacherId then multiset(all)[x] else 0
  {
    var owned := (n: Note) => n.teacherId == teacherId;
    FilterIsSubsequence(all, owned);
    Filter(all, owned)
  }

  /** `fetchTeacherNotes`: nothing happens without a user; otherwise the
      user's notes replace the list and loading ends. */
  function FetchTeacherNotes(v: TeacherView, user: Option<User>, all: seq<Note>): (r: TeacherView)
    ensures user.None? ==> r == v
    ensures user.Some? ==> !r.loading && r.notes == OwnedBy(all, user.value.id)
  {
    match user
    case None => v
    case Some(u) => TeacherView(OwnedBy(all, u.id), false)
  }

  datatype Panel = Skeleton | NotesTable(rows: seq<Note>) | EmptyState

  /** The panel the page renders. */
  function PanelOf(v: TeacherView): (p: Panel)
    ensures p == Skeleton <==> v.loading
    ensures p == EmptyState <==> !v.loading && |v.notes| == 0
    ensures p.NotesTable? ==> p.rows == v.notes && |v.notes| > 0
  {
    if v.loading then Skeleton
    else if |v.notes| > 0 then NotesTable(v.notes)
    else EmptyState
  }

  /** Without a logged-in user the skeleton stays up. */
  lemma NoUserKeepsSkeleton(all: seq<Note>)
    ensures PanelOf(FetchTeacherNotes(InitialTeacherView, None, all)) == Skeleton
  {
  }

  /** After fetching for a user, the empty state shows exactly when the user
      owns no note in the store. */
  lemma EmptyStateIffNoOwnedNote(v: TeacherView, u: User, all: seq<Note>)
    ensures PanelOf(FetchTeacherNotes(v, Some(u), all)) == EmptyState
        <==> forall j :: 0 <= j < |all| ==> all[j].teacherId != u.id
  {
    var r := OwnedBy(all, u.id);
    if |r| > 0 {
      assert r[0] in all && r[0].teacherId == u.id;
    }
  }
}
