/** Properties of the server's store across actions: what an upload leaves
    in it, and what a profile rename does to the notes' stored teacher
    names. The pages read their own copy of the seed data, not this store. */
module Scenarios {
  import opened Wrappers
  import opened Text
  import opened Types
  import opened Seqs
  import opened Data
  import opened Seed
  import opened Actions
  import StudentDashboard

  /** After a successful upload the server's store heads with the new note,
      on which the as-written student search is undefined for every term
      its title lacks. No page reads the server's store, so this stays
      latent: it bites only if the student dashboard is ever fed the notes
      the actions write. */
  lemma UploadLeavesUnsearchableNote(s: Store, userId: string, form: UploadForm, stamp: string, now: string, term: string)
    requires ActsAsTeacher(s, userId) && UploadValid(form)
    requires !Includes(ToLower(form.title), ToLower(term))
    ensures var notes := UploadNoteAction(s, userId, form, stamp, now).0.notes;
      && |notes| > 0 && !Processed(notes[0]) && notes[0].title == form.title
      && !StudentDashboard.SearchDefined(notes[0], ToLower(term))
  {
  }

  /** A teacher's profile rename does not reach the notes: renaming a
      teacher who owns a note, in a store where every note carries its
      owner's name, leaves that note with the old name. */
  lemma RenameLeavesTeacherNameStale(s: Store, userId: string, form: ProfileForm, k: nat)
    requires NotesOwnedByTeachers(s) && ActsAsTeacher(s, userId) && |form.name| >= 2
    requires k < |s.notes| && s.notes[k].teacherId == userId
    requires form.name != GetUserById(s, userId).value.name
    ensures !NotesOwnedByTeachers(UpdateTeacherProfileAction(s, userId, form).0)
  {
    var i := FindIndex(s.users, UserKey, userId).value;
    var updated := ProfileUpdated(s.users[i], form);
    FindAfterReplace(s.users, UserKey, updated);
    var s' := UpdateTeacherProfileAction(s, userId, form).0;
    assert s'.notes[k] == s.notes[k];
  }

  /** The seed instance: renaming user_1 leaves note_1 carrying the old
      name "Dr. Evelyn Reed". */
  lemma SeedRenameLeavesTeacherNameStale()
    ensures !NotesOwnedByTeachers(UpdateTeacherProfileAction(InitialStore, "user_1", ProfileForm("Evelyn Reed", "")).0)
  {
    SeedNotesOwned();
    SeedUserIdsDistinct();
    FindDistinct(MockUsers, UserKey, 0);
    assert InitialStore.notes[0].teacherId == "user_1";
    RenameLeavesTeacherNameStale(InitialStore, "user_1", ProfileForm("Evelyn Reed", ""), 0);
  }
}
