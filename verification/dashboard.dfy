/** The student dashboard's selection logic: the case-insensitive search
    over title, summary, teacher name and keywords, the exact-match subject
    and semester filters, and the option lists of distinct subjects and
    semesters. */
module StudentDashboard {
  import opened Wrappers
  import opened Text
  import opened Types
  import opened Seqs

  /** The select value that disables a filter. */
  const All := "all"

  /** The lower-cased texts a search can hit: the title, the summary when
      present, the teacher name, and every keyword when present. */
  function SearchFields(n: Note): seq<string> {
    [ToLower(n.title)]
    + (if n.summary.Some? then [ToLower(n.summary.value)] else [])
    + [ToLower(n.teacherName)]
    + (if n.keywords.Some?
       then seq(|n.keywords.value|, k requires 0 <= k < |n.keywords.value| => ToLower(n.keywords.value[k]))
       else [])
  }

  /** A term occurs in some searchable text exactly when it occurs in the
      title, the present summary, the teacher name or a present keyword. */
  lemma SearchFieldsHit(n: Note, termLower: string)
    ensures (exists f :: f in SearchFields(n) && Includes(f, termLower)) <==>
      || Includes(ToLower(n.title), termLower)
      || (n.summary.Some? && Includes(ToLower(n.summary.value), termLower))
      || Includes(ToLower(n.teacherName), termLower)
      || (n.keywords.Some? && exists k :: 0 <= k < |n.keywords.value| && Includes(ToLower(n.keywords.value[k]), termLower))
  {
    var fields := SearchFields(n);
    var head := [ToLower(n.title)] + (if n.summary.Some? then [ToLower(n.summary.value)] else []) + [ToLower(n.teacherName)];
    var kw := if n.keywords.Some?
       then seq(|n.keywords.value|, k requires 0 <= k < |n.keywords.value| => ToLower(n.keywords.value[k]))
       else [];
    assert fields == head + kw;
    if exists f :: f in fields && Includes(f, termLower) {
      var f :| f in fields && Includes(f, termLower);
      if f !in head {
        assert f in kw;
        var k :| 0 <= k < |kw| && kw[k] == f;
        assert n.keywords.Some? && Includes(ToLower(n.keywords.value[k]), termLower);
      }
    }
    if Includes(ToLower(n.title), termLower) {
      assert fields[0] == ToLower(n.title);
    } else if n.summary.Some? && Includes(ToLower(n.summary.value), termLower) {
      assert fields[1] == ToLower(n.summary.value);
    } else if Includes(ToLower(n.teacherName), termLower) {
      assert head[|head| - 1] == ToLower(n.teacherName) && head[|head| - 1] in fields;
    } else if n.keywords.Some? && exists k :: 0 <= k < |n.keywords.value| && Includes(ToLower(n.keywords.value[k]), termLower) {
      var k :| 0 <= k < |n.keywords.value| && Includes(ToLower(n.keywords.value[k]), termLower);
      assert fields[|head| + k] == kw[k] == ToLower(n.keywords.value[k]);
    }
  }

  /** Evaluating the search expression on `n` never reads a property of an
      absent `summary` or `keywords`: `||` stops at the first hit, so the
      summary is read only when the title misses, and the keywords only when
      title, summary and teacher name all miss. When this fails the filter
      callback throws a TypeError. */
  function SearchDefined(n: Note, termLower: string): (r: bool)
    ensures Processed(n) ==> r
    ensures n.summary.None? ==> (r <==> Includes(ToLower(n.title), termLower))
    ensures n.summary.Some? && n.keywords.None? ==>
      (r <==> exists f :: f in SearchFields(n) && Includes(f, termLower))
  {
    SearchFieldsHit(n, termLower);
    || Includes(ToLower(n.title), termLower)
    || (n.summary.Some?
        && (|| Includes(ToLower(n.summary.value), termLower)
            || Includes(ToLower(n.teacherName), termLower)
            || n.keywords.Some?))
  }

  /** `matchesSearch`, evaluated left to right: the term occurs in one of the
      searchable texts. */
  function MatchesSearch(n: Note, termLower: string): (r: bool)
    requires SearchDefined(n, termLower)
    ensures r <==> exists f :: f in SearchFields(n) && Includes(f, termLower)
  {
    SearchFieldsHit(n, termLower);
    || Includes(ToLower(n.title), termLower)
    || Includes(ToLower(n.summary.value), termLower)
    || Includes(ToLower(n.teacherName), termLower)
    || exists k :: 0 <= k < |n.keywords.value| && Includes(ToLower(n.keywords.value[k]), termLower)
  }

  predicate MatchesSubject(n: Note, subject: string) {
    subject == All || n.subject == subject
  }

  predicate MatchesSemester(n: Note, semester: string) {
    semester == All || n.semester == semester
  }

  /** The filter callback. */
  predicate Keep(n: Note, searchTerm: string, subject: string, semester: string)
    requires SearchDefined(n, ToLower(searchTerm))
  {
    MatchesSearch(n, ToLower(searchTerm)) && MatchesSubject(n, subject) && MatchesSemester(n, semester)
  }

  /** `filteredNotes`, as written: defined only when no note makes the
      search expression dereference a missing field. */
  function FilteredNotes(notes: seq<Note>, searchTerm: string, subject: string, semester: string): (r: seq<Note>)
    requires forall n :: n in notes ==> SearchDefined(n, ToLower(searchTerm))
    ensures forall n :: n in r <==> n in notes && Keep(n, searchTerm, subject, semester)
    ensures IsSubsequence(r, notes)
    ensures forall x :: multiset(r)[x] == if x in notes && Keep(x, searchTerm, subject, semester) then multiset(notes)[x] else 0
    decreases |notes|
  {
    if |notes| == 0 then
      []
    else
      var rest := FilteredNotes(notes[1..], searchTerm, subject, semester);
      assert notes == [notes[0]] + notes[1..];
      if Keep(notes[0], searchTerm, subject, semester) then
        [notes[0]] + rest
      else
        assert |rest| > 0 ==> rest[0] != notes[0];
        rest
  }

  /** With an empty search term every note is searchable (every title
      includes ""), and with both filters at "all" the dashboard shows
      every note, in order. */
  lemma ShowAllWhenUnfiltered(notes: seq<Note>)
    ensures forall n :: n in notes ==> SearchDefined(n, ToLower(""))
    ensures FilteredNotes(notes, "", All, All) == notes
  {
    forall n | n in notes ensures SearchDefined(n, ToLower("")) {
      IncludesEmpty(ToLower(n.title));
    }
    ShowAllWhenUnfilteredFrom(notes);
  }

  lemma {:induction false} ShowAllWhenUnfilteredFrom(notes: seq<Note>)
    requires forall n :: n in notes ==> SearchDefined(n, ToLower(""))
    ensures FilteredNotes(notes, "", All, All) == notes
    decreases |notes|
  {
    if |notes| > 0 {
      IncludesEmpty(ToLower(notes[0].title));
      assert Keep(notes[0], "", All, All);
      ShowAllWhenUnfilteredFrom(notes[1..]);
      assert [notes[0]] + notes[1..] == notes;
    }
  }

  /** A note with neither summary nor keywords, as every uploaded note is,
      and a term its title lacks: the dashboard search throws on it. */
  lemma UploadedNoteBreaksSearch()
    ensures !SearchDefined(
      Note("note_1718000000000", "Thermodynamics", "Physics", "Fall 2024", "user_1", "Dr. Evelyn Reed",
           "", None, None, 0, 0, ""),
      ToLower("quantum"))
  {
    var title := ToLower("Thermodynamics");
    var t := ToLower("quantum");
    assert t[0] == 'q';
    assert 'q' !in title by {
      forall i | 0 <= i < |title| ensures title[i] != 'q' {
        assert title[i] == LowerChar("Thermodynamics"[i]);
      }
    }
    MissingFirstCharExcludes(title, t);
  }

  /** The search with optional chaining on the fields that may be absent
      (`note.summary?...`, `note.keywords?.some(...)`): an absent field
      simply does not match. */
  function MatchesSearchGuarded(n: Note, termLower: string): (r: bool)
    ensures r <==> exists f :: f in SearchFields(n) && Includes(f, termLower)
  {
    SearchFieldsHit(n, termLower);
    || Includes(ToLower(n.title), termLower)
    || (n.summary.Some? && Includes(ToLower(n.summary.value), termLower))
    || Includes(ToLower(n.teacherName), termLower)
    || (n.keywords.Some?
        && exists k :: 0 <= k < |n.keywords.value| && Includes(ToLower(n.keywords.value[k]), termLower))
  }

  predicate KeepGuarded(n: Note, searchTerm: string, subject: string, semester: string) {
    MatchesSearchGuarded(n, ToLower(searchTerm)) && MatchesSubject(n, subject) && MatchesSemester(n, semester)
  }

  /** The corrected `filteredNotes`: total, and it agrees with the as-written
      filter on every list the latter can handle. */
  function FilteredNotesGuarded(notes: seq<Note>, searchTerm: string, subject: string, semester: string): (r: seq<Note>)
    ensures forall j :: 0 <= j < |r| ==> r[j] in notes && KeepGuarded(r[j], searchTerm, subject, semester)
    ensures forall j :: 0 <= j < |notes| && KeepGuarded(notes[j], searchTerm, subject, semester) ==> notes[j] in r
    ensures IsSubsequence(r, notes)
    ensures forall x :: multiset(r)[x] == if KeepGuarded(x, searchTerm, subject, semester) then multiset(notes)[x] else 0
  {
    var keep := (n: Note) => KeepGuarded(n, searchTerm, subject, semester);
    FilterIsSubsequence(notes, keep);
    Filter(notes, keep)
  }

  /** Wherever the as-written filter is defined, the corrected one returns
      the same notes. */
  lemma GuardedAgreesWhereDefined(notes: seq<Note>, searchTerm: string, subject: string, semester: string)
    requires forall n :: n in notes ==> SearchDefined(n, ToLower(searchTerm))
    ensures FilteredNotesGuarded(notes, searchTerm, subject, semester)
         == FilteredNotes(notes, searchTerm, subject, semester)
  {
    GuardedAgrees(notes, searchTerm, subject, semester);
  }

  lemma {:induction false} GuardedAgrees(notes: seq<Note>, searchTerm: string, subject: string, semester: string)
    requires forall n :: n in notes ==> SearchDefined(n, ToLower(searchTerm))
    ensures Filter(notes, (n: Note) => KeepGuarded(n, searchTerm, subject, semester))
         == FilteredNotes(notes, searchTerm, subject, semester)
    decreases |notes|
  {
    if |notes| > 0 {
      var keep := (n: Note) => KeepGuarded(n, searchTerm, subject, semester);
      KeepGuardedAgrees(notes[0], searchTerm, subject, semester);
      GuardedAgrees(notes[1..], searchTerm, subject, semester);
      assert Filter(notes, keep) == if keep(notes[0]) then [notes[0]] + Filter(notes[1..], keep)
                                    else Filter(notes[1..], keep);
    }
  }

  /** On a note the as-written search can evaluate, the guarded callback
      gives the same answer. */
  lemma KeepGuardedAgrees(n: Note, searchTerm: string, subject: string, semester: string)
    requires SearchDefined(n, ToLower(searchTerm))
    ensures KeepGuarded(n, searchTerm, subject, semester) == Keep(n, searchTerm, subject, semester)
  {
  }

  function Subjects(notes: seq<Note>): (r: seq<string>)
    ensures |r| == |notes| && forall k :: 0 <= k < |notes| ==> r[k] == notes[k].subject
  {
    seq(|notes|, k requires 0 <= k < |notes| => notes[k].subject)
  }

  function Semesters(notes: seq<Note>): (r: seq<string>)
    ensures |r| == |notes| && forall k :: 0 <= k < |notes| ==> r[k] == notes[k].semester
  {
    seq(|notes|, k requires 0 <= k < |notes| => notes[k].semester)
  }

  /** `uniqueSubjects`: "all", then each subject once, in order of first
      occurrence. */
  method UniqueSubjects(notes: seq<Note>) returns (r: seq<string>)
    ensures |r| >= 1 && r[0] == All
    ensures r[1..] == FirstOccurrences(Subjects(notes))
    ensures NoDuplicates(r[1..])
    ensures forall s :: s in r[1..] <==> exists k :: 0 <= k < |notes| && notes[k].subject == s
  {
    var distinct := Unique(Subjects(notes));
    r := [All] + distinct;
    assert r[1..] == distinct;
  }

  /** `uniqueSemesters`, likewise. */
  method UniqueSemesters(notes: seq<Note>) returns (r: seq<string>)
    ensures |r| >= 1 && r[0] == All
    ensures r[1..] == FirstOccurrences(Semesters(notes))
    ensures NoDuplicates(r[1..])
    ensures forall s :: s in r[1..] <==> exists k :: 0 <= k < |notes| && notes[k].semester == s
  {
    var distinct := Unique(Semesters(notes));
    r := [All] + distinct;
    assert r[1..] == distinct;
  }
}
