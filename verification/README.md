# Course notes: a Dafny model of the store, server actions and selection logic

The course-notes application lets teachers upload lecture notes, lets students
browse and search them, and offers a per-note chat in which a hosted language
model answers questions about the note. This project models its stateful and
rule-bearing core as pure Dafny functions over immutable values:

- **Data** – the in-memory store: a note list (`addNote` prepends,
  `updateNote` replaces the first note with the same id), a user list updated
  by id, and a per-note chat log that only grows at its end.
- **Seed** – the seed users, notes and chat messages, and the referential
  invariant they satisfy.
- **Actions** – the three server actions: note upload (authorisation, form
  validation with per-field errors, the note it builds), chat send (blank
  check, lookup, user message, answer, assistant message) and the teacher
  profile update with its subject fallback.
- **StudentDashboard** – the case-insensitive search, the subject and
  semester filters, and the distinct subject and semester lists.
- **TeacherDashboard** – the owner filter and the skeleton / table / empty
  panel.
- **Auth** and **Registration** – the client-side login lookup order,
  registration and logout, the redirect guard, the e-mail check and the
  ordered validation chains of the two registration forms.
- **ChatClient** – the chat panel's message list around a call to the chat
  send action.
- **Header** – visibility, role-based navigation, the active link and the
  avatar initials.
- **Text**, **Seqs**, **Types**, **Wrappers** – the JavaScript string
  operations the code relies on (`trim`, `\s`, ASCII `toLowerCase`,
  `includes`, `split(' ')`), first-match search and filtering over sequences,
  the record types, and `Option`/`Result`.

Ids and timestamps that the code takes from `Date.now()` and
`new Date().toISOString()` are parameters. The hosted model's answer is a
parameter `answer: (question, content) -> Result<string, string>` that may
fail. Store operations return the new store; nothing is shared or aliased.

## Model

| member | source | states |
|---|---|---|
| Data.GetNoteById | src/lib/data.ts:116 | The result is the first note with that id, or none when no note has it; it is always defined. |
| Data.AddNote | src/lib/data.ts:117-120 | The note list becomes the argument followed by the old list, the argument is returned, users and chats are unchanged. |
| Data.AddNoteThenGet | src/lib/data.ts:116-120 | After adding a note, looking up its id yields that note, and every other id finds what it found before. |
| Data.UpdateNote | src/lib/data.ts:121-127 | With a matching id the first match is replaced and all other slots and the length stay; with none the list is unchanged; the argument is returned either way. |
| Data.UpdateNoteThenGet | src/lib/data.ts:116-127 | After an update of an existing id, looking that id up yields the new note; an update of an unknown id leaves the store as it was. |
| Data.GetChatMessages | src/lib/data.ts:129 | The stored log of the note, or the empty sequence when it has none. |
| Data.AddChatMessage | src/lib/data.ts:130-136 | The message is appended at the end of that note's log (created if missing); every other log, the notes and the users are unchanged. |
| Data.GetUserById | src/lib/data.ts:138 | The first user with that id, or none. |
| Data.UpdateUser | src/lib/data.ts:139-145 | The first user with the same id is replaced and every other slot kept; with no match the users are unchanged. |
| Data.UpdateUserThenGet | src/lib/data.ts:138-145 | After updating an existing user, the lookup by id returns the new record; an unknown id leaves the store as it was. |
| Seed.SeedUserIdsDistinct | src/lib/data.ts:3-41 | No two seed users share an id. |
| Seed.SeedNoteIdsDistinct | src/lib/data.ts:43-105 | No two seed notes share an id. |
| Seed.SeedNotesOwned | src/lib/data.ts:3-105 | Every seed note's teacher id names a seed user with role teacher whose name equals the note's teacher name. |
| Seed.SeedChatsOnSeedNotes | src/lib/data.ts:107-112 | Every seed chat log belongs to a seed note. |
| Seed.SeedInvariant | src/lib/data.ts:3-112 | The initial store has distinct user and note ids, owned notes, chats only on existing notes, and every seed note has a summary and keywords. |
| Actions.FileErrors | src/lib/actions.ts:21-25 | The file's errors hold "A file must be selected." iff the size is not positive, the size message iff it exceeds 5242880 bytes, and the PDF message iff the type is not `application/pdf`; none iff the file is acceptable; the messages that are present come in the order the refinements are declared, so the first shown is the first failing rule. |
| Actions.UploadFieldErrors | src/lib/actions.ts:17-26 | Each field has an entry iff its rule fails, and the map is empty iff the form is valid; the title, subject and semester entries are exactly their one minimum-length message and the file entry is the file's ordered error list, whose first element the upload form shows. |
| Actions.ExactLimitAccepted | src/lib/actions.ts:13-24 | A PDF of exactly 5242880 bytes passes the file rules, although the message says "less than 5MB". |
| Actions.UploadNoteAction | src/lib/actions.ts:28-78 | A missing or non-teacher user gets only "Unauthorized access." and an invalid form gets the field errors and the validation message, both with the store unchanged; otherwise exactly one note is prepended with zero counts, the user's id and name, the verbatim fields, the placeholder content naming the uploaded file, no summary or keywords, and the reply is the redirect. |
| Actions.UploadPreservesOwnership | src/lib/actions.ts:56-69 | An upload keeps the invariant that every note's teacher id and name match a teacher in the users. |
| Actions.RecordExchange | src/lib/actions.ts:91-103 | The note's log grows by the user message and then, only when the answer succeeds, the assistant message; a failing answer leaves the user message stored alone. |
| Actions.SendChatMessageAction | src/lib/actions.ts:81-104 | A blank message returns the empty list and touches nothing; an unknown user or note fails before any append; on success the log grows by exactly the returned user/assistant pair; a failing answer leaves only the user message appended, since the user message is written at line 92 before the model is asked at line 94, so the send is not all-or-nothing. |
| Actions.ChatReplyShape | src/lib/actions.ts:82-104 | The reply is the empty list exactly for a blank message; any other successful reply has exactly two messages, first the user's carrying the text, then the assistant's. |
| Actions.ProfileUpdated | src/lib/actions.ts:134-138 | Only the name changes and the subject becomes the submitted one unless it is empty, in which case the old subject stays; id, email, role and avatar are kept. |
| Actions.UpdateTeacherProfileAction | src/lib/actions.ts:113-149 | A non-teacher or a name shorter than two characters is rejected with the store unchanged; otherwise exactly that user's slot is replaced by the updated record and the success message returned. |
| StudentDashboard.SearchDefined | src/app/dashboard/page.tsx:34-39 | The short-circuit search never reads an absent field of a note with summary and keywords; on a note without summary it is defined exactly for the terms its lower-cased title contains; with a summary but no keywords, exactly for the terms some present text contains. |
| StudentDashboard.MatchesSearch | src/app/dashboard/page.tsx:34-39 | Where defined, a note matches iff the lower-cased term is a substring of its lower-cased title, summary, teacher name or some keyword. |
| StudentDashboard.SearchFieldsHit | src/app/dashboard/page.tsx:34-39 | A term occurs in one of the searchable texts exactly when it occurs in the title, the present summary, the teacher name or a present keyword. |
| StudentDashboard.FilteredNotes | src/app/dashboard/page.tsx:32-46 | Where every note's search is defined, a note is kept iff it matches the search, the subject and the semester; every kept note keeps all its occurrences and the rest none, and the result is an order-preserving subsequence of the input. |
| StudentDashboard.ShowAllWhenUnfiltered | src/app/dashboard/page.tsx:32-46 | With an empty term and both filters on "all", every note is shown, in order. |
| StudentDashboard.UploadedNoteBreaksSearch | src/app/dashboard/page.tsx:37-39 | Example of the general case stated by SearchDefined: the note "Thermodynamics", with neither summary nor keywords as every uploaded note is, cannot be searched for "quantum", because the search reaches the absent summary. |
| StudentDashboard.FilteredNotesGuarded | src/app/dashboard/page.tsx:32-46 | The corrected filter, total on all notes, keeps a note iff its present texts contain the term and both filters pass, with every occurrence of a kept note and none of the others, in input order. |
| StudentDashboard.MatchesSearchGuarded | src/app/dashboard/page.tsx:34-39 | The guarded search matches iff the term occurs in one of the note's present texts, on every note. |
| StudentDashboard.GuardedAgreesWhereDefined | src/app/dashboard/page.tsx:32-46 | Wherever the as-written filter is defined, the corrected filter returns the same list. |
| StudentDashboard.UniqueSubjects | src/app/dashboard/page.tsx:29 | The list is "all" followed by the distinct subjects in first-occurrence order, each appearing once. |
| StudentDashboard.UniqueSemesters | src/app/dashboard/page.tsx:30 | The list is "all" followed by the distinct semesters in first-occurrence order, each appearing once. |
| Seqs.Unique | src/app/dashboard/page.tsx:29-30 | Deduplication keeps the first occurrence of each element, in order, has no duplicates and loses no element. |
| Text.TrimEmptyIffBlank | src/lib/actions.ts:82 | Trimming yields the empty string exactly when every character is JavaScript whitespace. |
| Text.Includes | src/app/dashboard/page.tsx:36-39 | `includes` holds iff the needle occurs at some index of the haystack. |
| Text.JoinSplit | download/src/components/header.tsx:33 | Joining the parts of `split(' ')` with a space gives back the original string. |
| Auth.Login | src/context/auth-context.tsx:46-70 | The earliest registered account with the email decides (its password must match); without one the first seed user with that email logs in with any password; otherwise "Invalid email or password"; only the current user changes. |
| Auth.Register | src/context/auth-context.tsx:72-86 | Exactly one account is appended with the generated id replacing the supplied one, earlier accounts are kept, and the new user without password is logged in. |
| Auth.Logout | src/context/auth-context.tsx:88-92 | The current user is cleared and nothing else changes. |
| Auth.RegisterThenLogin | src/context/auth-context.tsx:46-86 | Registering a fresh email and logging in with its password yields the state registration produced. |
| Auth.DuplicateRegistrationShadowed | src/context/auth-context.tsx:48-78 | A second registration of an email is unreachable by login when its password differs from the first one's. |
| Auth.RegisteredShadowsMock | src/context/auth-context.tsx:48-67 | A registered account hides a seed user with the same email: a wrong password fails although seed users accept any password. |
| Auth.ShouldRedirect | src/context/auth-context.tsx:94-98 | The redirect to "/" fires iff the provider is settled, nobody is logged in, and the path is neither "/" nor "/register". |
| Auth.RedirectFollowsSession | src/context/auth-context.tsx:94-98 | Once settled and off the public pages, logout triggers the redirect and a login or registration stops it; "/" and "/register" never redirect. |
| Registration.ValidateEmail | src/app/register/page.tsx:37-40 | The regular-expression test holds iff the string has no whitespace, exactly one "@", a nonempty part before it, and a "." strictly inside the part after it. |
| Registration.EmailConditionsMatchPattern | src/app/register/page.tsx:37-40 | The four conditions hold iff the regular expression `^[^\s@]+@[^\s@]+\.[^\s@]+$` matches. |
| Registration.ConditionsImplyPattern | src/app/register/page.tsx:37-40 | A string meeting the four conditions matches the regular expression, split at its only "@" and an inner ".". |
| Registration.PatternImpliesConditions | src/app/register/page.tsx:37-40 | A string the regular expression matches has no whitespace, a single "@" with a nonempty part before it, and an inner "." in the domain. |
| Registration.TeacherChecks | src/app/register/page.tsx:90-107 | The teacher chain is the student chain with the subject check inserted after the e-mail format check. |
| Registration.StudentFormError | src/app/register/page.tsx:49-63 | The student form yields no message iff the name and email are not blank, the email is valid, the password has at least six characters and the confirmation equals it. |
| Registration.TeacherFormError | src/app/register/page.tsx:90-107 | The teacher form yields no message iff the student conditions hold for its fields and the subject is not blank. |
| Registration.StudentChainOrder | src/app/register/page.tsx:49-63 | The student page reports the first failing check of its chain: blank name, blank email, invalid email, short password, mismatched passwords; no message when all pass. |
| Registration.TeacherChainOrder | src/app/register/page.tsx:90-107 | The teacher page reports the first failing check of its chain: blank name, blank email, invalid email, blank subject, short password, mismatched passwords. |
| Registration.TeacherChainExtendsStudentChain | src/app/register/page.tsx:49-107 | With a subject filled in, the teacher form fails exactly as the same fields fail on the student form; with a blank subject and the first three checks passing, it reports the missing subject. |
| Registration.HandleStudentRegister | src/app/register/page.tsx:42-81 | On a failing check only the error is shown and no account is added; otherwise one student account with the raw name and email, no subject and the generated id is registered, logged in, the provider's loading flag is left as it was, and the route is /dashboard. |
| Registration.HandleTeacherRegister | src/app/register/page.tsx:83-126 | As for students, with role teacher, the entered subject, and the route /teacher/dashboard. |
| ChatClient.LoadMessages | download/src/components/chat.tsx:22-28 | On mount the list becomes the note's stored log, empty for a note without one; input and loading stay. |
| ChatClient.BeginSubmit | download/src/components/chat.tsx:43-46 | The client-built user message is appended, the input cleared, loading set. |
| ChatClient.FinishSubmit | download/src/components/chat.tsx:48-56 | Exactly one message is appended: the reply's second element, or the fixed apology on failure; loading ends. |
| ChatClient.SubmitView | download/src/components/chat.tsx:43-56 | Given any server reply, an accepted submit grows the list by exactly two: the client-built user message, then the reply's second element or the apology; the input is cleared and loading is off. |
| ChatClient.ClientGuardMatchesServer | download/src/components/chat.tsx:41-49 | For any input the client accepts, a successful server reply has two elements, so the destructuring never meets the empty reply. |
| ChatClient.HandleSubmit | download/src/components/chat.tsx:39-57 | A blank input or no user changes nothing; otherwise the list grows by exactly two (the user message, then the server's assistant message or the apology), the input is cleared, loading is off, and the store is the action's store. |
| ChatClient.ClientShowsStoredAnswer | download/src/components/chat.tsx:49-50 | After a successful exchange the last message shown is the assistant message stored last in the note's log. |
| TeacherDashboard.OwnedBy | download/src/app/teacher/dashboard/page.tsx:30-31 | The shown notes are exactly the given notes with that teacher id, each with all its occurrences, in their order. |
| TeacherDashboard.FetchTeacherNotes | download/src/app/teacher/dashboard/page.tsx:26-37 | Without a user nothing changes; with one the list becomes that user's notes and loading ends. |
| TeacherDashboard.PanelOf | download/src/app/teacher/dashboard/page.tsx:52-113 | The skeleton shows iff loading, the empty state iff not loading and no notes, and the table otherwise with the notes as rows. |
| TeacherDashboard.NoUserKeepsSkeleton | download/src/app/teacher/dashboard/page.tsx:24-28 | With no user the page stays on the skeleton. |
| TeacherDashboard.EmptyStateIffNoOwnedNote | download/src/app/teacher/dashboard/page.tsx:28-56 | After a fetch the empty state shows iff the user owns no note in the store. |
| Header.NavLinks | download/src/components/header.tsx:39-45 | Teachers get Dashboard, Upload Note and Profile in that order; students get only Dashboard. |
| Header.GetInitials | download/src/components/header.tsx:32-37 | For a multi-part name, the first-character text of the first and last parts, where an empty part contributes "undefined" (so nonempty parts give their first characters); for a name without spaces, its first character, and nothing for the empty name. |
| Header.TrailingSpaceInitials | download/src/components/header.tsx:32-37 | The name "Alex " yields "Aundefined". |
| Header.GetInitialsCorrected | download/src/components/header.tsx:32-37 | The corrected initials are the first letters of the first and last nonempty words (one letter for one word), at most two characters, each a non-space character of the name. |
| Header.CorrectedAgrees | download/src/components/header.tsx:32-37 | For a name with no empty part the as-written and corrected initials coincide. |
| Header.HomeHref | download/src/components/header.tsx:51 | The brand link goes to /teacher/dashboard for teachers and /dashboard otherwise, which is the role's first navigation link. |
| Header.RenderHeader | download/src/components/header.tsx:28-64 | Nothing renders iff loading, logged out, or on "/"; otherwise the role's links, each active iff its href is the pathname, the role's home link and the user's initials. |
| Header.ActiveLinkUnique | download/src/components/header.tsx:39-64 | At most one link is active and the home link is the first link. |
| Scenarios.UploadLeavesUnsearchableNote | src/lib/actions.ts:56-69 | After a valid upload the server's store heads with the new, unprocessed note, and the as-written student search is undefined on that note for any term its title lacks. |
| Scenarios.RenameLeavesTeacherNameStale | src/lib/actions.ts:134-140 | In any store where every note carries its owner's name, renaming a teacher who owns a note to a different name breaks that agreement: the update does not reach the notes. |
| Scenarios.SeedRenameLeavesTeacherNameStale | src/lib/actions.ts:134-140 | On the seed store, renaming user_1 to "Evelyn Reed" leaves note_1 with "Dr. Evelyn Reed". |

## Left out

- Hosted-model flows (`src/ai/flows/*`, `download/src/ai/dev.ts`): the answer is a parameter that may fail. `generateSummary` and `provideNoteKeywords` are imported at src/lib/actions.ts:6-7 but never called, so uploaded notes have no summary or keywords.
- `Date.now()` ids and `toISOString()` timestamps are parameters; the code does not make ids unique, so nothing claims that they are.
- localStorage persistence and JSON recovery in the auth provider, `revalidatePath`, `redirect` (modelled only as the redirect reply) and `router.push` (modelled only as the pushed route), and all promise plumbing; there is no real concurrency.
- The catch branches "An unexpected error occurred during note upload." and "Failed to update profile." are not modelled: the store operations never throw.
- Form entries that are not strings, a file entry that is not a `File`, a null subject, and zod's type errors: the pages always submit strings and a file.
- Lengths count characters, not UTF-16 code units, and `names[0][0]` takes a character; lower-casing covers ASCII letters only.
- Two copies of the store. `src/lib/data.ts` has no directive: the `'use server'` actions (src/lib/actions.ts:1) change the server's arrays, while every page that reads the store is `'use client'` and calls the getters on the browser's own copy, which only ever holds the seed data (src/app/dashboard/page.tsx:1,22; download/src/app/teacher/dashboard/page.tsx:1,30; download/src/components/chat.tsx:1,24). The model keeps one `Store` per side and does not connect them: the page functions take the notes or the store they read as an argument, the actions and `ChatClient.HandleSubmit` act on the server's store, and no lemma claims that a page shows what an action wrote.
- JavaScript array aliasing (getters hand out the live array) is replaced by value semantics; `getNotes` is the note list itself.
- UI pages: `src/app/layout.tsx`, `download/src/components/logo.tsx`, `download/src/app/teacher/upload/page.tsx`, `download/src/app/teacher/profile/page.tsx` and `src/app/notes/[noteId]/page.tsx`.
- `src/app/page.tsx` is not part of this model. Its line 18 calls `login(userToLogin)` with a whole user, while the provider's `login` takes an email and a password (src/context/auth-context.tsx:10).
- Seed.SeedChatsOnSeedNotes and the seed lemmas state the invariant of the initial store only; later operations may break it, for example a profile rename (see Scenarios.RenameLeavesTeacherNameStale).

## Findings

| source | as written | input that shows it | evidently intended | confidence | as-written member | corrected member |
|---|---|---|---|---|---|---|
| src/app/dashboard/page.tsx:37,39 | The search reads `note.summary.toLowerCase()` and `note.keywords.some(...)` without a guard | Any note without a summary in the page's store, with a search term its title lacks; none reaches it today, since the page's store holds only the processed seed notes and uploads land in the server's copy | Notes without summary or keywords are searched on the fields they have | medium (latent defect), not executed | StudentDashboard.FilteredNotes, StudentDashboard.UploadedNoteBreaksSearch | StudentDashboard.FilteredNotesGuarded, StudentDashboard.GuardedAgreesWhereDefined |
| download/src/components/header.tsx:32-37 | Initials take the first character of the first and last parts of `split(' ')`, which may be empty | The name "Alex " gives the initials "Aundefined" | Initials of the first and last nonempty words | medium, not executed | Header.GetInitials, Header.TrailingSpaceInitials | Header.GetInitialsCorrected, Header.CorrectedAgrees |
