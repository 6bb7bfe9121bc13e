# IBS LMS core, modelled in Dafny

This project models the core of the IBS learning-management web application.

**Record services.** Two files hold the record services: the newer `app/modules/courses/services/firestore.ts` and the older `lib/firestore.ts`. They read and write courses, modules, lessons, enrolments, quiz attempts, assignment submissions and certificates in a hosted document database. Here that database is a sequential in-memory store: class `DocStore.DocumentStore`, with one field per collection.
- Each document keeps its document id, any `id` field written into its data, and its fields.
- The two files map a document to a record differently. The newer file lets the document id win (`DocStore.ReadWithDocId`); the older lets a stored `id` field win (`DocStore.ReadWithStoredId`).
- Queries (`where`, `orderBy`) are a filter and a stable insertion sort.
- `addDoc`, `setDoc` and `updateDoc` are an append, a replace-or-append, and a replace that fails on a missing document.
- The writers both files share are defined once: `Enrolments.CreateEnrolment`, `Catalog.CreateCourse` and `Catalog.UpdateCourse`.

**Course creation.** This part covers:
- the two zod course schemas (`services/validation.ts` and `lib/validation.ts`) and the login and registration schemas;
- the admin course form (`app/admin/page.tsx`). It builds a payload from the form fields, parses the comma-separated outcomes, and either shows an error or hands the parsed course to `createCourse`.

**User interface.** The UI logic modelled is:
- the accordion's open-item toggling;
- avatar initials;
- which navigation link is highlighted in the top bar and in the sidebar, the sidebar's width and collapse toggle, and its welcome line;
- when the page frame shows the sidebar, and its mobile sheet state;
- the `withAuth` and `withAdminAuth` guards, whose redirect and drawing decisions are returned values.

Clock reads, generated document ids, uploaded-file URLs and the email format check are parameters.

Where a source component keeps React state, that state is a class field with methods. Examples are the accordion's open list, the sidebar's `collapsed` flag, the frame's `sidebarOpen` flag and the admin page's error message. Everything computed from that state is a function.

## Model

| member | source | states |
|---|---|---|
| DocStore.ReadWithDocId | app/modules/courses/services/firestore.ts:45 | A record read in the course module carries the document id, whatever `id` the data stores. |
| DocStore.ReadWithStoredId | lib/firestore.ts:34 | A record read by the older helpers carries the stored `id` when there is one, else the document id. |
| DocStore.ReadersAgree | lib/firestore.ts:34 | The two mappers give the same record exactly when the document stores no `id` or its own id. |
| DocStore.ReadersDisagreeExample | lib/firestore.ts:25 | A document with a foreign stored `id` is reported under different ids by the two mappers. |
| DocStore.StoreWithId | app/modules/courses/services/firestore.ts:159-160 | A record written by `setDoc` under its own id (quiz attempts, and submissions at line 230) is stored under that id and reads back unchanged with either mapper. |
| DocStore.ReadAllWithDocId | app/modules/courses/services/firestore.ts:37 | Mapping a snapshot reads every document, in order. |
| DocStore.ReadAllWithStoredId | lib/firestore.ts:25 | The same, with the older mapper. |
| DocStore.SelectWithDocId | app/modules/courses/services/firestore.ts:72-75 | A `where` query followed by the mapper returns only records satisfying the filter, each read from some stored document. It includes every stored document that satisfies the filter, and it has one record per matching document. |
| DocStore.SelectWithStoredId | lib/firestore.ts:60-63 | The same, for the older mapper, with one record per matching document. |
| DocStore.SelectAppend | app/modules/courses/services/firestore.ts:72-75 | Selecting from a concatenation gives the selections of each part, in order, with either mapper. |
| DocStore.SelectSingle | app/modules/courses/services/firestore.ts:72-75 | A single document gives its record exactly when it matches the filter. With `SelectAppend` this fixes each selection exactly: each matching document once, in store order. |
| DocStore.ReadAllAppend | app/modules/courses/services/firestore.ts:37 | Mapping a concatenated snapshot maps each part, with either mapper. |
| DocStore.PermutedSelection | app/modules/courses/services/firestore.ts:35 | Reordering a query's result by `orderBy` keeps exactly the selected records. |
| DocStore.Where | app/modules/courses/services/firestore.ts:35 | `where` keeps exactly the documents satisfying the filter, and nothing else. |
| DocStore.WhereAppend | app/modules/courses/services/firestore.ts:112 | Filtering a collection that grew by an append is filtering each part. |
| DocStore.Find | app/modules/courses/services/firestore.ts:44-45 | `getDoc` finds nothing exactly when no document has the id; otherwise it returns the one document with it, when ids are unique. |
| DocStore.Put | app/modules/courses/services/firestore.ts:159-160 | `setDoc` under an existing id keeps the collection's size; under a new id it appends the document. |
| DocStore.PutMembers | app/modules/courses/services/firestore.ts:160 | After `setDoc`, each document is the written one or was there before. |
| DocStore.PutUnique | app/modules/courses/services/firestore.ts:160 | `setDoc` keeps document ids distinct. |
| DocStore.PutFind | app/modules/courses/services/firestore.ts:160 | After `setDoc`, the written id reads back the written document, and every other id reads what it read before. |
| DocStore.AddKeepsUniqueIds | app/modules/courses/services/firestore.ts:119 | `addDoc` with a fresh id keeps document ids distinct. |
| DocStore.DocumentStore.constructor | app/modules/courses/services/firestore.ts:28-29 | The store starts with every collection empty and every id distinct. |
| Sorting.Insert | app/modules/courses/services/firestore.ts:35 | Inserting adds exactly the one element. |
| Sorting.InsertSorted | app/modules/courses/services/firestore.ts:35 | Inserting into a sorted list under a total preorder keeps it sorted. |
| Sorting.Sort | app/modules/courses/services/firestore.ts:35 | `orderBy(field, 'asc')` returns a permutation of its input, sorted by the key. |
| Sorting.StringLeqTotal | app/modules/courses/services/firestore.ts:35 | The string order on titles is total. |
| Sorting.StringLeqTransitive | app/modules/courses/services/firestore.ts:35 | The string order on titles is transitive. |
| Sorting.PermutationMembers | app/modules/courses/services/firestore.ts:35 | Sorting keeps every member and adds none. |
| Catalog.TitleLeqIsTotalPreorder | app/modules/courses/services/firestore.ts:35 | Ordering courses by title is a total preorder, so the sort is well defined. |
| Catalog.OrderLeqAreTotalPreorders | app/modules/courses/services/firestore.ts:53 | Ordering modules and lessons by `order` is a total preorder. |
| Catalog.SortByTitle | app/modules/courses/services/firestore.ts:35 | The published courses are permuted into ascending title order. |
| Catalog.SortModules | app/modules/courses/services/firestore.ts:53 | Modules are permuted into ascending `order`. |
| Catalog.SortLessons | app/modules/courses/services/firestore.ts:63 | Lessons are permuted into ascending `order`. |
| Catalog.PatchCourseDoc | app/modules/courses/services/firestore.ts:127 | `updateDoc` keeps the document id, merges the patch into the fields, and writes a patched `id` into the data. |
| Catalog.UpdatedCourses | app/modules/courses/services/firestore.ts:127 | `updateDoc` fails exactly when the course does not exist. |
| Catalog.UpdatedCoursesEffect | app/modules/courses/services/firestore.ts:126-128 | `updateCourse` keeps the collection's size and ids and every other course, and in the target changes only what the patch names. |
| Catalog.CreateCourse | app/modules/courses/services/firestore.ts:118-121 | `createCourse` appends the payload under the generated id and returns that id. |
| Catalog.UpdateCourse | app/modules/courses/services/firestore.ts:126-128 | `updateCourse` rejects exactly a missing course and then changes nothing; otherwise the collection becomes the patched one. |
| Catalog.CreatedCourseFound | app/modules/courses/services/firestore.ts:118-121 | A created course reads back under its id with the given fields, and no other lookup changes. |
| Models.PatchCourse | app/modules/courses/services/firestore.ts:127 | Merging a `Partial<Course>` takes each present field from the patch and keeps the rest. |
| Models.PatchCourseLaws | app/modules/courses/services/firestore.ts:127 | An empty patch changes nothing, and a patch applied twice is applied once. |
| Models.ParseDifficulty | app/modules/courses/services/validation.ts:7 | The difficulty enum accepts exactly its three names, each naming its value. |
| Models.ParseStatus | app/modules/courses/services/validation.ts:11 | The status enum accepts exactly `draft` and `published`. |
| Models.EnumNamesRoundTrip | types/models.ts:16-20 | Every difficulty and status parses back from its stored name. |
| Enrolments.PairCountPositive | app/modules/courses/services/firestore.ts:81-94 | The pair query finds records exactly when some enrolment matches both ids. |
| Enrolments.NewEnrolment | app/modules/courses/services/firestore.ts:103-110 | A new enrolment is for the pair, is active, starts at 0 % progress, and carries both clock readings. |
| Enrolments.Enrol | app/modules/courses/services/firestore.ts:99-113 | The enrolment collection after `createEnrolment` keeps every old record in place and grows by one record exactly when the pair was not yet enrolled. |
| Enrolments.EnrolEffect | app/modules/courses/services/firestore.ts:99-113 | `createEnrolment` writes nothing when the pair is enrolled; otherwise it appends exactly the new enrolment. Either way the pair is enrolled afterwards. |
| Enrolments.EnrolCounts | app/modules/courses/services/firestore.ts:99-113 | After `createEnrolment` the pair has one record if it had none, and every other pair keeps its count. |
| Enrolments.TwoEnrolsLeaveOne | app/modules/courses/services/firestore.ts:100-101 | Two sequential `createEnrolment` calls for a new pair leave one record; the second changes nothing. |
| Enrolments.EnrolPreservesAtMostOne | app/modules/courses/services/firestore.ts:100-112 | Sequential `createEnrolment` calls preserve "at most one enrolment per (learner, course)". |
| Enrolments.EmptyUserCanBeEnrolled | app/modules/courses/services/firestore.ts:99 | `createEnrolment` has no empty-id guard: an empty user id gets enrolled. |
| Enrolments.CreateEnrolment | app/modules/courses/services/firestore.ts:99-113 | Shared by both record-service files: the enrolment collection becomes the de-duplicated enrol of the old one, and ids stay distinct. |
| CourseServices.GetPublishedCourses | app/modules/courses/services/firestore.ts:34-38 | Every published course and nothing else, each read from a stored document under its document id, in ascending title order. The result is a reordering of the published selection, with one record per published document. |
| CourseServices.GetCourseById | app/modules/courses/services/firestore.ts:43-46 | null exactly when no course has the id; otherwise that course's fields under the requested id. |
| CourseServices.GetModulesForCourse | app/modules/courses/services/firestore.ts:51-56 | A permutation of the course's modules, in ascending `order`. |
| CourseServices.GetLessonsForCourseModule | app/modules/courses/services/firestore.ts:61-66 | A permutation of the module's lessons, in ascending `order`. |
| CourseServices.GetUserEnrolments | app/modules/courses/services/firestore.ts:71-76 | `[]` for an empty id. Otherwise exactly the learner's enrolments, one record per matching document. |
| CourseServices.GetEnrolmentForUserAndCourse | app/modules/courses/services/firestore.ts:81-94 | null exactly when no enrolment matches both ids; otherwise a stored enrolment for the pair. |
| CourseServices.GetUserQuizAttemptsForQuiz | app/modules/courses/services/firestore.ts:166-175 | `[]` for an empty id. Otherwise exactly the learner's attempts at that quiz, one record per matching document. |
| CourseServices.GetSubmissionsForAssignment | app/modules/courses/services/firestore.ts:240-247 | Every submission of the assignment, in store order, under its document id. |
| CourseServices.GetCertificatesForUser | app/modules/courses/services/firestore.ts:295-301 | `[]` for an empty id. Otherwise exactly the learner's certificates, one record per matching document. |
| CourseServices.PairLookupAgreesWithListing | app/modules/courses/services/firestore.ts:71-94 | The pair lookup finds a record exactly when the learner's listing has an enrolment for the course. |
| CourseServices.AttemptPayload | app/modules/courses/services/firestore.ts:153-157 | A non-empty supplied id is kept and an empty one replaced; an absent `createdAt` is stamped; nothing else changes. |
| CourseServices.AttemptPayloadIdempotent | app/modules/courses/services/firestore.ts:153-157 | Saving a saved attempt again writes the same record, whatever the clock and generated id. |
| CourseServices.SaveQuizAttempt | app/modules/courses/services/firestore.ts:151-161 | `saveQuizAttempt` is a `setDoc` of the payload under its id, keeping ids distinct. |
| CourseServices.SavedAttemptReadsBack | app/modules/courses/services/firestore.ts:151-161 | After a save the attempt reads back under the payload's id with the payload's fields, and other ids are unaffected. |
| CourseServices.SavedAttemptListed | app/modules/courses/services/firestore.ts:151-175 | A saved attempt is listed by `getUserQuizAttemptsForQuiz` for its learner and quiz. |
| CourseServices.SubmissionPayload | app/modules/courses/services/firestore.ts:208-228 | An uploaded file's URL replaces `fileUrl`; the id and `createdAt` defaults follow the same rules as attempts; `updatedAt` is always stamped. |
| CourseServices.ResubmitKeepsIdentity | app/modules/courses/services/firestore.ts:222-228 | Resubmitting a stored submission without a new file keeps its id, file and creation time. |
| CourseServices.SubmitAssignmentSubmission | app/modules/courses/services/firestore.ts:203-235 | `setDoc` into the assignment's sub-collection; every other sub-collection is unchanged. |
| CourseServices.GradedFields | app/modules/courses/services/firestore.ts:265-271 | Grading sets grade, passed, feedback (`''` when absent), status `graded` and `updatedAt`, and keeps every other field. |
| CourseServices.LastGradeWins | app/modules/courses/services/firestore.ts:265-271 | Grading twice is grading once with the later values. |
| CourseServices.GradingKeepsSubmission | app/modules/courses/services/firestore.ts:265-271 | Grading keeps the submission's owner, target and content. |
| CourseServices.GradeAssignmentSubmission | app/modules/courses/services/firestore.ts:252-272 | It rejects exactly a missing submission and then changes nothing; otherwise only the target submission is regraded. |
| CourseServices.GradedSubmissionReadsBack | app/modules/courses/services/firestore.ts:252-272 | After grading, the submission reads back with the graded fields. |
| CourseServices.CertificateNumber | app/modules/courses/services/firestore.ts:279 | A certificate number starts with `IBS-`. |
| CourseServices.ParseCertificateNumber | app/modules/courses/services/firestore.ts:279 | Reading a number back yields hyphen-free course and user ids. |
| CourseServices.CertificateNumberIsJoin | app/modules/courses/services/firestore.ts:279 | The number is `IBS`, the course id, the user id and the decimal millisecond clock, joined by hyphens. |
| CourseServices.CertificateNumberRoundTrip | app/modules/courses/services/firestore.ts:279 | For hyphen-free ids, the number gives back the course id, the user id and the timestamp. |
| CourseServices.CertificateNumbersDistinguishPairs | app/modules/courses/services/firestore.ts:279 | Different hyphen-free (course, learner) pairs never share a number. |
| CourseServices.CertificateNumbersDistinguishTimes | app/modules/courses/services/firestore.ts:279 | Numbers issued at different milliseconds never coincide. |
| CourseServices.LastPartIsTimestamp | app/modules/courses/services/firestore.ts:279 | The last hyphen-separated part of a number is the timestamp, whatever the ids contain. |
| CourseServices.CertificateNumberCollision | app/modules/courses/services/firestore.ts:279 | With hyphens inside ids, two different pairs issued in the same millisecond share a number. |
| CourseServices.CertificatePayload | app/modules/courses/services/firestore.ts:280-286 | The stored certificate has the learner, course, issue time, number and an empty download URL. |
| CourseServices.CreateCertificateRecord | app/modules/courses/services/firestore.ts:277-290 | Appends the certificate under the generated id and returns it with that id. |
| CourseServices.IssuedCertificateListed | app/modules/courses/services/firestore.ts:277-301 | The returned certificate is what the learner's listing then shows for it. |
| LegacyFirestore.GetPublishedCourses | lib/firestore.ts:22-26 | Every published course and nothing else, in ascending title order, each under its stored `id` if any. The result is a reordering of the published selection, with one record per published document. |
| LegacyFirestore.GetCourseById | lib/firestore.ts:31-34 | null exactly when no course has the id; otherwise that document's record, under its stored `id` if any. |
| LegacyFirestore.GetModulesForCourse | lib/firestore.ts:39-44 | A permutation of the course's modules, in ascending `order`. |
| LegacyFirestore.GetLessonsForCourseModule | lib/firestore.ts:49-54 | A permutation of the module's lessons, in ascending `order`. |
| LegacyFirestore.GetUserEnrolments | lib/firestore.ts:59-64 | `[]` for an empty id. Otherwise exactly the learner's enrolments, one record per matching document. |
| LegacyFirestore.GetEnrolmentForUserAndCourse | lib/firestore.ts:69-82 | null exactly when no enrolment matches both ids; otherwise one that does. |
| LegacyFirestore.ReadAllAgree | lib/firestore.ts:25 | On documents without a foreign `id`, both mappers read a snapshot alike. |
| LegacyFirestore.WhereKeepsNoForeignIds | lib/firestore.ts:23 | Filtering keeps the absence of foreign ids. |
| LegacyFirestore.ServicesAgreeWithoutForeignIds | lib/firestore.ts:22-82 | Without foreign stored ids, both files return the same published courses, course, enrolments and pair lookup. |
| LegacyFirestore.IdPatchSplitsReaders | lib/firestore.ts:114-116 | After an `updateCourse` patch carrying an `id`, the newer `getCourseById` reports the requested id and the older one reports the patched id. |
| LegacyFirestore.EnrolKeepsNoForeignIds | lib/firestore.ts:87-101 | Enrolments the older file creates never carry a foreign id. |
| CourseValidation.ParseCourse | app/modules/courses/services/validation.ts:3-13 | Exactly the inputs meeting every length and enum rule parse. A parsed course is valid, keeps the input's values, and defaults `outcomes` to `[]` and `thumbnailUrl` to `''`. |
| CourseValidation.ParseCompleteInput | app/modules/courses/services/validation.ts:3-13 | For an input carrying every key, the acceptance rule is the conjunction of the field rules. |
| CourseValidation.ToInput | app/modules/courses/services/validation.ts:3-13 | A course written back as schema input keeps every value: the text fields, outcomes, thumbnail URL and author unchanged, and difficulty and status as names that parse back to them. |
| CourseValidation.ValidCourseRoundTrip | app/modules/courses/services/validation.ts:3-13 | Every valid course passes the schema unchanged. |
| CourseValidation.ParseCourseIdempotent | app/modules/courses/services/validation.ts:3-13 | Parsing a parsed course gives it back. |
| CourseValidation.CreatedByRequired | app/modules/courses/services/validation.ts:12 | An absent or empty `createdBy` is always rejected. |
| CourseValidation.LengthBoundsSharp | app/modules/courses/services/validation.ts:4-8 | The minimum lengths are exact: one character fewer is rejected and the minimum accepted. |
| LegacyValidation.ParseLogin | lib/validation.ts:3-6 | Login accepts exactly a well-formed email with a password of at least six characters. |
| LegacyValidation.ParseRegister | lib/validation.ts:8-12 | Registration accepts exactly a name of at least two characters plus valid login credentials. |
| LegacyValidation.RegisterIsLoginPlusName | lib/validation.ts:8-12 | Registration accepts exactly what login accepts plus a long enough name, with the same credentials. |
| LegacyValidation.ShortPasswordRejected | lib/validation.ts:5 | A password shorter than six characters is rejected. |
| LegacyValidation.ParseCourseDraft | lib/validation.ts:14-22 | The older course schema accepts exactly the inputs meeting its length and enum rules, defaulting `outcomes` to `[]`. |
| LegacyValidation.CourseSchemasAgree | lib/validation.ts:14-22 | The newer schema accepts exactly what the older accepts plus a non-empty `createdBy`, and both parse the shared fields alike. |
| LegacyValidation.DraftIgnoresUndeclaredKeys | lib/validation.ts:14-22 | `createdBy` and `thumbnailUrl` do not affect the older schema. |
| CourseOutcomes.TrimAll | app/modules/courses/app/admin/page.tsx:43 | Trims every piece. |
| CourseOutcomes.DropEmpty | app/modules/courses/app/admin/page.tsx:44 | Only non-empty pieces taken from the input are kept, and every non-empty piece is kept; order and multiplicity are fixed by `DropEmptyAppend` and `DropEmptySingle`. |
| CourseOutcomes.DropEmptyAppend | app/modules/courses/app/admin/page.tsx:44 | `filter` keeps order: filtering a concatenation gives the filtered parts, in order. |
| CourseOutcomes.DropEmptySingle | app/modules/courses/app/admin/page.tsx:44 | A single piece is kept exactly when it is non-empty. |
| CourseOutcomes.ParseOutcomes | app/modules/courses/app/admin/page.tsx:41-44 | Every parsed outcome is non-empty, trimmed and comma-free. |
| CourseOutcomes.ParseOutcomesOfItem | app/modules/courses/app/admin/page.tsx:41-44 | Comma-free text gives its trimmed self as the one outcome, or nothing when it is blank. |
| CourseOutcomes.ParseOutcomesAppend | app/modules/courses/app/admin/page.tsx:41-44 | The text before the first comma gives its outcomes, followed by those of the text after the comma. With `ParseOutcomesOfItem` this fixes the outcomes of every text, such as `" a ,b"`. |
| CourseOutcomes.TrimmedPiecesCommaFree | app/modules/courses/app/admin/page.tsx:42-43 | Trimming the pieces of a comma split keeps them comma-free. |
| CourseOutcomes.TrimSkipsSpace | app/modules/courses/app/admin/page.tsx:43 | A leading space does not survive trimming. |
| CourseOutcomes.ParseOutcomesCons | app/modules/courses/app/admin/page.tsx:41-44 | A leading outcome followed by `", "` parses to that outcome followed by the rest. |
| CourseOutcomes.OutcomesRoundTrip | app/modules/courses/app/admin/page.tsx:41-44 | Outcomes written out as `a, b, c` parse back to the same list, when each is non-empty, trimmed and comma-free. |
| CourseOutcomes.ParseOutcomesIdempotent | app/modules/courses/app/admin/page.tsx:41-44 | Normalising the outcomes twice is normalising once. |
| AdminCourseForm.FormString | app/modules/courses/app/admin/page.tsx:36 | `String(formData.get(name))` is the value, or the text `null` for a missing field. |
| AdminCourseForm.OrDefault | app/modules/courses/app/admin/page.tsx:39 | A missing or empty value is replaced by the fallback. |
| AdminCourseForm.CreatedBy | app/modules/courses/app/admin/page.tsx:47 | The author is the user's id when present and non-empty, else `admin`; never empty. |
| AdminCourseForm.BuildCoursePayload | app/modules/courses/app/admin/page.tsx:35-48 | Each payload field comes from its form field with the stated defaults, the thumbnail is `''`, and the author is `CreatedBy`. |
| AdminCourseForm.PayloadAcceptedIff | app/modules/courses/app/admin/page.tsx:50 | The form's payload is accepted exactly when the typed fields meet the length rules and the difficulty and status are known; the author never causes a rejection. |
| AdminCourseForm.AcceptedPayloadContents | app/modules/courses/app/admin/page.tsx:35-50 | An accepted payload creates a course with thumbnail `''`, the computed author and the parsed outcomes, defaulting to `beginner` and `draft`. |
| AdminCourseForm.AdminCoursesPage.constructor | app/modules/courses/app/admin/page.tsx:32 | The page starts with no error message and no course created. |
| AdminCourseForm.AdminCoursesPage.HandleSubmit | app/modules/courses/app/admin/page.tsx:32-58 | A rejected payload shows the required-fields message and creates nothing. An accepted one clears the message and creates exactly the parsed course. Only schema-valid courses are ever created. |
| Accordion.InitialOpen | components/ui/accordion.tsx:28-30 | Exactly a non-empty `defaultOpen` starts open, so at most one item, without duplicates. |
| Accordion.Remove | components/ui/accordion.tsx:35 | Filtering removes exactly the toggled id and keeps the list duplicate-free. |
| Accordion.Toggle | components/ui/accordion.tsx:33-38 | With several items allowed, only the toggled id changes state and no duplicate appears. With one item allowed, at most `id` is open, and it is open exactly when it was not the first open item. |
| Accordion.IsOpen | components/ui/accordion.tsx:44 | An item is shown expanded exactly when its id occurs in the open list. |
| Accordion.RemoveAppended | components/ui/accordion.tsx:35 | Filtering out an id just appended gives back the list. |
| Accordion.ToggleTwiceMultiple | components/ui/accordion.tsx:35 | Toggling an item twice restores every item's open state, and the exact list when the item was closed. |
| Accordion.ToggleTwiceSingle | components/ui/accordion.tsx:37 | With one item allowed, toggling twice restores the item's open state. |
| Accordion.AccordionState.constructor | components/ui/accordion.tsx:28-30 | The state starts from the initial open list, and its invariant holds. |
| Accordion.AccordionState.ToggleItem | components/ui/accordion.tsx:32-39 | A click applies the toggle and keeps "no duplicates, at most one when only one is allowed". |
| Avatar.UpperAscii | components/ui/avatar.tsx:25 | Lower-case Latin letters become upper case; other characters are unchanged. |
| Avatar.FirstInitial | components/ui/avatar.tsx:25 | A part's initial is its upper-cased first character, or empty for an empty part. |
| Avatar.FirstInitials | components/ui/avatar.tsx:25 | Each part is mapped to its initial. |
| Avatar.Initials | components/ui/avatar.tsx:21-28 | An empty or absent name has no initials, and initials are at most two characters. |
| Avatar.InitialsOfParts | components/ui/avatar.tsx:23-27 | The initials are those of the first two space-separated parts. |
| Avatar.InitialsOfOneWord | components/ui/avatar.tsx:23-27 | A one-word name gives its upper-cased first letter. |
| Avatar.InitialsOfWords | components/ui/avatar.tsx:23-27 | Two or more words give the first letters of the first two; later words do not count. |
| Avatar.LeadingSpaces | components/ui/avatar.tsx:24-26 | An empty part contributes nothing: a leading space leaves only the first word's letter, and two leading spaces leave no initials. |
| Avatar.Render | components/ui/avatar.tsx:38-49 | The picture shows exactly when `src` is non-empty, with alt `alt ?? name ?? "Avatar"`. Otherwise the initials show when non-empty, and otherwise the icon. |
| Avatar.RenderFallbacks | components/ui/avatar.tsx:42-48 | With no picture and no name the icon shows; the alt text falls back only on absent values. |
| Header.IsActive | components/layout/header.tsx:34-40 | Nothing is active without a path; `/` only on `/` itself; any other link on every path beginning with it. |
| Header.ActiveNavItems | components/layout/header.tsx:24-27 | The highlighted links are exactly the menu items active for the path. |
| Header.AtMostOneActive | components/layout/header.tsx:24-40 | At most one top-bar link is highlighted, and `/coursesX` highlights Courses. |
| Header.ShowsAdminWorkspace | components/layout/header.tsx:129-135 | The Admin Workspace entry shows exactly for admin, instructor and superadmin. |
| Sidebar.IsAdmin | components/layout/sidebar.tsx:49 | Staff means a signed-in user whose role is not learner. |
| Sidebar.StaffRoles | components/layout/sidebar.tsx:22 | `adminRoles` holds every role except learner. |
| Sidebar.IsAdminMatchesHeader | components/layout/sidebar.tsx:49 | The sidebar and the top bar agree on who is staff. |
| Sidebar.NavSections | components/layout/sidebar.tsx:58-60 | The learner section is always first; the staff section follows exactly for staff. |
| Sidebar.ItemActiveAgreesWithHeader | components/layout/sidebar.tsx:108-110 | The sidebar's highlighting rule matches the top bar's, except on an empty path with an empty target. |
| Sidebar.PrefixesNest | components/layout/sidebar.tsx:110 | Two prefixes of a path are prefixes of each other. |
| Sidebar.TargetsPrefixFree | components/layout/sidebar.tsx:24-34 | No sidebar link target begins with another. |
| Sidebar.AtMostOneActive | components/layout/sidebar.tsx:106-110 | Whatever the path, at most one sidebar link is highlighted. |
| Sidebar.Width | components/layout/sidebar.tsx:56 | The panel is 92 wide exactly when a desktop panel is collapsed, 280 otherwise. |
| Sidebar.WelcomeFallbackUnused | components/layout/sidebar.tsx:84 | As written, the `Learner` fallback never applies: an empty name, or one starting with a space, greets with an empty name. |
| Sidebar.WelcomeNameAsWritten | components/layout/sidebar.tsx:84 | As written, the desktop greeting is always the first space-separated piece of the name, which may be empty. |
| Sidebar.WelcomeName | components/layout/sidebar.tsx:84 | The corrected greeting is never empty and has no space; it is the first word when there is one. |
| Sidebar.WelcomeNameCases | components/layout/sidebar.tsx:84 | The first word of a name is greeted; a name without one is greeted as `Learner`. |
| Sidebar.MarkActive | components/layout/sidebar.tsx:106-110 | Each section link is paired with whether it is highlighted. |
| Sidebar.MarkSections | components/layout/sidebar.tsx:99 | Every section is marked. |
| Sidebar.Render | components/layout/sidebar.tsx:66-204 | As written. Nothing is drawn without a user. Otherwise the panel has its width and its sections with their highlighting. The welcome line is the first piece of the name on an expanded desktop panel, none on a collapsed one, and the full name on mobile. The "Admin" badge shows for staff, except on a collapsed desktop panel. |
| Sidebar.RenderedGreetingCanBeEmpty | components/layout/sidebar.tsx:83-85 | As written, a name whose first piece is empty gets an empty greeting on the expanded desktop panel. |
| Sidebar.RenderCorrected | components/layout/sidebar.tsx:83-85 | Corrected: the same panel as written, except that the expanded desktop panel greets with the corrected `WelcomeName`. It equals the written panel whenever the name has a first word. |
| Sidebar.WelcomeNeverEmpty | components/layout/sidebar.tsx:83-85 | Corrected: the desktop greeting of the corrected panel is never empty. |
| Sidebar.SidebarState.constructor | components/layout/sidebar.tsx:48 | The panel starts expanded. |
| Sidebar.SidebarState.ToggleCollapsed | components/layout/sidebar.tsx:91 | The collapse button negates `collapsed`. |
| AppShell.StartsWithAny | components/layout/app-shell.tsx:22 | `some(startsWith)` holds exactly when the path begins with one of the segments. |
| AppShell.ShowSidebar | components/layout/app-shell.tsx:19-22 | The sidebar shows exactly for a signed-in user on a non-empty path beginning with a workspace segment. |
| AppShell.ShowSidebarCases | components/layout/app-shell.tsx:12-22 | The empty-path test is redundant, and matching is by prefix: `/administrator` and `/dashboards` qualify, `/courses` does not, and nothing does without a user. |
| AppShell.ShownSidebarRenders | components/layout/app-shell.tsx:28-56 | Wherever the frame shows the sidebar, both sidebar variants render. |
| AppShell.ShellState.constructor | components/layout/app-shell.tsx:17 | The mobile sheet starts closed. |
| AppShell.ShellState.OpenSidebar | components/layout/app-shell.tsx:26 | The top bar's menu button opens the sheet. |
| AppShell.ShellState.SetSidebarOpen | components/layout/app-shell.tsx:48 | The sheet's open-change handler sets its state. |
| AppShell.ShellState.NavigateMobile | components/layout/app-shell.tsx:53 | Following a link in the mobile sidebar closes the sheet. |
| AuthGuard.AuthRedirect | lib/auth.tsx:13-17 | `withAuth` sends a visitor to `/login` exactly when loading has finished without a user; lib/auth.ts:13-17 is identical. |
| AuthGuard.GuardRender | lib/auth.tsx:19-23 | The guarded page is drawn exactly when loading has finished with a user; otherwise the guard's placeholder is. |
| AuthGuard.AuthView | lib/auth.tsx:19-23 | `withAuth` draws the page exactly when loading has finished with a user, and shows "Loading your dashboard..." otherwise. |
| AuthGuard.AuthGuardConsistent | lib/auth.ts:13-23 | `withAuth` never draws the page for a visitor it sends away, and sends away every userless visitor once loading is over. |
| AuthGuard.AdminRedirectWithSet | lib/auth.tsx:31-41 | `withAdminAuth` sends a userless visitor to `/login` and a user whose role is not allowed to `/dashboard`, and otherwise sends nobody anywhere. |
| AuthGuard.Includes | lib/auth.ts:36 | `allowed.includes(role)` is list membership. |
| AuthGuard.AdminRedirectWithIncludes | lib/auth.ts:32-40 | The older `withAdminAuth` sends a userless visitor to `/login` and a user whose role is not listed to `/dashboard`, and otherwise sends nobody anywhere. |
| AuthGuard.AdminRedirectsAgree | lib/auth.ts:32-40 | The set-based and list-based admin guards send every visitor to the same place. |
| AuthGuard.AdminViewAsWritten | lib/auth.tsx:43-47 | As written, the admin page is drawn exactly when loading has finished with a user, whatever the role, so also for a user the guard sends to `/dashboard`. Otherwise "Checking permissions..." is shown. |
| AuthGuard.AdminView | lib/auth.tsx:43-47 | Corrected: the admin page is drawn exactly when loading has finished and the guard sends nobody away. |
| AuthGuard.AdminGuardConsistent | lib/auth.tsx:33-47 | The corrected guard never draws the page for a visitor it redirects, and draws like the written one for every allowed user. |
| AuthGuard.DefaultAllowedIsStaff | lib/auth.tsx:27 | With the default roles, the admin guard admits exactly the users the sidebar treats as staff. |
| AuthGuard.DisallowedUserStillDrawn | lib/auth.ts:42-46 | As written, a signed-in user without an allowed role is sent to `/dashboard` and yet the page is drawn; the corrected view shows the placeholder. |
| Shared.StartsWithSelf | components/layout/sidebar.tsx:109-110 | A string starts with itself. |
| Shared.Split | components/ui/avatar.tsx:24 | `split` on one character yields at least one piece, none containing the separator. |
| Shared.JoinSplit | app/modules/courses/app/admin/page.tsx:42 | Joining a split with its separator gives back the string. |
| Shared.SplitJoin | app/modules/courses/services/firestore.ts:279 | Splitting a join of separator-free pieces gives back the pieces. |
| Shared.SplitPrefix | app/modules/courses/app/admin/page.tsx:42 | A separator-free piece followed by the separator splits off as one piece. |
| Shared.SplitConcat | app/modules/courses/services/firestore.ts:279 | Splitting at one separator splits each side independently. |
| Shared.Trim | app/modules/courses/app/admin/page.tsx:43 | `trim` leaves no white space at either end, drops only white space, and gives "" only for all-white-space text. |
| Shared.TrimIsMiddleSlice | app/modules/courses/app/admin/page.tsx:43 | `trim` keeps exactly the middle of the text: a slice with only white space before it and after it. |
| Shared.TrimLeadingWhitespace | app/modules/courses/app/admin/page.tsx:43 | Trimming white space in front of a trimmed string gives the string. |
| Shared.NatToDecimal | app/modules/courses/services/firestore.ts:279 | The clock prints in decimal digits. |
| Shared.DecimalRoundTrip | app/modules/courses/services/firestore.ts:279 | The printed timestamp reads back as the timestamp. |
| Shared.DecimalInjective | app/modules/courses/services/firestore.ts:279 | Different timestamps print differently. |

## Left out

- The database SDK calls themselves (`addDoc`, `getDocs`, `setDoc`, `updateDoc`, `query`, `limit`) and the client initialisation are replaced by the sequential store above. Concurrency is not modelled. So the check-then-write race in `createEnrolment`, where two concurrent calls can both find no enrolment and both write one, is not captured; the model proves only sequential de-duplication.
- `submitAssignmentSubmission`'s file upload (`uploadBytes`, `getDownloadURL`) is replaced by the resulting URL, a parameter. The error logging in its `try`/`catch` is not modelled.
- Clock readings (`new Date().toISOString()`, `Date.now()`) and generated document ids are parameters. Generated ids are taken to be non-empty and, for `addDoc`, unused.
- The database's ordering of equal sort keys, and which of several matching documents `limit(1)` returns, are abstracted: equal keys keep store order, and the pair lookup returns the first match in store order. The same goes for unsorted listings such as `getSubmissionsForAssignment`, `getUserEnrolments` and `getCertificatesForUser`. The database returns their documents in document-id order, but the model returns them in the order they were written. Their contracts state which records are listed and how many, not their order.
- `getQuizzesForCourse`, `getQuizById`, `getAssignmentsForCourse` and `getAssignmentById` are left out: quiz and assignment record shapes are not defined in the modelled files, and each is the same query-then-map pattern as the modelled readers.
- The email format check of `z.string().email()` is a parameter (`isEmail`); its regular expression is not modelled.
- Avatar.UpperAscii: `toUpperCase` is modelled for the Latin letters a-z only; other characters are left as they are.
- Accordion.AccordionState: `allowMultiple` is fixed for the component's lifetime. In the source it is a prop read on every toggle. If it changes to single mode while several items are open, the "at most one open" half of the invariant does not hold of the component.
- String lengths and first characters count Dafny characters (code points). JavaScript counts UTF-16 code units: zod's `min(n)` counts them, and `part.charAt(0)` in the avatar initials returns one of them. They differ only outside the Basic Multilingual Plane. There, `Avatar.FirstInitial` gives the whole character where the source gives a lone surrogate, and lengths count such a character once instead of twice.
- JavaScript numbers (`order`, `grade`, `progressPercent`, the millisecond clock) are unbounded integers; floating-point behaviour is not modelled.
- Record fields hold the declared types only; values of other types reaching the database through casts are not modelled.
- An empty course id: `getCourseById("")` and `updateCourse("", …)` build `doc(courseCollection, "")` (app/modules/courses/services/firestore.ts:44 and 127, lib/firestore.ts:32 and 115). The SDK's reference constructor throws on an empty path, so the call rejects. The model answers as for a missing id: `None` from the readers and `NotFound` from the update.
- Document ids containing `/` (sub-collection paths) are not modelled; sub-collections are keyed by their parent ids.
- The database's rejection of `undefined` field values is not modelled.
- The admin form's `event.currentTarget.reset()` and its query-cache invalidation are not modelled. The created course is recorded in the page state instead of issuing the asynchronous mutation.
- The course edit page is not part of this model.
- `components/providers/auth-provider.tsx` (the authentication subscription) and `functions/src/index.ts` (a health check) are not part of this model. `components/ui/progress.tsx` is left out because it clamps a floating-point number.
- Presentation-only components (dialogs, sheets, tooltips, menus, tabs, buttons, cards, inputs and the like), layouts, theme tokens and the build configuration are not modelled.
- The guards' `router.replace` is modelled as the returned redirect target; navigation itself, and the `useRef` that fixes the allowed set at first render, are not modelled. `allowed` does not change between renders, so the `useRef` makes no difference.

## Findings

| source | as written | input that shows it | evidently intended | confidence | as-written member | corrected member |
|---|---|---|---|---|---|---|
| components/layout/sidebar.tsx:84 | `user.name.split(" ")[0] ?? "Learner"`: `split` always returns at least one piece, so the fallback never applies | a user whose name is `""` or `" Ada"` is greeted "Welcome, " with no name | greet "Learner" when the name has no first word | medium, not executed | Sidebar.RenderedGreetingCanBeEmpty | Sidebar.RenderCorrected |
| lib/auth.tsx:43-47 | `withAdminAuth` draws the guarded page whenever loading is over and a user exists, without checking the role (lib/auth.ts:42-46 likewise) | a signed-in learner under the default roles: redirected to `/dashboard`, yet the admin page renders until navigation completes | keep the placeholder for every user whose role is not allowed | medium, not executed | AuthGuard.DisallowedUserStillDrawn | AuthGuard.AdminView |
