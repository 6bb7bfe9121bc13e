/** The record services of the course module (app/modules/courses/services/
    firestore.ts). Readers are functions over the collections of a
    `DocumentStore`; every reader maps a document with its document id winning
    over any stored `id` field. Writers are methods on the store. Clock readings
    and generated document ids are parameters. */
module CourseServices {
  import opened Shared
  import opened Models
  import opened Sorting
  import opened DocStore
  import opened Enrolments
  import opened Catalog

  /** `getPublishedCourses()`: every published course and nothing else, each
      read with its document id, in ascending title order. */
  function GetPublishedCourses(courses: seq<Doc<CourseFields>>): (r: seq<Entity<CourseFields>>)
    ensures forall i :: 0 <= i < |r| ==> r[i].fields.status == Published
    ensures forall i :: 0 <= i < |r| ==> exists j :: 0 <= j < |courses| && r[i] == ReadWithDocId(courses[j])
    ensures forall j :: 0 <= j < |courses| && IsPublished(courses[j].fields) ==> ReadWithDocId(courses[j]) in r
    ensures forall i, j :: 0 <= i < j < |r| ==> StringLeq(r[i].fields.title, r[j].fields.title)
    ensures multiset(r) == multiset(SelectWithDocId(courses, IsPublished))
    ensures |r| == |Where(courses, IsPublished)|
  {
    var s := SelectWithDocId(courses, IsPublished);
    var r := SortByTitle(s);
    PermutedSelection(courses, s, r, IsPublished, ReadWithDocId);
    assert |r| == |s| by {
      assert |multiset(r)| == |multiset(s)|;
    }
    r
  }

  /** `getCourseById(courseId)`: null exactly when there is no such course;
      otherwise its fields under the requested id. */
  function GetCourseById(courses: seq<Doc<CourseFields>>, courseId: string): (r: Option<Entity<CourseFields>>)
    ensures r.None? <==> !HasId(courses, courseId)
    ensures r.Some? ==> r.value.id == courseId
    ensures r.Some? ==> exists j :: 0 <= j < |courses| && courses[j].docId == courseId && r.value.fields == courses[j].fields
  {
    match Find(courses, courseId)
    case None => None
    case Some(d) => Some(ReadWithDocId(d))
  }

  /** `getModulesForCourse(courseId)`: all modules of the course, in ascending
      `order`. */
  function GetModulesForCourse(modules: map<string, seq<Doc<ModuleFields>>>, courseId: string): (r: seq<Entity<ModuleFields>>)
    ensures multiset(r) == multiset(ReadAllWithDocId(Collection(modules, courseId)))
    ensures forall i, j :: 0 <= i < j < |r| ==> r[i].fields.order <= r[j].fields.order
  {
    SortModules(ReadAllWithDocId(Collection(modules, courseId)))
  }

  /** `getLessonsForCourseModule(courseId, moduleId)`: all lessons of the
      module, in ascending `order`. */
  function GetLessonsForCourseModule(lessons: map<(string, string), seq<Doc<LessonFields>>>,
                                     courseId: string, moduleId: string): (r: seq<Entity<LessonFields>>)
    ensures multiset(r) == multiset(ReadAllWithDocId(Collection(lessons, (courseId, moduleId))))
    ensures forall i, j :: 0 <= i < j < |r| ==> r[i].fields.order <= r[j].fields.order
  {
    SortLessons(ReadAllWithDocId(Collection(lessons, (courseId, moduleId))))
  }

  /** `getUserEnrolments(userId)`: `[]` for an empty id, otherwise exactly the
      learner's enrolments. */
  function GetUserEnrolments(enrolments: seq<Doc<EnrolmentFields>>, userId: string): (r: seq<Entity<EnrolmentFields>>)
    ensures userId == "" ==> r == []
    ensures forall i :: 0 <= i < |r| ==> r[i].fields.userId == userId
    ensures forall i :: 0 <= i < |r| ==> exists j :: 0 <= j < |enrolments| && r[i] == ReadWithDocId(enrolments[j])
    ensures userId != "" ==>
      forall j :: 0 <= j < |enrolments| && enrolments[j].fields.userId == userId ==> ReadWithDocId(enrolments[j]) in r
    ensures userId != "" ==> |r| == |Where(enrolments, (f: EnrolmentFields) => f.userId == userId)|
    ensures userId != "" ==>
      multiset(r) == multiset(SelectWithDocId(enrolments, (f: EnrolmentFields) => f.userId == userId))
  {
    if userId == "" then [] else SelectWithDocId(enrolments, (f: EnrolmentFields) => f.userId == userId)
  }

  /** `getEnrolmentForUserAndCourse(userId, courseId)`: null exactly when no
      enrolment matches both ids; otherwise one that does. */
  function GetEnrolmentForUserAndCourse(enrolments: seq<Doc<EnrolmentFields>>, userId: string, courseId: string)
    : (r: Option<Entity<EnrolmentFields>>)
    ensures r.None? <==> !IsEnrolled(enrolments, userId, courseId)
    ensures r.Some? ==> ForPair(r.value.fields, userId, courseId)
    ensures r.Some? ==> exists j :: 0 <= j < |enrolments| && r.value == ReadWithDocId(enrolments[j])
  {
    PairCountPositive(enrolments, userId, courseId);
    var matches := PairDocs(enrolments, userId, courseId);
    if |matches| == 0 then None
    else
      assert matches[0] in enrolments;
      Some(ReadWithDocId(matches[0]))
  }

  /** `getUserQuizAttemptsForQuiz(userId, quizId)`: `[]` for an empty id,
      otherwise exactly the learner's attempts at that quiz. */
  function GetUserQuizAttemptsForQuiz(attempts: seq<Doc<AttemptFields>>, userId: string, quizId: string)
    : (r: seq<Entity<AttemptFields>>)
    ensures userId == "" ==> r == []
    ensures forall i :: 0 <= i < |r| ==> r[i].fields.userId == userId && r[i].fields.quizId == quizId
    ensures forall i :: 0 <= i < |r| ==> exists j :: 0 <= j < |attempts| && r[i] == ReadWithDocId(attempts[j])
    ensures userId != "" ==>
      forall j :: 0 <= j < |attempts| && attempts[j].fields.userId == userId && attempts[j].fields.quizId == quizId
        ==> ReadWithDocId(attempts[j]) in r
    ensures userId != "" ==> |r| == |Where(attempts, (f: AttemptFields) => f.userId == userId && f.quizId == quizId)|
    ensures userId != "" ==>
      multiset(r) == multiset(SelectWithDocId(attempts, (f: AttemptFields) => f.userId == userId && f.quizId == quizId))
  {
    if userId == "" then []
    else SelectWithDocId(attempts, (f: AttemptFields) => f.userId == userId && f.quizId == quizId)
  }

  /** `getSubmissionsForAssignment(courseId, assignmentId)`: every submission
      stored under the assignment, in store order. There is no empty-id guard. */
  function GetSubmissionsForAssignment(submissions: map<(string, string), seq<Doc<SubmissionFields>>>,
                                       courseId: string, assignmentId: string): (r: seq<Entity<SubmissionFields>>)
    ensures |r| == |Collection(submissions, (courseId, assignmentId))|
    ensures forall i :: 0 <= i < |r| ==> r[i] == ReadWithDocId(Collection(submissions, (courseId, assignmentId))[i])
  {
    ReadAllWithDocId(Collection(submissions, (courseId, assignmentId)))
  }

  /** `getCertificatesForUser(userId)`: `[]` for an empty id, otherwise exactly
      the learner's certificates. */
  function GetCertificatesForUser(certificates: seq<Doc<CertificateFields>>, userId: string)
    : (r: seq<Entity<CertificateFields>>)
    ensures userId == "" ==> r == []
    ensures forall i :: 0 <= i < |r| ==> r[i].fields.userId == userId
    ensures forall i :: 0 <= i < |r| ==> exists j :: 0 <= j < |certificates| && r[i] == ReadWithDocId(certificates[j])
    ensures userId != "" ==>
      forall j :: 0 <= j < |certificates| && certificates[j].fields.userId == userId ==> ReadWithDocId(certificates[j]) in r
    ensures userId != "" ==> |r| == |Where(certificates, (f: CertificateFields) => f.userId == userId)|
    ensures userId != "" ==>
      multiset(r) == multiset(SelectWithDocId(certificates, (f: CertificateFields) => f.userId == userId))
  {
    if userId == "" then [] else SelectWithDocId(certificates, (f: CertificateFields) => f.userId == userId)
  }

  /** The pair lookup finds a record exactly for the courses the learner's
      enrolment listing shows. */
  lemma PairLookupAgreesWithListing(enrolments: seq<Doc<EnrolmentFields>>, userId: string, courseId: string)
    requires userId != ""
    ensures GetEnrolmentForUserAndCourse(enrolments, userId, courseId).Some?
        <==> exists i :: 0 <= i < |GetUserEnrolments(enrolments, userId)| &&
               GetUserEnrolments(enrolments, userId)[i].fields.courseId == courseId
  {
    var listing := GetUserEnrolments(enrolments, userId);
    ListingCoversPair(enrolments, listing, userId, courseId);
  }

  lemma ListingCoversPair(enrolments: seq<Doc<EnrolmentFields>>, listing: seq<Entity<EnrolmentFields>>,
                          userId: string, courseId: string)
    requires forall i :: 0 <= i < |listing| ==> listing[i].fields.userId == userId
    requires forall i :: 0 <= i < |listing| ==> exists j :: 0 <= j < |enrolments| && listing[i] == ReadWithDocId(enrolments[j])
    requires forall j :: 0 <= j < |enrolments| && enrolments[j].fields.userId == userId ==> ReadWithDocId(enrolments[j]) in listing
    ensures IsEnrolled(enrolments, userId, courseId) <==> exists i :: 0 <= i < |listing| && listing[i].fields.courseId == courseId
  {
    if IsEnrolled(enrolments, userId, courseId) {
      ListedWhenEnrolled(enrolments, listing, userId, courseId);
    }
    if exists i :: 0 <= i < |listing| && listing[i].fields.courseId == courseId {
      EnrolledWhenListed(enrolments, listing, userId, courseId);
    }
  }

  lemma ListedWhenEnrolled(enrolments: seq<Doc<EnrolmentFields>>, listing: seq<Entity<EnrolmentFields>>,
                           userId: string, courseId: string)
    requires forall j :: 0 <= j < |enrolments| && enrolments[j].fields.userId == userId ==> ReadWithDocId(enrolments[j]) in listing
    requires IsEnrolled(enrolments, userId, courseId)
    ensures exists i :: 0 <= i < |listing| && listing[i].fields.courseId == courseId
  {
    var j :| 0 <= j < |enrolments| && ForPair(enrolments[j].fields, userId, courseId);
    assert ReadWithDocId(enrolments[j]) in listing;
    var i :| 0 <= i < |listing| && listing[i] == ReadWithDocId(enrolments[j]);
    assert listing[i].fields.courseId == courseId;
  }

  lemma EnrolledWhenListed(enrolments: seq<Doc<EnrolmentFields>>, listing: seq<Entity<EnrolmentFields>>,
                           userId: string, courseId: string)
    requires forall i :: 0 <= i < |listing| ==> listing[i].fields.userId == userId
    requires forall i :: 0 <= i < |listing| ==> exists j :: 0 <= j < |enrolments| && listing[i] == ReadWithDocId(enrolments[j])
    requires exists i :: 0 <= i < |listing| && listing[i].fields.courseId == courseId
    ensures IsEnrolled(enrolments, userId, courseId)
  {
    var i :| 0 <= i < |listing| && listing[i].fields.courseId == courseId;
    var j :| 0 <= j < |enrolments| && listing[i] == ReadWithDocId(enrolments[j]);
    assert ForPair(enrolments[j].fields, userId, courseId);
  }

  // ---------------------------------------------------------------------
  // Quiz attempts

  /** The record `saveQuizAttempt(attempt)` writes: a non-empty supplied id is
      kept, an empty one replaced by the generated id; a supplied `createdAt` is
      kept, a missing one set to the clock reading `now`; every other field is
      the attempt's own. */
  function AttemptPayload(attempt: Entity<AttemptFields>, now: string, generatedId: string): (p: Entity<AttemptFields>)
    ensures attempt.id != "" ==> p.id == attempt.id
    ensures attempt.id == "" ==> p.id == generatedId
    ensures attempt.fields.createdAt.Some? ==> p.fields.createdAt == attempt.fields.createdAt
    ensures attempt.fields.createdAt.None? ==> p.fields.createdAt == Some(now)
    ensures p.fields == attempt.fields.(createdAt := p.fields.createdAt)
  {
    var f := attempt.fields;
    Entity(if attempt.id != "" then attempt.id else generatedId,
           f.(createdAt := Some(f.createdAt.GetOr(now))))
  }

  /** Saving a saved attempt again writes the same record: its id and creation
      time are kept, whatever the new clock reading and generated id. */
  lemma AttemptPayloadIdempotent(attempt: Entity<AttemptFields>, now: string, generatedId: string,
                                 now2: string, generatedId2: string)
    requires generatedId != ""
    ensures AttemptPayload(AttemptPayload(attempt, now, generatedId), now2, generatedId2)
         == AttemptPayload(attempt, now, generatedId)
  {
  }

  /** `saveQuizAttempt(attempt)`: `setDoc` under the payload's id, replacing
      any attempt with that id. `generatedId` is `doc(attemptsRef).id`. */
  method SaveQuizAttempt(db: DocumentStore, attempt: Entity<AttemptFields>, now: string, generatedId: string)
    requires db.Valid() && generatedId != ""
    modifies db`quizAttempts
    ensures db.Valid()
    ensures db.quizAttempts == Put(old(db.quizAttempts), StoreWithId(AttemptPayload(attempt, now, generatedId)))
  {
    var payload := AttemptPayload(attempt, now, generatedId);
    PutUnique(db.quizAttempts, StoreWithId(payload));
    db.quizAttempts := Put(db.quizAttempts, StoreWithId(payload));
  }

  /** After a save, the attempt reads back under the payload's id, with the
      payload's fields, by either mapper; other attempts read as before. */
  lemma SavedAttemptReadsBack(attempts: seq<Doc<AttemptFields>>, attempt: Entity<AttemptFields>,
                              now: string, generatedId: string, id: string)
    requires generatedId != ""
    ensures var p := AttemptPayload(attempt, now, generatedId);
      && p.id != ""
      && Find(Put(attempts, StoreWithId(p)), p.id) == Some(StoreWithId(p))
      && ReadWithDocId(StoreWithId(p)) == p && ReadWithStoredId(StoreWithId(p)) == p
      && (id != p.id ==> Find(Put(attempts, StoreWithId(p)), id) == Find(attempts, id))
  {
    var p := AttemptPayload(attempt, now, generatedId);
    PutFind(attempts, StoreWithId(p), p.id);
    PutFind(attempts, StoreWithId(p), id);
  }

  /** A saved attempt is listed among the learner's attempts at its quiz. */
  lemma SavedAttemptListed(attempts: seq<Doc<AttemptFields>>, attempt: Entity<AttemptFields>,
                           now: string, generatedId: string)
    requires generatedId != "" && attempt.fields.userId != ""
    ensures var p := AttemptPayload(attempt, now, generatedId);
      p in GetUserQuizAttemptsForQuiz(Put(attempts, StoreWithId(p)), attempt.fields.userId, attempt.fields.quizId)
  {
    var p := AttemptPayload(attempt, now, generatedId);
    var after := Put(attempts, StoreWithId(p));
    PutFind(attempts, StoreWithId(p), p.id);
    var j :| 0 <= j < |after| && after[j] == StoreWithId(p);
    assert ReadWithDocId(after[j]) == p;
  }

  // ---------------------------------------------------------------------
  // Assignment submissions

  /** The record `submitAssignmentSubmission(submission, file)` writes.
      `uploadedUrl` is the download URL of the uploaded file when a file is
      given; without one the submission's own `fileUrl` is kept. `createdNow`
      and `updatedNow` are the two clock readings: `createdAt` keeps a supplied
      value, `updatedAt` is always refreshed. */
  function SubmissionPayload(submission: Entity<SubmissionFields>, uploadedUrl: Option<string>,
                             createdNow: string, updatedNow: string, generatedId: string): (p: Entity<SubmissionFields>)
    ensures submission.id != "" ==> p.id == submission.id
    ensures submission.id == "" ==> p.id == generatedId
    ensures p.fields.fileUrl == (if uploadedUrl.Some? then uploadedUrl else submission.fields.fileUrl)
    ensures submission.fields.createdAt.Some? ==> p.fields.createdAt == submission.fields.createdAt
    ensures submission.fields.createdAt.None? ==> p.fields.createdAt == Some(createdNow)
    ensures p.fields.updatedAt == updatedNow
    ensures p.fields == submission.fields.(fileUrl := p.fields.fileUrl, createdAt := p.fields.createdAt,
                                           updatedAt := updatedNow)
  {
    var f := submission.fields;
    var fileUrl := if uploadedUrl.Some? then uploadedUrl else f.fileUrl;
    Entity(if submission.id != "" then submission.id else generatedId,
           f.(fileUrl := fileUrl, createdAt := Some(f.createdAt.GetOr(createdNow)), updatedAt := updatedNow))
  }

  /** Re-submitting a stored submission without a new file keeps its id, file
      and creation time and only refreshes `updatedAt`. */
  lemma ResubmitKeepsIdentity(submission: Entity<SubmissionFields>, uploadedUrl: Option<string>,
                              createdNow: string, updatedNow: string, generatedId: string,
                              createdNow2: string, updatedNow2: string, generatedId2: string)
    requires generatedId != ""
    ensures var p := SubmissionPayload(submission, uploadedUrl, createdNow, updatedNow, generatedId);
      SubmissionPayload(p, None, createdNow2, updatedNow2, generatedId2)
        == p.(fields := p.fields.(updatedAt := updatedNow2))
  {
  }

  /** The sub-collection key `courses/{courseId}/assignments/{assignmentId}`. */
  function SubmissionKey(f: SubmissionFields): (string, string) {
    (f.courseId, f.assignmentId)
  }

  /** `submitAssignmentSubmission`: `setDoc` into the assignment's submissions
      under the payload's id, replacing a submission with that id. */
  method SubmitAssignmentSubmission(db: DocumentStore, submission: Entity<SubmissionFields>, uploadedUrl: Option<string>,
                                    createdNow: string, updatedNow: string, generatedId: string)
    requires db.Valid() && generatedId != ""
    modifies db`submissions
    ensures db.Valid()
    ensures var key := SubmissionKey(submission.fields);
      db.submissions == old(db.submissions)[key := Put(Collection(old(db.submissions), key),
        StoreWithId(SubmissionPayload(submission, uploadedUrl, createdNow, updatedNow, generatedId)))]
  {
    var payload := SubmissionPayload(submission, uploadedUrl, createdNow, updatedNow, generatedId);
    var key := SubmissionKey(submission.fields);
    var current := Collection(db.submissions, key);
    PutUnique(current, StoreWithId(payload));
    db.submissions := db.submissions[key := Put(current, StoreWithId(payload))];
  }

  /** The submission after `gradeAssignmentSubmission`: grade and passed as
      supplied (the grade is not range-checked), feedback as supplied or `''`,
      status `graded`, `updatedAt` refreshed; everything else unchanged. */
  function GradedFields(f: SubmissionFields, grade: int, passed: bool, feedback: Option<string>, now: string)
    : (g: SubmissionFields)
    ensures g.grade == Some(grade) && g.passed == Some(passed)
    ensures g.feedback == Some(if feedback.Some? then feedback.value else "")
    ensures g.status == Graded && g.updatedAt == now
    ensures g.(grade := f.grade, passed := f.passed, feedback := f.feedback, status := f.status, updatedAt := f.updatedAt) == f
  {
    f.(grade := Some(grade), passed := Some(passed), feedback := Some(feedback.GetOr("")), status := Graded, updatedAt := now)
  }

  /** Grading twice is grading once with the second call's values: the last
      grade wins and nothing of the first remains. */
  lemma LastGradeWins(f: SubmissionFields, g1: int, p1: bool, fb1: Option<string>, now1: string,
                      g2: int, p2: bool, fb2: Option<string>, now2: string)
    ensures GradedFields(GradedFields(f, g1, p1, fb1, now1), g2, p2, fb2, now2) == GradedFields(f, g2, p2, fb2, now2)
  {
  }

  /** Grading keeps the submission's owner, target and content. */
  lemma GradingKeepsSubmission(f: SubmissionFields, grade: int, passed: bool, feedback: Option<string>, now: string)
    ensures var g := GradedFields(f, grade, passed, feedback, now);
      && SubmissionKey(g) == SubmissionKey(f) && g.userId == f.userId
      && g.fileUrl == f.fileUrl && g.textResponse == f.textResponse && g.createdAt == f.createdAt
  {
  }

  /** `gradeAssignmentSubmission(courseId, assignmentId, submissionId, ...)`:
      `updateDoc` on the submission, rejecting (`NotFound`) when it does not
      exist. */
  method GradeAssignmentSubmission(db: DocumentStore, courseId: string, assignmentId: string, submissionId: string,
                                   grade: int, passed: bool, feedback: Option<string>, now: string)
    returns (res: WriteResult)
    requires db.Valid()
    modifies db`submissions
    ensures db.Valid()
    ensures var current := Collection(old(db.submissions), (courseId, assignmentId));
      && (res == NotFound <==> !HasId(current, submissionId))
      && (res == NotFound ==> db.submissions == old(db.submissions))
      && (res == Written ==>
            var d := Find(current, submissionId).value;
            db.submissions == old(db.submissions)[(courseId, assignmentId) :=
              Put(current, d.(fields := GradedFields(d.fields, grade, passed, feedback, now)))])
  {
    var key := (courseId, assignmentId);
    var current := Collection(db.submissions, key);
    match Find(current, submissionId)
    case None =>
      res := NotFound;
    case Some(d) =>
      var graded := d.(fields := GradedFields(d.fields, grade, passed, feedback, now));
      PutUnique(current, graded);
      db.submissions := db.submissions[key := Put(current, graded)];
      res := Written;
  }

  /** After grading, the graded submission reads back with the graded fields
      and every other submission of the assignment reads as before. */
  lemma GradedSubmissionReadsBack(current: seq<Doc<SubmissionFields>>, submissionId: string,
                                  grade: int, passed: bool, feedback: Option<string>, now: string, id: string)
    requires HasId(current, submissionId)
    ensures var d := Find(current, submissionId).value;
      var graded := d.(fields := GradedFields(d.fields, grade, passed, feedback, now));
      && Find(Put(current, graded), submissionId) == Some(graded)
      && (id != submissionId ==> Find(Put(current, graded), id) == Find(current, id))
  {
    var d := Find(current, submissionId).value;
    var graded := d.(fields := GradedFields(d.fields, grade, passed, feedback, now));
    PutFind(current, graded, submissionId);
    PutFind(current, graded, id);
  }

  // ---------------------------------------------------------------------
  // Certificates

  /** `IBS-${courseId}-${userId}-${Date.now()}`, with the millisecond clock
      reading `nowMs`. */
  function CertificateNumber(courseId: string, userId: string, nowMs: nat): (n: string)
    ensures StartsWith(n, "IBS-")
  {
    "IBS-" + courseId + "-" + userId + "-" + NatToDecimal(nowMs)
  }

  /** Reads a certificate number back into course id, user id and timestamp,
      when it has exactly four hyphen-separated parts. */
  function ParseCertificateNumber(n: string): (r: Option<(string, string, nat)>)
    ensures r.Some? ==> '-' !in r.value.0 && '-' !in r.value.1
  {
    var parts := Split(n, '-');
    if |parts| == 4 && parts[0] == "IBS" && IsDecimal(parts[3])
    then Some((parts[1], parts[2], DecimalToNat(parts[3])))
    else None
  }

  /** The certificate number is the four parts joined with hyphens. */
  lemma CertificateNumberIsJoin(courseId: string, userId: string, nowMs: nat)
    ensures CertificateNumber(courseId, userId, nowMs) == Join(["IBS", courseId, userId, NatToDecimal(nowMs)], "-")
  {
    var parts := ["IBS", courseId, userId, NatToDecimal(nowMs)];
    assert parts[1..][1..] == [userId, NatToDecimal(nowMs)];
    assert parts[1..][1..][1..] == [NatToDecimal(nowMs)];
    assert Join(parts[1..][1..], "-") == userId + "-" + NatToDecimal(nowMs);
    assert Join(parts[1..], "-") == courseId + "-" + (userId + "-" + NatToDecimal(nowMs));
  }

  /** For hyphen-free ids the certificate number determines the course, the
      learner and the timestamp. */
  lemma CertificateNumberRoundTrip(courseId: string, userId: string, nowMs: nat)
    requires '-' !in courseId && '-' !in userId
    ensures ParseCertificateNumber(CertificateNumber(courseId, userId, nowMs)) == Some((courseId, userId, nowMs))
  {
    var parts := ["IBS", courseId, userId, NatToDecimal(nowMs)];
    assert '-' !in NatToDecimal(nowMs);
    CertificateNumberIsJoin(courseId, userId, nowMs);
    SplitJoin(parts, '-');
    DecimalRoundTrip(nowMs);
  }

  /** So certificates issued for different hyphen-free (course, learner) pairs
      never share a number. */
  lemma CertificateNumbersDistinguishPairs(c1: string, u1: string, t1: nat, c2: string, u2: string, t2: nat)
    requires '-' !in c1 && '-' !in u1 && '-' !in c2 && '-' !in u2
    requires (c1, u1) != (c2, u2)
    ensures CertificateNumber(c1, u1, t1) != CertificateNumber(c2, u2, t2)
  {
    CertificateNumberRoundTrip(c1, u1, t1);
    CertificateNumberRoundTrip(c2, u2, t2);
  }

  /** Certificates issued at different milliseconds never share a number,
      whatever the ids. */
  lemma CertificateNumbersDistinguishTimes(c1: string, u1: string, t1: nat, c2: string, u2: string, t2: nat)
    requires t1 != t2
    ensures CertificateNumber(c1, u1, t1) != CertificateNumber(c2, u2, t2)
  {
    if CertificateNumber(c1, u1, t1) == CertificateNumber(c2, u2, t2) {
      LastPartIsTimestamp(c1, u1, t1);
      LastPartIsTimestamp(c2, u2, t2);
      DecimalInjective(t1, t2);
    }
  }

  lemma LastPartIsTimestamp(courseId: string, userId: string, nowMs: nat)
    ensures var parts := Split(CertificateNumber(courseId, userId, nowMs), '-');
      parts[|parts| - 1] == NatToDecimal(nowMs)
  {
    var digits := NatToDecimal(nowMs);
    assert '-' !in digits;
    SplitNoSeparator(digits, '-');
    var front := "IBS-" + courseId + "-" + userId;
    assert CertificateNumber(courseId, userId, nowMs) == front + ['-'] + digits;
    SplitConcat(front, digits, '-');
  }

  /** With a hyphen inside an id, two different pairs issued in the same
      millisecond get the same number. */
  lemma CertificateNumberCollision(nowMs: nat)
    ensures CertificateNumber("a-b", "c", nowMs) == CertificateNumber("a", "b-c", nowMs)
  {
    assert "IBS-" + "a-b" + "-" + "c" == "IBS-" + "a" + "-" + "b-c";
  }

  /** The certificate `createCertificateRecord` stores. */
  function CertificatePayload(userId: string, courseId: string, issuedAt: string, nowMs: nat): (f: CertificateFields)
    ensures f.userId == userId && f.courseId == courseId && f.issuedAt == issuedAt
    ensures f.certificateNumber == CertificateNumber(courseId, userId, nowMs)
    ensures f.downloadUrl == ""
  {
    CertificateFields(userId, courseId, issuedAt, CertificateNumber(courseId, userId, nowMs), "")
  }

  /** `createCertificateRecord(userId, courseId)`: `addDoc` the payload under
      the generated id `newId` and return the payload with that id. */
  method CreateCertificateRecord(db: DocumentStore, userId: string, courseId: string,
                                 issuedAt: string, nowMs: nat, newId: string)
    returns (cert: Entity<CertificateFields>)
    requires db.Valid() && !HasId(db.certificates, newId)
    modifies db`certificates
    ensures db.Valid()
    ensures cert.id == newId && cert.fields == CertificatePayload(userId, courseId, issuedAt, nowMs)
    ensures db.certificates == old(db.certificates) + [Doc(newId, None, cert.fields)]
  {
    var payload := CertificatePayload(userId, courseId, issuedAt, nowMs);
    AddKeepsUniqueIds(db.certificates, Doc(newId, None, payload));
    db.certificates := db.certificates + [Doc(newId, None, payload)];
    cert := Entity(newId, payload);
  }

  /** The returned certificate is exactly what the learner's listing shows for
      the new document. */
  lemma IssuedCertificateListed(certificates: seq<Doc<CertificateFields>>, userId: string, courseId: string,
                                issuedAt: string, nowMs: nat, newId: string)
    requires userId != ""
    ensures Entity(newId, CertificatePayload(userId, courseId, issuedAt, nowMs))
      in GetCertificatesForUser(certificates + [Doc(newId, None, CertificatePayload(userId, courseId, issuedAt, nowMs))], userId)
  {
    var all := certificates + [Doc(newId, None, CertificatePayload(userId, courseId, issuedAt, nowMs))];
    assert all[|certificates|].fields.userId == userId;
  }
}
