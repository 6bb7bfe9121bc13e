/** The older record helpers (lib/firestore.ts). They issue the same queries as
    the course module's services and share their writers (`Enrolments.
    CreateEnrolment`, `Catalog.CreateCourse`, `Catalog.UpdateCourse`), but map a
    document as `{ id: docSnap.id, ...data }`: a stored `id` field overrides the
    document id. */
module LegacyFirestore {
  import opened Shared
  import opened Models
  import opened Sorting
  import opened DocStore
  import opened Enrolments
  import opened Catalog
  import CourseServices

  /** `getPublishedCourses()`: every published course and nothing else, in
      ascending title order, each under its stored `id` if it has one. */
  function GetPublishedCourses(courses: seq<Doc<CourseFields>>): (r: seq<Entity<CourseFields>>)
    ensures forall i :: 0 <= i < |r| ==> r[i].fields.status == Published
    ensures forall i :: 0 <= i < |r| ==> exists j :: 0 <= j < |courses| && r[i] == ReadWithStoredId(courses[j])
    ensures forall j :: 0 <= j < |courses| && IsPublished(courses[j].fields) ==> ReadWithStoredId(courses[j]) in r
    ensures forall i, j :: 0 <= i < j < |r| ==> StringLeq(r[i].fields.title, r[j].fields.title)
    ensures multiset(r) == multiset(SelectWithStoredId(courses, IsPublished))
    ensures |r| == |Where(courses, IsPublished)|
  {
    var s := SelectWithStoredId(courses, IsPublished);
    var r := SortByTitle(s);
    PermutedSelection(courses, s, r, IsPublished, ReadWithStoredId);
    assert |r| == |s| by {
      assert |multiset(r)| == |multiset(s)|;
    }
    r
  }

  /** `getCourseById(courseId)`: null exactly when there is no such course;
      otherwise its fields, under the stored `id` when the document has one. */
  function GetCourseById(courses: seq<Doc<CourseFields>>, courseId: string): (r: Option<Entity<CourseFields>>)
    ensures r.None? <==> !HasId(courses, courseId)
    ensures r.Some? ==> exists j :: 0 <= j < |courses| && courses[j].docId == courseId && r.value == ReadWithStoredId(courses[j])
  {
    match Find(courses, courseId)
    case None => None
    case Some(d) => Some(ReadWithStoredId(d))
  }

  function GetModulesForCourse(modules: map<string, seq<Doc<ModuleFields>>>, courseId: string): (r: seq<Entity<ModuleFields>>)
    ensures multiset(r) == multiset(ReadAllWithStoredId(Collection(modules, courseId)))
    ensures forall i, j :: 0 <= i < j < |r| ==> r[i].fields.order <= r[j].fields.order
  {
    SortModules(ReadAllWithStoredId(Collection(modules, courseId)))
  }

  function GetLessonsForCourseModule(lessons: map<(string, string), seq<Doc<LessonFields>>>,
                                     courseId: string, moduleId: string): (r: seq<Entity<LessonFields>>)
    ensures multiset(r) == multiset(ReadAllWithStoredId(Collection(lessons, (courseId, moduleId))))
    ensures forall i, j :: 0 <= i < j < |r| ==> r[i].fields.order <= r[j].fields.order
  {
    SortLessons(ReadAllWithStoredId(Collection(lessons, (courseId, moduleId))))
  }

  /** `getUserEnrolments(userId)`: `[]` for an empty id, otherwise exactly the
      learner's enrolments. */
  function GetUserEnrolments(enrolments: seq<Doc<EnrolmentFields>>, userId: string): (r: seq<Entity<EnrolmentFields>>)
    ensures userId == "" ==> r == []
    ensures forall i :: 0 <= i < |r| ==> r[i].fields.userId == userId
    ensures forall i :: 0 <= i < |r| ==> exists j :: 0 <= j < |enrolments| && r[i] == ReadWithStoredId(enrolments[j])
    ensures userId != "" ==>
      forall j :: 0 <= j < |enrolments| && enrolments[j].fields.userId == userId ==> ReadWithStoredId(enrolments[j]) in r
    ensures userId != "" ==> |r| == |Where(enrolments, (f: EnrolmentFields) => f.userId == userId)|
    ensures userId != "" ==>
      multiset(r) == multiset(SelectWithStoredId(enrolments, (f: EnrolmentFields) => f.userId == userId))
  {
    if userId == "" then [] else SelectWithStoredId(enrolments, (f: EnrolmentFields) => f.userId == userId)
  }

  /** `getEnrolmentForUserAndCourse(userId, courseId)`: null exactly when no
      enrolment matches both ids; otherwise one that does. */
  function GetEnrolmentForUserAndCourse(enrolments: seq<Doc<EnrolmentFields>>, userId: string, courseId: string)
    : (r: Option<Entity<EnrolmentFields>>)
    ensures r.None? <==> !IsEnrolled(enrolments, userId, courseId)
    ensures r.Some? ==> ForPair(r.value.fields, userId, courseId)
    ensures r.Some? ==> exists j :: 0 <= j < |enrolments| && r.value == ReadWithStoredId(enrolments[j])
  {
    PairCountPositive(enrolments, userId, courseId);
    var matches := PairDocs(enrolments, userId, courseId);
    if |matches| == 0 then None
    else
      assert matches[0] in enrolments;
      Some(ReadWithStoredId(matches[0]))
  }

  /** No document stores an `id` field other than its own document id. */
  predicate NoForeignIds<T>(docs: seq<Doc<T>>) {
    forall i :: 0 <= i < |docs| ==> docs[i].storedId.None? || docs[i].storedId.value == docs[i].docId
  }

  lemma ReadAllAgree<T>(docs: seq<Doc<T>>)
    requires NoForeignIds(docs)
    ensures ReadAllWithStoredId(docs) == ReadAllWithDocId(docs)
  {
    forall i | 0 <= i < |docs| ensures ReadWithStoredId(docs[i]) == ReadWithDocId(docs[i]) {
      ReadersAgree(docs[i]);
    }
  }

  lemma WhereKeepsNoForeignIds<T>(docs: seq<Doc<T>>, p: T -> bool)
    requires NoForeignIds(docs)
    ensures NoForeignIds(Where(docs, p))
  {
    var w := Where(docs, p);
    forall i | 0 <= i < |w| ensures w[i].storedId.None? || w[i].storedId.value == w[i].docId {
      assert w[i] in docs;
    }
  }

  /** On documents without a foreign `id` field, which is every document the
      application's own writers create, the two service files return the same
      records. */
  lemma ServicesAgreeWithoutForeignIds(courses: seq<Doc<CourseFields>>, enrolments: seq<Doc<EnrolmentFields>>,
                                       userId: string, courseId: string)
    requires NoForeignIds(courses) && NoForeignIds(enrolments)
    ensures GetPublishedCourses(courses) == CourseServices.GetPublishedCourses(courses)
    ensures GetCourseById(courses, courseId) == CourseServices.GetCourseById(courses, courseId)
    ensures GetUserEnrolments(enrolments, userId) == CourseServices.GetUserEnrolments(enrolments, userId)
    ensures GetEnrolmentForUserAndCourse(enrolments, userId, courseId)
         == CourseServices.GetEnrolmentForUserAndCourse(enrolments, userId, courseId)
  {
    WhereKeepsNoForeignIds(courses, IsPublished);
    ReadAllAgree(Where(courses, IsPublished));
    var p := (f: EnrolmentFields) => f.userId == userId;
    WhereKeepsNoForeignIds(enrolments, p);
    ReadAllAgree(Where(enrolments, p));
    var pair := (f: EnrolmentFields) => ForPair(f, userId, courseId);
    WhereKeepsNoForeignIds(enrolments, pair);
    var m := PairDocs(enrolments, userId, courseId);
    if |m| > 0 {
      ReadersAgree(m[0]);
    }
    match Find(courses, courseId)
    case None =>
    case Some(d) =>
      ReadersAgree(d);
  }

  /** An `updateCourse` patch carrying an `id` makes the two `getCourseById`
      implementations disagree: the course module still reports the requested
      id, this file reports the patched one. */
  lemma IdPatchSplitsReaders(courses: seq<Doc<CourseFields>>, courseId: string, patch: CoursePatch)
    requires UniqueIds(courses) && HasId(courses, courseId)
    requires patch.id.Some? && patch.id.value != courseId
    ensures HasId(UpdatedCourses(courses, courseId, patch).value, courseId)
    ensures var updated := UpdatedCourses(courses, courseId, patch).value;
      && CourseServices.GetCourseById(updated, courseId).value.id == courseId
      && GetCourseById(updated, courseId).value.id == patch.id.value
  {
    UpdatedCoursesEffect(courses, courseId, patch);
  }

  /** Every enrolment `createEnrolment` writes carries no `id` field, so both
      files read it back alike. */
  lemma EnrolKeepsNoForeignIds(docs: seq<Doc<EnrolmentFields>>, userId: string, courseId: string,
                               createdAt: string, updatedAt: string, newId: string)
    requires NoForeignIds(docs)
    ensures NoForeignIds(Enrol(docs, userId, courseId, createdAt, updatedAt, newId))
  {
  }
}
