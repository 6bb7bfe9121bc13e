/** Course-catalog queries and updates that both record-service files issue in
    the same way: the `status == 'published'` filter, the three `orderBy`
    orders (course title; module and lesson `order`), and the `updateDoc`
    merge behind `updateCourse`. The files differ only in how they map the
    resulting documents to records. */
module Catalog {
  import opened Shared
  import opened Models
  import opened Sorting
  import opened DocStore

  predicate IsPublished(c: CourseFields) {
    c.status == Published
  }

  /** `orderBy('title', 'asc')`. */
  predicate TitleLeq(a: Entity<CourseFields>, b: Entity<CourseFields>) {
    StringLeq(a.fields.title, b.fields.title)
  }

  /** `orderBy('order', 'asc')` on modules. */
  predicate ModuleOrderLeq(a: Entity<ModuleFields>, b: Entity<ModuleFields>) {
    a.fields.order <= b.fields.order
  }

  /** `orderBy('order', 'asc')` on lessons. */
  predicate LessonOrderLeq(a: Entity<LessonFields>, b: Entity<LessonFields>) {
    a.fields.order <= b.fields.order
  }

  lemma TitleLeqIsTotalPreorder()
    ensures IsTotalPreorder(TitleLeq)
  {
    forall a: Entity<CourseFields>, b: Entity<CourseFields> ensures TitleLeq(a, b) || TitleLeq(b, a) {
      StringLeqTotal(a.fields.title, b.fields.title);
    }
    forall a: Entity<CourseFields>, b: Entity<CourseFields>, c: Entity<CourseFields> | TitleLeq(a, b) && TitleLeq(b, c)
      ensures TitleLeq(a, c)
    {
      StringLeqTransitive(a.fields.title, b.fields.title, c.fields.title);
    }
  }

  lemma OrderLeqAreTotalPreorders()
    ensures IsTotalPreorder(ModuleOrderLeq)
    ensures IsTotalPreorder(LessonOrderLeq)
  {
  }

  /** The published courses, sorted by title: a permutation of the published
      records. */
  function SortByTitle(courses: seq<Entity<CourseFields>>): (r: seq<Entity<CourseFields>>)
    ensures multiset(r) == multiset(courses)
    ensures forall i, j :: 0 <= i < j < |r| ==> StringLeq(r[i].fields.title, r[j].fields.title)
  {
    TitleLeqIsTotalPreorder();
    var r := Sort(courses, TitleLeq);
    assert forall i, j :: 0 <= i < j < |r| ==> TitleLeq(r[i], r[j]);
    r
  }

  function SortModules(modules: seq<Entity<ModuleFields>>): (r: seq<Entity<ModuleFields>>)
    ensures multiset(r) == multiset(modules)
    ensures forall i, j :: 0 <= i < j < |r| ==> r[i].fields.order <= r[j].fields.order
  {
    OrderLeqAreTotalPreorders();
    var r := Sort(modules, ModuleOrderLeq);
    assert forall i, j :: 0 <= i < j < |r| ==> ModuleOrderLeq(r[i], r[j]);
    r
  }

  function SortLessons(lessons: seq<Entity<LessonFields>>): (r: seq<Entity<LessonFields>>)
    ensures multiset(r) == multiset(lessons)
    ensures forall i, j :: 0 <= i < j < |r| ==> r[i].fields.order <= r[j].fields.order
  {
    OrderLeqAreTotalPreorders();
    var r := Sort(lessons, LessonOrderLeq);
    assert forall i, j :: 0 <= i < j < |r| ==> LessonOrderLeq(r[i], r[j]);
    r
  }

  /** The course document after `updateDoc(doc(courses, id), patch)`: the
      patch's fields merged in, a patched `id` written as a stored field, the
      document id kept. */
  function PatchCourseDoc(d: Doc<CourseFields>, patch: CoursePatch): (r: Doc<CourseFields>)
    ensures r.docId == d.docId
    ensures r.storedId == (if patch.id.Some? then patch.id else d.storedId)
    ensures r.fields == PatchCourse(d.fields, patch)
  {
    Doc(d.docId, if patch.id.Some? then patch.id else d.storedId, PatchCourse(d.fields, patch))
  }

  /** The course collection after `updateCourse(courseId, patch)`, or None when
      `updateDoc` rejects because the course does not exist. */
  function UpdatedCourses(courses: seq<Doc<CourseFields>>, courseId: string, patch: CoursePatch): (r: Option<seq<Doc<CourseFields>>>)
    ensures r.None? <==> !HasId(courses, courseId)
  {
    match Find(courses, courseId)
    case None => None
    case Some(d) => Some(Put(courses, PatchCourseDoc(d, patch)))
  }

  /** `updateCourse` changes only the target course, and in it only the
      supplied fields; every other course reads as before. */
  lemma UpdatedCoursesEffect(courses: seq<Doc<CourseFields>>, courseId: string, patch: CoursePatch)
    requires UniqueIds(courses)
    requires HasId(courses, courseId)
    ensures var r := UpdatedCourses(courses, courseId, patch).value;
      && UniqueIds(r)
      && |r| == |courses|
      && Find(r, courseId) == Some(PatchCourseDoc(Find(courses, courseId).value, patch))
      && forall id :: id != courseId ==> Find(r, id) == Find(courses, id)
  {
    var d := Find(courses, courseId).value;
    var nd := PatchCourseDoc(d, patch);
    PutUnique(courses, nd);
    forall id ensures Find(Put(courses, nd), id) == if id == courseId then Some(nd) else Find(courses, id) {
      PutFind(courses, nd, id);
    }
  }

  /** `createCourse(payload)`: `addDoc` under the generated id `newId`, which it
      returns. */
  method CreateCourse(db: DocumentStore, payload: CourseFields, newId: string) returns (id: string)
    requires db.Valid() && !HasId(db.courses, newId)
    modifies db`courses
    ensures db.Valid()
    ensures id == newId
    ensures db.courses == old(db.courses) + [Doc(newId, None, payload)]
  {
    AddKeepsUniqueIds(db.courses, Doc(newId, None, payload));
    db.courses := db.courses + [Doc(newId, None, payload)];
    id := newId;
  }

  /** `updateCourse(courseId, patch)`: `updateDoc` merges the patch into the
      course, and rejects (here: `NotFound`) when there is no such course. */
  method UpdateCourse(db: DocumentStore, courseId: string, patch: CoursePatch) returns (res: WriteResult)
    requires db.Valid()
    modifies db`courses
    ensures db.Valid()
    ensures res == NotFound <==> !HasId(old(db.courses), courseId)
    ensures res == NotFound ==> db.courses == old(db.courses)
    ensures res == Written ==> db.courses == UpdatedCourses(old(db.courses), courseId, patch).value
  {
    match Find(db.courses, courseId)
    case None =>
      res := NotFound;
    case Some(d) =>
      PutUnique(db.courses, PatchCourseDoc(d, patch));
      db.courses := Put(db.courses, PatchCourseDoc(d, patch));
      res := Written;
  }

  /** A created course reads back under its new id with the given fields, and
      every other course is unaffected. */
  lemma CreatedCourseFound(courses: seq<Doc<CourseFields>>, payload: CourseFields, newId: string, id: string)
    requires !HasId(courses, newId)
    ensures Find(courses + [Doc(newId, None, payload)], id)
      == if id == newId then Some(Doc(newId, None, payload)) else Find(courses, id)
  {
    assert courses + [Doc(newId, None, payload)] == Put(courses, Doc(newId, None, payload));
    PutFind(courses, Doc(newId, None, payload), id);
  }
}
