/** The enrolment de-duplication rule that both record-service files follow:
    look up an enrolment for the (userId, courseId) pair and add a fresh
    `active`, 0%-progress enrolment only when there is none. Sequential model:
    the check-then-insert race between concurrent callers is not represented. */
module Enrolments {
  import opened Shared
  import opened Models
  import opened DocStore

  predicate ForPair(f: EnrolmentFields, userId: string, courseId: string) {
    f.userId == userId && f.courseId == courseId
  }

  /** The documents enrolling `userId` in `courseId`, in store order. */
  function PairDocs(docs: seq<Doc<EnrolmentFields>>, userId: string, courseId: string): seq<Doc<EnrolmentFields>> {
    Where(docs, (f: EnrolmentFields) => ForPair(f, userId, courseId))
  }

  function PairCount(docs: seq<Doc<EnrolmentFields>>, userId: string, courseId: string): nat {
    |PairDocs(docs, userId, courseId)|
  }

  /** Some document enrols `userId` in `courseId`. */
  predicate IsEnrolled(docs: seq<Doc<EnrolmentFields>>, userId: string, courseId: string) {
    exists i :: 0 <= i < |docs| && ForPair(docs[i].fields, userId, courseId)
  }

  lemma PairCountPositive(docs: seq<Doc<EnrolmentFields>>, userId: string, courseId: string)
    ensures PairCount(docs, userId, courseId) > 0 <==> IsEnrolled(docs, userId, courseId)
  {
    var p := PairDocs(docs, userId, courseId);
    if IsEnrolled(docs, userId, courseId) {
      var i :| 0 <= i < |docs| && ForPair(docs[i].fields, userId, courseId);
      assert docs[i] in p;
    }
    if |p| > 0 {
      assert p[0] in docs;
    }
  }

  /** The enrolment `createEnrolment` writes for a first enrolment. */
  function NewEnrolment(userId: string, courseId: string, createdAt: string, updatedAt: string): (f: EnrolmentFields)
    ensures ForPair(f, userId, courseId)
    ensures f.status == Active && f.progressPercent == 0
    ensures f.createdAt == createdAt && f.updatedAt == updatedAt
  {
    EnrolmentFields(userId, courseId, Active, 0, createdAt, updatedAt)
  }

  /** The enrolment collection after `createEnrolment(userId, courseId)`:
      unchanged when the pair is enrolled, otherwise one new document at the end
      under the fresh id `newId`, with no `id` field in its data. */
  function Enrol(docs: seq<Doc<EnrolmentFields>>, userId: string, courseId: string,
                 createdAt: string, updatedAt: string, newId: string): (r: seq<Doc<EnrolmentFields>>)
    ensures docs <= r && |r| <= |docs| + 1
    ensures |r| == |docs| + 1 <==> !IsEnrolled(docs, userId, courseId)
  {
    if IsEnrolled(docs, userId, courseId) then docs
    else docs + [Doc(newId, None, NewEnrolment(userId, courseId, createdAt, updatedAt))]
  }

  /** An existing enrolment makes `Enrol` change nothing; otherwise it adds
      exactly one record, for the pair, at the end. */
  lemma EnrolEffect(docs: seq<Doc<EnrolmentFields>>, userId: string, courseId: string,
                    createdAt: string, updatedAt: string, newId: string)
    ensures IsEnrolled(docs, userId, courseId) ==> Enrol(docs, userId, courseId, createdAt, updatedAt, newId) == docs
    ensures !IsEnrolled(docs, userId, courseId) ==>
      var r := Enrol(docs, userId, courseId, createdAt, updatedAt, newId);
      && |r| == |docs| + 1 && r[..|docs|] == docs
      && r[|docs|].docId == newId && r[|docs|].storedId.None?
      && ForPair(r[|docs|].fields, userId, courseId)
      && r[|docs|].fields.status == Active && r[|docs|].fields.progressPercent == 0
    ensures IsEnrolled(Enrol(docs, userId, courseId, createdAt, updatedAt, newId), userId, courseId)
  {
    if !IsEnrolled(docs, userId, courseId) {
      var r := Enrol(docs, userId, courseId, createdAt, updatedAt, newId);
      assert ForPair(r[|docs|].fields, userId, courseId);
    }
  }

  /** After `Enrol` the pair has exactly one record if it had none, and as many
      as before otherwise; every other pair keeps its count. */
  lemma {:induction false} EnrolCounts(docs: seq<Doc<EnrolmentFields>>, userId: string, courseId: string,
                                       createdAt: string, updatedAt: string, newId: string,
                                       otherUser: string, otherCourse: string)
    ensures PairCount(Enrol(docs, userId, courseId, createdAt, updatedAt, newId), userId, courseId)
      == if PairCount(docs, userId, courseId) == 0 then 1 else PairCount(docs, userId, courseId)
    ensures (otherUser, otherCourse) != (userId, courseId) ==>
      PairCount(Enrol(docs, userId, courseId, createdAt, updatedAt, newId), otherUser, otherCourse)
        == PairCount(docs, otherUser, otherCourse)
  {
    PairCountPositive(docs, userId, courseId);
    if !IsEnrolled(docs, userId, courseId) {
      var d := Doc(newId, None, NewEnrolment(userId, courseId, createdAt, updatedAt));
      WhereAppend(docs, [d], (f: EnrolmentFields) => ForPair(f, userId, courseId));
      WhereAppend(docs, [d], (f: EnrolmentFields) => ForPair(f, otherUser, otherCourse));
    }
  }

  /** Two sequential `createEnrolment` calls for a pair with no enrolment leave
      exactly one enrolment record for it. */
  lemma {:induction false} TwoEnrolsLeaveOne(docs: seq<Doc<EnrolmentFields>>, userId: string, courseId: string,
                                             c1: string, u1: string, id1: string,
                                             c2: string, u2: string, id2: string)
    requires !IsEnrolled(docs, userId, courseId)
    ensures PairCount(Enrol(Enrol(docs, userId, courseId, c1, u1, id1), userId, courseId, c2, u2, id2), userId, courseId) == 1
    ensures Enrol(Enrol(docs, userId, courseId, c1, u1, id1), userId, courseId, c2, u2, id2)
         == Enrol(docs, userId, courseId, c1, u1, id1)
  {
    PairCountPositive(docs, userId, courseId);
    EnrolCounts(docs, userId, courseId, c1, u1, id1, userId, courseId);
    EnrolEffect(docs, userId, courseId, c1, u1, id1);
    var once := Enrol(docs, userId, courseId, c1, u1, id1);
    EnrolEffect(once, userId, courseId, c2, u2, id2);
  }

  /** At most one enrolment per pair: the uniqueness the de-duplication aims for. */
  ghost predicate AtMostOnePerPair(docs: seq<Doc<EnrolmentFields>>) {
    forall i, j :: 0 <= i < j < |docs| ==>
      !(docs[i].fields.userId == docs[j].fields.userId && docs[i].fields.courseId == docs[j].fields.courseId)
  }

  /** Sequential `createEnrolment` calls preserve at-most-one-per-pair. */
  lemma EnrolPreservesAtMostOne(docs: seq<Doc<EnrolmentFields>>, userId: string, courseId: string,
                                createdAt: string, updatedAt: string, newId: string)
    requires AtMostOnePerPair(docs)
    ensures AtMostOnePerPair(Enrol(docs, userId, courseId, createdAt, updatedAt, newId))
  {
    if !IsEnrolled(docs, userId, courseId) {
      var r := Enrol(docs, userId, courseId, createdAt, updatedAt, newId);
      forall i, j | 0 <= i < j < |r|
        ensures !(r[i].fields.userId == r[j].fields.userId && r[i].fields.courseId == r[j].fields.courseId)
      {
        if j == |docs| {
          assert r[i] == docs[i];
          assert !ForPair(docs[i].fields, userId, courseId);
        } else {
          assert r[i] == docs[i] && r[j] == docs[j];
        }
      }
    }
  }

  /** Neither file guards `createEnrolment` against an empty user id: the empty
      user id can be enrolled. */
  lemma EmptyUserCanBeEnrolled(courseId: string, createdAt: string, updatedAt: string, newId: string)
    ensures IsEnrolled(Enrol([], "", courseId, createdAt, updatedAt, newId), "", courseId)
  {
    EnrolEffect([], "", courseId, createdAt, updatedAt, newId);
  }

  /** `createEnrolment(userId, courseId)`: look the pair up and `addDoc` a new
      enrolment only when there is none. `createdAt` and `updatedAt` are the two
      clock readings, `newId` the id `addDoc` generates. */
  method CreateEnrolment(db: DocumentStore, userId: string, courseId: string,
                         createdAt: string, updatedAt: string, newId: string)
    requires db.Valid() && !HasId(db.enrolments, newId)
    modifies db`enrolments
    ensures db.Valid()
    ensures db.enrolments == Enrol(old(db.enrolments), userId, courseId, createdAt, updatedAt, newId)
  {
    PairCountPositive(db.enrolments, userId, courseId);
    var existing := PairDocs(db.enrolments, userId, courseId);
    if |existing| > 0 {
      return;
    }
    var payload := NewEnrolment(userId, courseId, createdAt, updatedAt);
    AddKeepsUniqueIds(db.enrolments, Doc(newId, None, payload));
    db.enrolments := db.enrolments + [Doc(newId, None, payload)];
  }
}
