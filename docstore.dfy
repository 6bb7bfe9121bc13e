/** An in-memory, sequential stand-in for the hosted document database: each
    collection is a sequence of documents with distinct ids, in the order the
    database returns them. Query (`where`, `orderBy`, `limit(1)`), `addDoc`,
    `setDoc` and `updateDoc` are the functions and methods below; the two read
    mappers the application uses to turn a document into a record are
    `ReadWithDocId` and `ReadWithStoredId`. */
module DocStore {
  import opened Shared
  import opened Models

  /** A stored document: its document id, the `id` field written into its data
      if any, and the remaining fields. */
  datatype Doc<T> = Doc(docId: string, storedId: Option<string>, fields: T)

  /** A record as a reader returns it: an id and the fields. */
  datatype Entity<T> = Entity(id: string, fields: T)

  /** Result of `updateDoc`, which rejects when the target document is missing. */
  datatype WriteResult = Written | NotFound

  /** `{ ...docSnap.data(), id: docSnap.id }`: the document id overrides any
      stored `id` field. */
  function ReadWithDocId<T>(d: Doc<T>): (e: Entity<T>)
    ensures e.id == d.docId && e.fields == d.fields
  {
    Entity(d.docId, d.fields)
  }

  /** `{ id: docSnap.id, ...docSnap.data() }`: a stored `id` field overrides the
      document id. */
  function ReadWithStoredId<T>(d: Doc<T>): (e: Entity<T>)
    ensures e.fields == d.fields
    ensures d.storedId.None? ==> e.id == d.docId
    ensures d.storedId.Some? ==> e.id == d.storedId.value
  {
    Entity(d.storedId.GetOr(d.docId), d.fields)
  }

  /** The two mappers report the same record exactly when the document stores
      no `id` field or stores its own document id. */
  lemma ReadersAgree<T>(d: Doc<T>)
    ensures ReadWithDocId(d) == ReadWithStoredId(d) <==> (d.storedId.None? || d.storedId.value == d.docId)
  {
  }

  /** A document whose stored `id` differs from its document id is read
      differently by the two mappers. */
  lemma ReadersDisagreeExample()
    ensures ReadWithDocId(Doc("doc1", Some("other"), 0)).id == "doc1"
    ensures ReadWithStoredId(Doc("doc1", Some("other"), 0)).id == "other"
  {
  }

  /** A record written with `setDoc(doc(ref, record.id), record)`: stored under
      its id, with the id also written into its data, so both mappers read it
      back unchanged. */
  function StoreWithId<T>(p: Entity<T>): (d: Doc<T>)
    ensures d.docId == p.id
    ensures ReadWithDocId(d) == p && ReadWithStoredId(d) == p
  {
    Doc(p.id, Some(p.id), p.fields)
  }

  function ReadAllWithDocId<T>(docs: seq<Doc<T>>): (r: seq<Entity<T>>)
    ensures |r| == |docs|
    ensures forall i :: 0 <= i < |docs| ==> r[i] == ReadWithDocId(docs[i])
  {
    seq(|docs|, i requires 0 <= i < |docs| => ReadWithDocId(docs[i]))
  }

  function ReadAllWithStoredId<T>(docs: seq<Doc<T>>): (r: seq<Entity<T>>)
    ensures |r| == |docs|
    ensures forall i :: 0 <= i < |docs| ==> r[i] == ReadWithStoredId(docs[i])
  {
    seq(|docs|, i requires 0 <= i < |docs| => ReadWithStoredId(docs[i]))
  }

  /** The records of the documents whose fields satisfy `p`, read with the
      document id, in store order. */
  function SelectWithDocId<T>(docs: seq<Doc<T>>, p: T -> bool): (r: seq<Entity<T>>)
    ensures forall i :: 0 <= i < |r| ==> p(r[i].fields)
    ensures forall i :: 0 <= i < |r| ==> exists j :: 0 <= j < |docs| && r[i] == ReadWithDocId(docs[j])
    ensures forall j :: 0 <= j < |docs| && p(docs[j].fields) ==> ReadWithDocId(docs[j]) in r
    ensures |r| == |Where(docs, p)|
  {
    var w := Where(docs, p);
    var r := ReadAllWithDocId(w);
    SelectFacts(docs, w, r, p, ReadWithDocId);
    r
  }

  /** The same selection, read with a stored `id` field taking precedence. */
  function SelectWithStoredId<T>(docs: seq<Doc<T>>, p: T -> bool): (r: seq<Entity<T>>)
    ensures forall i :: 0 <= i < |r| ==> p(r[i].fields)
    ensures forall i :: 0 <= i < |r| ==> exists j :: 0 <= j < |docs| && r[i] == ReadWithStoredId(docs[j])
    ensures forall j :: 0 <= j < |docs| && p(docs[j].fields) ==> ReadWithStoredId(docs[j]) in r
    ensures |r| == |Where(docs, p)|
  {
    var w := Where(docs, p);
    var r := ReadAllWithStoredId(w);
    SelectFacts(docs, w, r, p, ReadWithStoredId);
    r
  }

  lemma SelectFacts<T>(docs: seq<Doc<T>>, w: seq<Doc<T>>, r: seq<Entity<T>>, p: T -> bool, read: Doc<T> -> Entity<T>)
    requires w == Where(docs, p)
    requires |r| == |w| && forall i :: 0 <= i < |w| ==> r[i] == read(w[i])
    requires forall d :: read(d).fields == d.fields
    ensures forall i :: 0 <= i < |r| ==> p(r[i].fields)
    ensures forall i :: 0 <= i < |r| ==> exists j :: 0 <= j < |docs| && r[i] == read(docs[j])
    ensures forall j :: 0 <= j < |docs| && p(docs[j].fields) ==> read(docs[j]) in r
  {
    forall i | 0 <= i < |r| ensures exists j :: 0 <= j < |docs| && r[i] == read(docs[j]) {
      assert w[i] in docs;
      var j :| 0 <= j < |docs| && docs[j] == w[i];
      assert r[i] == read(docs[j]);
    }
    forall j | 0 <= j < |docs| && p(docs[j].fields) ensures read(docs[j]) in r {
      assert docs[j] in w;
      var k :| 0 <= k < |w| && w[k] == docs[j];
      assert r[k] == read(docs[j]);
    }
  }

  /** A selection lists each matching document once, in store order:
      selecting from a concatenation selects from each part, and a single
      document gives its record exactly when it matches. The two laws fix
      both selections on every collection. */
  lemma SelectAppend<T>(a: seq<Doc<T>>, b: seq<Doc<T>>, p: T -> bool)
    ensures SelectWithDocId(a + b, p) == SelectWithDocId(a, p) + SelectWithDocId(b, p)
    ensures SelectWithStoredId(a + b, p) == SelectWithStoredId(a, p) + SelectWithStoredId(b, p)
  {
    WhereAppend(a, b, p);
    ReadAllAppend(Where(a, p), Where(b, p));
  }

  lemma SelectSingle<T>(d: Doc<T>, p: T -> bool)
    ensures SelectWithDocId([d], p) == (if p(d.fields) then [ReadWithDocId(d)] else [])
    ensures SelectWithStoredId([d], p) == (if p(d.fields) then [ReadWithStoredId(d)] else [])
  {
    assert [d][1..] == [];
  }

  lemma ReadAllAppend<T>(a: seq<Doc<T>>, b: seq<Doc<T>>)
    ensures ReadAllWithDocId(a + b) == ReadAllWithDocId(a) + ReadAllWithDocId(b)
    ensures ReadAllWithStoredId(a + b) == ReadAllWithStoredId(a) + ReadAllWithStoredId(b)
  {
    assert forall i :: 0 <= i < |a| ==> (a + b)[i] == a[i];
    assert forall i :: |a| <= i < |a + b| ==> (a + b)[i] == b[i - |a|];
  }

  /** Reordering a selection keeps what it selects. */
  lemma PermutedSelection<T>(docs: seq<Doc<T>>, s: seq<Entity<T>>, r: seq<Entity<T>>, p: T -> bool, read: Doc<T> -> Entity<T>)
    requires forall i :: 0 <= i < |s| ==> p(s[i].fields)
    requires forall i :: 0 <= i < |s| ==> exists j :: 0 <= j < |docs| && s[i] == read(docs[j])
    requires forall j :: 0 <= j < |docs| && p(docs[j].fields) ==> read(docs[j]) in s
    requires multiset(r) == multiset(s)
    ensures forall i :: 0 <= i < |r| ==> p(r[i].fields)
    ensures forall i :: 0 <= i < |r| ==> exists j :: 0 <= j < |docs| && r[i] == read(docs[j])
    ensures forall j :: 0 <= j < |docs| && p(docs[j].fields) ==> read(docs[j]) in r
  {
    forall i | 0 <= i < |r| ensures p(r[i].fields) && exists j :: 0 <= j < |docs| && r[i] == read(docs[j]) {
      assert r[i] in multiset(s);
      var k :| 0 <= k < |s| && s[k] == r[i];
    }
    forall j | 0 <= j < |docs| && p(docs[j].fields) ensures read(docs[j]) in r {
      assert read(docs[j]) in multiset(r);
    }
  }

  predicate HasId<T>(docs: seq<Doc<T>>, id: string) {
    exists i :: 0 <= i < |docs| && docs[i].docId == id
  }

  /** No two documents of a collection share a document id. */
  predicate UniqueIds<T>(docs: seq<Doc<T>>) {
    forall i, j :: 0 <= i < j < |docs| ==> docs[i].docId != docs[j].docId
  }

  /** `where(field, '==', value)` and friends: the documents whose fields
      satisfy `p`, in store order. */
  function Where<T>(docs: seq<Doc<T>>, p: T -> bool): (r: seq<Doc<T>>)
    ensures |r| <= |docs|
    ensures forall i :: 0 <= i < |r| ==> p(r[i].fields)
    ensures forall i :: 0 <= i < |r| ==> r[i] in docs
    ensures forall i :: 0 <= i < |docs| && p(docs[i].fields) ==> docs[i] in r
    decreases |docs|
  {
    if docs == [] then []
    else
      assert docs == [docs[0]] + docs[1..];
      (if p(docs[0].fields) then [docs[0]] else []) + Where(docs[1..], p)
  }

  lemma {:induction false} WhereAppend<T>(a: seq<Doc<T>>, b: seq<Doc<T>>, p: T -> bool)
    ensures Where(a + b, p) == Where(a, p) + Where(b, p)
    decreases |a|
  {
    if a == [] {
      assert a + b == b;
    } else {
      assert (a + b)[0] == a[0];
      assert (a + b)[1..] == a[1..] + b;
      WhereAppend(a[1..], b, p);
    }
  }

  /** `getDoc(id)`: the document with that id, if any. */
  function Find<T>(docs: seq<Doc<T>>, id: string): (r: Option<Doc<T>>)
    ensures r.None? <==> !HasId(docs, id)
    ensures r.Some? ==> r.value in docs && r.value.docId == id
    ensures r.Some? && UniqueIds(docs) ==> forall i :: 0 <= i < |docs| && docs[i].docId == id ==> docs[i] == r.value
    decreases |docs|
  {
    if docs == [] then None
    else if docs[0].docId == id then Some(docs[0])
    else
      var r := Find(docs[1..], id);
      assert forall i :: 1 <= i < |docs| ==> docs[i] == docs[1..][i - 1];
      r
  }

  /** `setDoc(doc(ref, d.docId), ...)`: replaces the document with that id, or
      adds it at the end when there is none. */
  function Put<T>(docs: seq<Doc<T>>, d: Doc<T>): (r: seq<Doc<T>>)
    ensures HasId(docs, d.docId) ==> |r| == |docs|
    ensures !HasId(docs, d.docId) ==> r == docs + [d]
    decreases |docs|
  {
    if docs == [] then [d]
    else if docs[0].docId == d.docId then [d] + docs[1..]
    else
      assert HasId(docs, d.docId) <==> HasId(docs[1..], d.docId) by {
        if HasId(docs, d.docId) {
          var i :| 0 <= i < |docs| && docs[i].docId == d.docId;
          assert docs[1..][i - 1] == docs[i];
        }
        if HasId(docs[1..], d.docId) {
          var i :| 0 <= i < |docs[1..]| && docs[1..][i].docId == d.docId;
          assert docs[i + 1] == docs[1..][i];
        }
      }
      assert docs == [docs[0]] + docs[1..];
      [docs[0]] + Put(docs[1..], d)
  }

  lemma UniqueTail<T>(docs: seq<Doc<T>>)
    requires docs != [] && UniqueIds(docs)
    ensures UniqueIds(docs[1..])
    ensures !HasId(docs[1..], docs[0].docId)
  {
    forall i, j | 0 <= i < j < |docs[1..]| ensures docs[1..][i].docId != docs[1..][j].docId {
      assert docs[1..][i] == docs[i + 1] && docs[1..][j] == docs[j + 1];
    }
    forall k | 0 <= k < |docs[1..]| ensures docs[1..][k].docId != docs[0].docId {
      assert docs[1..][k] == docs[k + 1];
    }
  }

  /** Every document after `Put` is the written one or was there before. */
  lemma {:induction false} PutMembers<T>(docs: seq<Doc<T>>, d: Doc<T>)
    ensures forall k :: 0 <= k < |Put(docs, d)| ==> Put(docs, d)[k] == d || Put(docs, d)[k] in docs
    decreases |docs|
  {
    if docs != [] {
      var r := Put(docs, d);
      if docs[0].docId == d.docId {
        assert forall k :: 1 <= k < |r| ==> r[k] == docs[k];
      } else {
        PutMembers(docs[1..], d);
        var rest := Put(docs[1..], d);
        assert r == [docs[0]] + rest;
        forall k | 1 <= k < |r| ensures r[k] == d || r[k] in docs {
          assert r[k] == rest[k - 1];
        }
      }
    }
  }

  /** `Put` keeps document ids distinct. */
  lemma {:induction false} PutUnique<T>(docs: seq<Doc<T>>, d: Doc<T>)
    requires UniqueIds(docs)
    ensures UniqueIds(Put(docs, d))
    decreases |docs|
  {
    if docs != [] {
      UniqueTail(docs);
      var r := Put(docs, d);
      if docs[0].docId == d.docId {
        forall i, j | 0 <= i < j < |r| ensures r[i].docId != r[j].docId {
          assert r[j] == docs[j];
          if i > 0 { assert r[i] == docs[i]; }
        }
      } else {
        PutUnique(docs[1..], d);
        PutMembers(docs[1..], d);
        var rest := Put(docs[1..], d);
        assert r == [docs[0]] + rest;
        forall i, j | 0 <= i < j < |r| ensures r[i].docId != r[j].docId {
          assert r[j] == rest[j - 1];
          if i > 0 {
            assert r[i] == rest[i - 1];
          } else if r[j] != d {
            assert r[j] in docs[1..];
          }
        }
      }
    }
  }

  /** Reading the written id after `Put` gives the written document, and every
      other id reads as before. */
  lemma {:induction false} PutFind<T>(docs: seq<Doc<T>>, d: Doc<T>, id: string)
    ensures Find(Put(docs, d), id) == if id == d.docId then Some(d) else Find(docs, id)
    decreases |docs|
  {
    if docs != [] && docs[0].docId != d.docId {
      PutFind(docs[1..], d, id);
      assert Put(docs, d)[1..] == Put(docs[1..], d);
    } else if docs != [] && id != d.docId {
      assert Put(docs, d)[1..] == docs[1..];
    }
  }

  /** Appending a document with a fresh id keeps ids distinct. */
  lemma AddKeepsUniqueIds<T>(docs: seq<Doc<T>>, d: Doc<T>)
    requires UniqueIds(docs) && !HasId(docs, d.docId)
    ensures UniqueIds(docs + [d])
  {
  }

  /** The collection at `path` in a family of sub-collections, empty when none
      has been written yet. */
  function Collection<K, T>(m: map<K, seq<Doc<T>>>, path: K): seq<Doc<T>> {
    if path in m then m[path] else []
  }

  ghost predicate AllUnique<K, T>(m: map<K, seq<Doc<T>>>) {
    forall k :: k in m ==> UniqueIds(m[k])
  }

  /** The whole database: one field per top-level collection, and maps from the
      parent path to each family of sub-collections. */
  class DocumentStore {
    var courses: seq<Doc<CourseFields>>
    /** `courses/{courseId}/modules`, keyed by courseId. */
    var modules: map<string, seq<Doc<ModuleFields>>>
    /** `courses/{courseId}/modules/{moduleId}/lessons`, keyed by (courseId, moduleId). */
    var lessons: map<(string, string), seq<Doc<LessonFields>>>
    var enrolments: seq<Doc<EnrolmentFields>>
    var quizAttempts: seq<Doc<AttemptFields>>
    /** `courses/{courseId}/assignments/{assignmentId}/submissions`, keyed by
        (courseId, assignmentId). */
    var submissions: map<(string, string), seq<Doc<SubmissionFields>>>
    var certificates: seq<Doc<CertificateFields>>

    ghost predicate Valid()
      reads this
    {
      && UniqueIds(courses) && AllUnique(modules) && AllUnique(lessons)
      && UniqueIds(enrolments) && UniqueIds(quizAttempts)
      && AllUnique(submissions) && UniqueIds(certificates)
    }

    constructor ()
      ensures Valid()
      ensures courses == [] && modules == map[] && lessons == map[] && enrolments == []
      ensures quizAttempts == [] && submissions == map[] && certificates == []
    {
      courses, modules, lessons, enrolments := [], map[], map[], [];
      quizAttempts, submissions, certificates := [], map[], [];
    }
  }
}
