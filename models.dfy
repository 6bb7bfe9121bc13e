/** Record shapes of the learning-management application (types/models.ts and
    config/roles.ts), plus the quiz-attempt, submission and certificate shapes
    that the record services read and write. Each record is stored without its
    id; `DocStore.Entity` pairs the fields with the id a reader reports. */
module Models {
  import opened Shared

  datatype Role = Learner | Admin | Instructor | Superadmin

  datatype User = User(id: string, name: string, email: string, role: Role, companyId: Option<string>)

  datatype Difficulty = Beginner | Intermediate | Advanced

  datatype CourseStatus = Draft | Published

  /** A course document (`Omit<Course, 'id'>`). */
  datatype CourseFields = CourseFields(
    title: string,
    description: string,
    category: string,
    difficulty: Difficulty,
    duration: string,
    outcomes: seq<string>,
    thumbnailUrl: Option<string>,
    status: CourseStatus,
    createdBy: string)

  /** A module document under `courses/{courseId}/modules`. */
  datatype ModuleFields = ModuleFields(courseId: string, title: string, description: string, order: int)

  datatype LessonType = Video | Pdf | Text | Mixed

  /** A lesson document under `courses/{courseId}/modules/{moduleId}/lessons`. */
  datatype LessonFields = LessonFields(
    courseId: string,
    moduleId: string,
    title: string,
    lessonType: LessonType,
    content: Option<string>,
    resourceUrl: Option<string>,
    order: int)

  datatype EnrolmentStatus = Active | Completed

  /** An enrolment document (`Omit<Enrolment, 'id'>`). */
  datatype EnrolmentFields = EnrolmentFields(
    userId: string,
    courseId: string,
    status: EnrolmentStatus,
    progressPercent: int,
    createdAt: string,
    updatedAt: string)

  /** The options a learner selected for one question. */
  datatype AnswerSelection = AnswerSelection(questionId: string, selectedOptionIndexes: seq<int>)

  /** A quiz attempt without its id; `createdAt` is optional on the way in. */
  datatype AttemptFields = AttemptFields(
    quizId: string,
    courseId: string,
    userId: string,
    score: int,
    passed: bool,
    answers: seq<AnswerSelection>,
    createdAt: Option<string>)

  datatype SubmissionStatus = Submitted | Graded

  /** An assignment submission without its id; grade, passed and feedback are
      absent until an instructor grades it. */
  datatype SubmissionFields = SubmissionFields(
    assignmentId: string,
    courseId: string,
    userId: string,
    fileUrl: Option<string>,
    textResponse: Option<string>,
    status: SubmissionStatus,
    grade: Option<int>,
    passed: Option<bool>,
    feedback: Option<string>,
    createdAt: Option<string>,
    updatedAt: string)

  /** A certificate document (`Omit<Certificate, 'id'>`). */
  datatype CertificateFields = CertificateFields(
    userId: string,
    courseId: string,
    issuedAt: string,
    certificateNumber: string,
    downloadUrl: string)

  /** `Partial<Course>` handed to `updateCourse`: each present field is written,
      an absent one is left alone. A present `id` is written into the document
      as a field of its own. */
  datatype CoursePatch = CoursePatch(
    id: Option<string>,
    title: Option<string>,
    description: Option<string>,
    category: Option<string>,
    difficulty: Option<Difficulty>,
    duration: Option<string>,
    outcomes: Option<seq<string>>,
    thumbnailUrl: Option<string>,
    status: Option<CourseStatus>,
    createdBy: Option<string>)

  /** The course fields after `updateDoc` merges `patch` into them. */
  function PatchCourse(c: CourseFields, patch: CoursePatch): (r: CourseFields)
    ensures r.title == patch.title.GetOr(c.title)
    ensures r.description == patch.description.GetOr(c.description)
    ensures r.category == patch.category.GetOr(c.category)
    ensures r.difficulty == patch.difficulty.GetOr(c.difficulty)
    ensures r.duration == patch.duration.GetOr(c.duration)
    ensures r.outcomes == patch.outcomes.GetOr(c.outcomes)
    ensures r.thumbnailUrl == (if patch.thumbnailUrl.Some? then patch.thumbnailUrl else c.thumbnailUrl)
    ensures r.status == patch.status.GetOr(c.status)
    ensures r.createdBy == patch.createdBy.GetOr(c.createdBy)
  {
    CourseFields(
      patch.title.GetOr(c.title),
      patch.description.GetOr(c.description),
      patch.category.GetOr(c.category),
      patch.difficulty.GetOr(c.difficulty),
      patch.duration.GetOr(c.duration),
      patch.outcomes.GetOr(c.outcomes),
      if patch.thumbnailUrl.Some? then patch.thumbnailUrl else c.thumbnailUrl,
      patch.status.GetOr(c.status),
      patch.createdBy.GetOr(c.createdBy))
  }

  /** The patch with no fields. */
  function EmptyPatch(): CoursePatch {
    CoursePatch(None, None, None, None, None, None, None, None, None, None)
  }

  /** An empty patch changes nothing, and applying a patch twice is the same
      as applying it once. */
  lemma PatchCourseLaws(c: CourseFields, patch: CoursePatch)
    ensures PatchCourse(c, EmptyPatch()) == c
    ensures PatchCourse(PatchCourse(c, patch), patch) == PatchCourse(c, patch)
  {
  }

  /** The string spelling of a difficulty, as stored and as the schemas accept it. */
  function DifficultyName(d: Difficulty): string {
    match d
    case Beginner => "beginner"
    case Intermediate => "intermediate"
    case Advanced => "advanced"
  }

  /** `z.enum(['beginner', 'intermediate', 'advanced'])`. */
  function ParseDifficulty(s: string): (r: Option<Difficulty>)
    ensures r.Some? <==> s in {"beginner", "intermediate", "advanced"}
    ensures r.Some? ==> DifficultyName(r.value) == s
  {
    if s == "beginner" then Some(Beginner)
    else if s == "intermediate" then Some(Intermediate)
    else if s == "advanced" then Some(Advanced)
    else None
  }

  function StatusName(s: CourseStatus): string {
    match s
    case Draft => "draft"
    case Published => "published"
  }

  /** `z.enum(['draft', 'published'])`. */
  function ParseStatus(s: string): (r: Option<CourseStatus>)
    ensures r.Some? <==> s in {"draft", "published"}
    ensures r.Some? ==> StatusName(r.value) == s
  {
    if s == "draft" then Some(Draft)
    else if s == "published" then Some(Published)
    else None
  }

  /** The enum spellings round-trip. */
  lemma EnumNamesRoundTrip(d: Difficulty, s: CourseStatus)
    ensures ParseDifficulty(DifficultyName(d)) == Some(d)
    ensures ParseStatus(StatusName(s)) == Some(s)
  {
  }
}
