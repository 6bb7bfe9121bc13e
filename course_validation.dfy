/** `courseSchema` of the course module (app/modules/courses/services/
    validation.ts): the checks a course payload must pass before `createCourse`,
    and the defaults the schema fills in. */
module CourseValidation {
  import opened Shared
  import opened Models

  /** The object handed to `safeParse`: each key absent or a string (a string
      array for `outcomes`). */
  datatype CourseInput = CourseInput(
    title: Option<string>,
    description: Option<string>,
    category: Option<string>,
    difficulty: Option<string>,
    duration: Option<string>,
    outcomes: Option<seq<string>>,
    thumbnailUrl: Option<string>,
    status: Option<string>,
    createdBy: Option<string>)

  /** `z.string().min(n)`: present and at least `n` characters long. */
  predicate HasMinLength(s: Option<string>, n: nat) {
    s.Some? && |s.value| >= n
  }

  /** `z.enum([...])` for difficulty and status: present and one of the names. */
  predicate IsDifficulty(s: Option<string>) {
    s.Some? && ParseDifficulty(s.value).Some?
  }

  predicate IsStatus(s: Option<string>) {
    s.Some? && ParseStatus(s.value).Some?
  }

  /** A course record the schema can produce: the length minimums hold and a
      thumbnail URL is always present. */
  predicate ValidCourse(c: CourseFields) {
    && |c.title| >= 3 && |c.description| >= 10 && |c.category| >= 2
    && |c.duration| >= 1 && |c.createdBy| >= 1 && c.thumbnailUrl.Some?
  }

  /** `courseSchema.safeParse(input)`: the parsed course, or None on failure.
      Absent `outcomes` becomes `[]` and absent `thumbnailUrl` becomes `''`. */
  function ParseCourse(input: CourseInput): (r: Option<CourseFields>)
    ensures r.Some? <==>
      && HasMinLength(input.title, 3) && HasMinLength(input.description, 10)
      && HasMinLength(input.category, 2) && IsDifficulty(input.difficulty)
      && HasMinLength(input.duration, 1) && IsStatus(input.status)
      && HasMinLength(input.createdBy, 1)
    ensures r.Some? ==> ValidCourse(r.value)
    ensures r.Some? ==>
      && r.value.title == input.title.value && r.value.description == input.description.value
      && r.value.category == input.category.value && r.value.duration == input.duration.value
      && r.value.createdBy == input.createdBy.value
      && DifficultyName(r.value.difficulty) == input.difficulty.value
      && StatusName(r.value.status) == input.status.value
    ensures r.Some? ==> r.value.outcomes == (if input.outcomes.Some? then input.outcomes.value else [])
    ensures r.Some? ==> r.value.thumbnailUrl == Some(if input.thumbnailUrl.Some? then input.thumbnailUrl.value else "")
  {
    if && HasMinLength(input.title, 3) && HasMinLength(input.description, 10)
       && HasMinLength(input.category, 2) && IsDifficulty(input.difficulty)
       && HasMinLength(input.duration, 1) && IsStatus(input.status)
       && HasMinLength(input.createdBy, 1)
    then Some(CourseFields(
      input.title.value,
      input.description.value,
      input.category.value,
      ParseDifficulty(input.difficulty.value).value,
      input.duration.value,
      input.outcomes.GetOr([]),
      Some(input.thumbnailUrl.GetOr("")),
      ParseStatus(input.status.value).value,
      input.createdBy.value))
    else None
  }

  /** The acceptance rule for an input that has every key. */
  lemma ParseCompleteInput(title: string, description: string, category: string, difficulty: string,
                           duration: string, outcomes: seq<string>, thumbnailUrl: Option<string>,
                           status: string, createdBy: string)
    ensures ParseCourse(CourseInput(Some(title), Some(description), Some(category), Some(difficulty), Some(duration),
                                    Some(outcomes), thumbnailUrl, Some(status), Some(createdBy))).Some?
      <==> && |title| >= 3 && |description| >= 10 && |category| >= 2 && |duration| >= 1
           && ParseDifficulty(difficulty).Some? && ParseStatus(status).Some? && |createdBy| >= 1
  {
  }

  /** The input that spells out every field of a course record. */
  function ToInput(c: CourseFields): (i: CourseInput)
    ensures i.title == Some(c.title) && i.description == Some(c.description) && i.category == Some(c.category)
    ensures i.duration == Some(c.duration) && i.outcomes == Some(c.outcomes)
    ensures i.thumbnailUrl == c.thumbnailUrl && i.createdBy == Some(c.createdBy)
    ensures i.difficulty.Some? && ParseDifficulty(i.difficulty.value) == Some(c.difficulty)
    ensures i.status.Some? && ParseStatus(i.status.value) == Some(c.status)
  {
    EnumNamesRoundTrip(c.difficulty, c.status);
    CourseInput(Some(c.title), Some(c.description), Some(c.category), Some(DifficultyName(c.difficulty)),
                Some(c.duration), Some(c.outcomes), c.thumbnailUrl, Some(StatusName(c.status)), Some(c.createdBy))
  }

  /** The schema accepts exactly the valid records: a valid record parses back
      to itself. */
  lemma ValidCourseRoundTrip(c: CourseFields)
    requires ValidCourse(c)
    ensures ParseCourse(ToInput(c)) == Some(c)
  {
    EnumNamesRoundTrip(c.difficulty, c.status);
  }

  /** Parsing normalises: what the schema returns parses again to itself. */
  lemma ParseCourseIdempotent(input: CourseInput)
    requires ParseCourse(input).Some?
    ensures ParseCourse(ToInput(ParseCourse(input).value)) == ParseCourse(input)
  {
    ValidCourseRoundTrip(ParseCourse(input).value);
  }

  /** A payload without `createdBy`, or with an empty one, is always rejected. */
  lemma CreatedByRequired(input: CourseInput)
    requires input.createdBy.None? || input.createdBy == Some("")
    ensures ParseCourse(input).None?
  {
  }

  /** The minimum lengths are sharp: a two-character title, a nine-character
      description or a one-character category is rejected even when everything
      else is valid, and one more character is accepted. */
  lemma LengthBoundsSharp(c: CourseFields)
    requires ValidCourse(c)
    ensures ParseCourse(ToInput(c).(title := Some("ab"))).None?
    ensures ParseCourse(ToInput(c).(title := Some("abc"))).Some?
    ensures ParseCourse(ToInput(c).(description := Some("123456789"))).None?
    ensures ParseCourse(ToInput(c).(category := Some("x"))).None?
    ensures ParseCourse(ToInput(c).(duration := Some(""))).None?
  {
    EnumNamesRoundTrip(c.difficulty, c.status);
  }
}
