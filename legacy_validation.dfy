/** The older schemas (lib/validation.ts): login and registration, and a course
    schema with the same length and enum rules as the course module's but
    without `createdBy` and `thumbnailUrl`. zod strips keys a schema does not
    declare, so those two never reach the parsed draft. The email format check
    is a parameter. */
module LegacyValidation {
  import opened Shared
  import opened Models
  import opened CourseValidation

  datatype LoginInput = LoginInput(email: Option<string>, password: Option<string>)

  datatype RegisterInput = RegisterInput(name: Option<string>, email: Option<string>, password: Option<string>)

  datatype Credentials = Credentials(email: string, password: string)

  /** `loginSchema.safeParse`: an email the format check accepts and a password
      of at least six characters. */
  function ParseLogin(input: LoginInput, isEmail: string -> bool): (r: Option<Credentials>)
    ensures r.Some? <==> input.email.Some? && isEmail(input.email.value) && HasMinLength(input.password, 6)
    ensures r.Some? ==> r.value == Credentials(input.email.value, input.password.value)
  {
    if input.email.Some? && isEmail(input.email.value) && HasMinLength(input.password, 6)
    then Some(Credentials(input.email.value, input.password.value))
    else None
  }

  /** `registerSchema.safeParse`: a name of at least two characters, and the
      login rules. */
  function ParseRegister(input: RegisterInput, isEmail: string -> bool): (r: Option<(string, Credentials)>)
    ensures r.Some? <==>
      HasMinLength(input.name, 2) && input.email.Some? && isEmail(input.email.value) && HasMinLength(input.password, 6)
    ensures r.Some? ==> r.value == (input.name.value, Credentials(input.email.value, input.password.value))
  {
    if HasMinLength(input.name, 2) && input.email.Some? && isEmail(input.email.value) && HasMinLength(input.password, 6)
    then Some((input.name.value, Credentials(input.email.value, input.password.value)))
    else None
  }

  /** Registration accepts exactly the inputs whose credentials would also be
      accepted at login and that carry a long enough name. */
  lemma RegisterIsLoginPlusName(input: RegisterInput, isEmail: string -> bool)
    ensures ParseRegister(input, isEmail).Some?
        <==> ParseLogin(LoginInput(input.email, input.password), isEmail).Some? && HasMinLength(input.name, 2)
    ensures ParseRegister(input, isEmail).Some? ==>
      ParseRegister(input, isEmail).value.1 == ParseLogin(LoginInput(input.email, input.password), isEmail).value
  {
  }

  /** Passwords shorter than six characters are rejected whatever the email. */
  lemma ShortPasswordRejected(email: string, password: string, isEmail: string -> bool)
    requires |password| < 6
    ensures ParseLogin(LoginInput(Some(email), Some(password)), isEmail).None?
  {
  }

  /** What this `courseSchema` returns: the declared keys only. */
  datatype CourseDraft = CourseDraft(
    title: string,
    description: string,
    category: string,
    difficulty: Difficulty,
    duration: string,
    outcomes: seq<string>,
    status: CourseStatus)

  /** `courseSchema.safeParse(input)`: the length and enum rules, `outcomes`
      defaulting to `[]`; `createdBy` and `thumbnailUrl` are neither checked
      nor kept. */
  function ParseCourseDraft(input: CourseInput): (r: Option<CourseDraft>)
    ensures r.Some? <==>
      && HasMinLength(input.title, 3) && HasMinLength(input.description, 10)
      && HasMinLength(input.category, 2) && IsDifficulty(input.difficulty)
      && HasMinLength(input.duration, 1) && IsStatus(input.status)
    ensures r.Some? ==> r.value.outcomes == (if input.outcomes.Some? then input.outcomes.value else [])
  {
    if && HasMinLength(input.title, 3) && HasMinLength(input.description, 10)
       && HasMinLength(input.category, 2) && IsDifficulty(input.difficulty)
       && HasMinLength(input.duration, 1) && IsStatus(input.status)
    then Some(CourseDraft(
      input.title.value,
      input.description.value,
      input.category.value,
      ParseDifficulty(input.difficulty.value).value,
      input.duration.value,
      input.outcomes.GetOr([]),
      ParseStatus(input.status.value).value))
    else None
  }

  /** The declared fields of a full course record. */
  function DraftOf(c: CourseFields): CourseDraft {
    CourseDraft(c.title, c.description, c.category, c.difficulty, c.duration, c.outcomes, c.status)
  }

  /** The two course schemas apply the same rules: the course module's schema
      accepts exactly the inputs this one accepts that also carry a non-empty
      `createdBy`, and both parse the shared fields alike. */
  lemma CourseSchemasAgree(input: CourseInput)
    ensures ParseCourse(input).Some? <==> ParseCourseDraft(input).Some? && HasMinLength(input.createdBy, 1)
    ensures ParseCourse(input).Some? ==> ParseCourseDraft(input) == Some(DraftOf(ParseCourse(input).value))
  {
  }

  /** `createdBy` and `thumbnailUrl` do not affect this schema's result. */
  lemma DraftIgnoresUndeclaredKeys(input: CourseInput, createdBy: Option<string>, thumbnailUrl: Option<string>)
    ensures ParseCourseDraft(input.(createdBy := createdBy, thumbnailUrl := thumbnailUrl)) == ParseCourseDraft(input)
  {
  }
}
