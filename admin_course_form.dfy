/** The admin course-creation form (app/modules/courses/app/admin/page.tsx):
    the payload `handleSubmit` builds from the form fields, the comma-separated
    outcomes parser, and the validate-then-create decision that updates the
    page's error message and issues `createCourse`. */
module AdminCourseForm {
  import opened Shared
  import opened Models
  import opened CourseValidation
  import opened CourseOutcomes

  // ---------------------------------------------------------------------
  // The payload

  /** The submitted form's fields; `formData.get` gives null for a missing one. */
  datatype CourseForm = CourseForm(
    title: Option<string>,
    description: Option<string>,
    category: Option<string>,
    difficulty: Option<string>,
    duration: Option<string>,
    outcomes: Option<string>,
    status: Option<string>)

  /** `String(formData.get(name))`: a missing field becomes the text "null". */
  function FormString(v: Option<string>): (s: string)
    ensures v.Some? ==> s == v.value
    ensures v.None? ==> s == "null"
  {
    if v.Some? then v.value else "null"
  }

  /** `value || fallback`: a missing or empty value is replaced. */
  function OrDefault(v: Option<string>, fallback: string): (s: string)
    ensures (v.None? || v.value == "") ==> s == fallback
    ensures (v.Some? && v.value != "") ==> s == v.value
  {
    if v.Some? && v.value != "" then v.value else fallback
  }

  /** The course author: the signed-in user's id, or 'admin' when there is no
      user or the id is empty. */
  function CreatedBy(user: Option<User>): (id: string)
    ensures id != ""
    ensures user.Some? && user.value.id != "" ==> id == user.value.id
    ensures user.None? || user.value.id == "" ==> id == "admin"
  {
    if user.Some? && user.value.id != "" then user.value.id else "admin"
  }

  /** The payload `handleSubmit` hands to the schema. */
  function BuildCoursePayload(form: CourseForm, user: Option<User>): (p: CourseInput)
    ensures p.title == Some(FormString(form.title))
    ensures p.description == Some(FormString(form.description))
    ensures p.category == Some(FormString(form.category))
    ensures p.difficulty == Some(OrDefault(form.difficulty, "beginner"))
    ensures p.duration == Some(FormString(form.duration))
    ensures p.outcomes == Some(ParseOutcomes(FormString(form.outcomes)))
    ensures p.thumbnailUrl == Some("")
    ensures p.status == Some(OrDefault(form.status, "draft"))
    ensures p.createdBy == Some(CreatedBy(user))
  {
    CourseInput(
      Some(FormString(form.title)),
      Some(FormString(form.description)),
      Some(FormString(form.category)),
      Some(OrDefault(form.difficulty, "beginner")),
      Some(FormString(form.duration)),
      Some(ParseOutcomes(FormString(form.outcomes))),
      Some(""),
      Some(OrDefault(form.status, "draft")),
      Some(CreatedBy(user)))
  }

  /** The form's payload is accepted exactly when the typed fields meet the
      length rules and the chosen difficulty and status are known names; the
      author never causes a rejection. */
  lemma PayloadAcceptedIff(form: CourseForm, user: Option<User>)
    ensures ParseCourse(BuildCoursePayload(form, user)).Some? <==>
      && |FormString(form.title)| >= 3 && |FormString(form.description)| >= 10
      && |FormString(form.category)| >= 2 && |FormString(form.duration)| >= 1
      && ParseDifficulty(OrDefault(form.difficulty, "beginner")).Some?
      && ParseStatus(OrDefault(form.status, "draft")).Some?
  {
    ParseCompleteInput(FormString(form.title), FormString(form.description), FormString(form.category),
      OrDefault(form.difficulty, "beginner"), FormString(form.duration), ParseOutcomes(FormString(form.outcomes)),
      Some(""), OrDefault(form.status, "draft"), CreatedBy(user));
  }

  /** An accepted payload creates a course with no thumbnail URL, authored by
      the current user (or 'admin'), with the parsed outcomes, and with
      difficulty `beginner` and status `draft` when none was chosen. */
  lemma AcceptedPayloadContents(form: CourseForm, user: Option<User>)
    requires ParseCourse(BuildCoursePayload(form, user)).Some?
    ensures var c := ParseCourse(BuildCoursePayload(form, user)).value;
      && c.thumbnailUrl == Some("") && c.createdBy == CreatedBy(user)
      && c.outcomes == ParseOutcomes(FormString(form.outcomes))
      && (form.difficulty.None? || form.difficulty == Some("") ==> c.difficulty == Beginner)
      && (form.status.None? || form.status == Some("") ==> c.status == Draft)
  {
  }

  const RequiredFieldsMessage: string := "Please complete all required fields."

  /** The page's state: the error message shown above the form, and the
      courses handed to `createCourse` so far. */
  class AdminCoursesPage {
    var formError: Option<string>
    var created: seq<CourseFields>

    /** Only schema-valid courses are ever handed to `createCourse`. */
    ghost predicate Valid()
      reads this
    {
      forall i :: 0 <= i < |created| ==> ValidCourse(created[i])
    }

    constructor ()
      ensures Valid() && formError.None? && created == []
    {
      formError := None;
      created := [];
    }

    /** `handleSubmit`: on a rejected payload, show the message and create
        nothing; otherwise clear the message and create the parsed course. */
    method HandleSubmit(form: CourseForm, user: Option<User>)
      requires Valid()
      modifies this
      ensures Valid()
      ensures var parsed := ParseCourse(BuildCoursePayload(form, user));
        && (parsed.None? ==> formError == Some(RequiredFieldsMessage) && created == old(created))
        && (parsed.Some? ==> formError.None? && created == old(created) + [parsed.value])
    {
      var payload := BuildCoursePayload(form, user);
      var parsed := ParseCourse(payload);
      if parsed.None? {
        formError := Some(RequiredFieldsMessage);
        return;
      }
      var course := parsed.value;
      assert ValidCourse(course);
      formError := None;
      AppendValid(created, course);
      created := created + [course];
    }
  }

  lemma AppendValid(created: seq<CourseFields>, course: CourseFields)
    requires forall i :: 0 <= i < |created| ==> ValidCourse(created[i])
    requires ValidCourse(course)
    ensures forall i :: 0 <= i < |created + [course]| ==> ValidCourse((created + [course])[i])
  {
  }
}
