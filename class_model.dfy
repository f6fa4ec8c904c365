/** The class (src/models/class.js): a roster of user ids and a list of
    tagged quiz references.  `classId` is required but not unique. */
module ClassModel {
  import opened Json
  import UserModel
  import Populate

  const ClassDefaults: Doc := map["studentList" := Arr([]), "quizList" := Arr([])]

  /** The paths the class schema declares; strict mode drops every other key. */
  const Paths: set<string> := {"classId", "className", "studentList", "quizList"}

  /** `new Class(data)`: every declared field as given, an empty roster and
      quiz list by default, and no undeclared field. */
  function NewClass(data: Doc): (r: Doc)
    ensures forall k :: k in data && k in Paths ==> Get(r, k) == data[k]
    ensures forall k :: k !in Paths ==> k !in r
    ensures "studentList" !in data ==> Items(Get(r, "studentList")) == []
  {
    ClassDefaults + Populate.Project(data, Paths)
  }

  /** The `quizType` enum of a `quizList` entry. */
  predicate ClassQuizTypeValid(t: Json) {
    t == Str("PicQuiz") || t == Str("Quiz") || t == Str("Skrible")
  }

  /** What `save` validates on a class: `classId` is present and every
      `quizList` entry carries a `quizType` from the enum. */
  predicate Valid(d: Doc) {
    Present(Get(d, "classId"))
    && forall e :: e in Items(Get(d, "quizList")) ==> ClassQuizTypeValid(Field(e, "quizType"))
  }

  /** A `quizList` entry `{ quiz, quizType }`. */
  function QuizEntry(quiz: Oid, quizType: Json): Json {
    Obj(map["quiz" := Ref(quiz), "quizType" := quizType])
  }

  /** The tags the routers and the user schema use for picture and Scribbly
      quizzes are outside the class enum, while the user enum accepts them. */
  lemma RouterTagsOutsideClassEnum()
    ensures !ClassQuizTypeValid(Str("PicQuizz")) && UserModel.TakenQuizTypeValid(Str("PicQuizz"))
    ensures !ClassQuizTypeValid(Str("Scribbly")) && UserModel.TakenQuizTypeValid(Str("Scribbly"))
    ensures ClassQuizTypeValid(Str("Quiz")) && UserModel.TakenQuizTypeValid(Str("Quiz"))
  {
  }
}
