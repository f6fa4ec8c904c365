/** The question quiz (src/models/quiz.js): defaults, a single `class`
    string, and `toJSON`, which rewrites every populated question and adds no
    quiz-level URL. */
module QuizModel {
  import opened Json
  import opened QuestionItems
  import opened QuestionDispatch
  import Populate

  const QuizDefaults: Doc := map[
    "quizType" := Str("Quiz"),
    "questions" := Arr([]),
    "studentWorks" := Arr([])
  ]

  /** The paths the quiz schema declares; strict mode drops every other key. */
  const Paths: set<string> := {
    "quizType", "quizId", "quizName", "author", "createdDate", "maxPoint", "numberOfAttempt",
    "maxTime", "dueDate", "class", "questions", "studentWorks"
  }

  /** `new Quiz(data)`: every declared field as given, the defaults
      elsewhere, and no undeclared field. */
  function NewQuiz(data: Doc): (r: Doc)
    ensures forall k :: k in data && k in Paths ==> Get(r, k) == data[k]
    ensures forall k :: k !in Paths ==> k !in r
    ensures "quizType" !in data ==> Get(r, "quizType") == Str("Quiz")
  {
    QuizDefaults + Populate.Project(data, Paths)
  }

  /** What `save` validates on a quiz: `quizId` and `quizName` are present
      and every question entry passes the entry rules. */
  predicate Valid(d: Doc) {
    Present(Get(d, "quizId")) && Present(Get(d, "quizName")) && EntriesValid(Items(Get(d, "questions")))
  }

  /** The quiz as `toJSON` leaves it: each question serialised by `ItemView`;
      every other field is left as it is, so no quiz-level URL is added. */
  function QuizView(domain: string, quiz: Doc): (r: Doc)
    ensures |Items(Get(r, "questions"))| == |Items(Get(quiz, "questions"))|
    ensures forall i :: 0 <= i < |Items(Get(quiz, "questions"))| ==>
              Items(Get(r, "questions"))[i]
              == ItemView(domain, "api/quiz/", Get(quiz, "quizId"), Items(Get(quiz, "questions"))[i])
    ensures forall k :: k != "questions" ==> Get(r, k) == Get(quiz, k)
  {
    quiz["questions" := Arr(ItemsOf(domain, "api/quiz/", Get(quiz, "quizId"), Items(Get(quiz, "questions"))))]
  }

  /** `toJSON`. */
  method ToJSON(domain: string, quiz: Doc) returns (r: Doc)
    ensures r == QuizView(domain, quiz)
  {
    var views := ItemsView(domain, "api/quiz/", Get(quiz, "quizId"), Items(Get(quiz, "questions")));
    r := quiz["questions" := Arr(views)];
  }
}
