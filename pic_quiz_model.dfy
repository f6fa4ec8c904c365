/** The picture quiz (src/models/pic-quiz.js): defaults, the tag enum of its
    question entries, and `toJSON`, which replaces the quiz image by its URL
    and rewrites every populated small question. */
module PicQuizModel {
  import opened Json
  import opened QuestionDispatch
  import opened QuestionItems
  import Populate

  const PicQuizDefaults: Doc := map[
    "quizType" := Str("PicQuizz"),
    "classes" := Arr([]),
    "smallQuestions" := Arr([]),
    "studentWorks" := Arr([])
  ]

  /** The paths the picture-quiz schema declares; strict mode drops every
      other key. */
  const Paths: set<string> := {
    "quizType", "quizId", "quizName", "author", "createdDate", "maxPoint", "numberOfAttempt",
    "maxTime", "dueDate", "classes", "bigQuestion", "bigAnswer", "bigQuestionImage",
    "smallQuestions", "studentWorks"
  }

  /** `new PicQuizz(data)`: every declared field as given, the defaults
      elsewhere, and no undeclared field. */
  function NewPicQuiz(data: Doc): (r: Doc)
    ensures forall k :: k in data && k in Paths ==> Get(r, k) == data[k]
    ensures forall k :: k !in Paths ==> k !in r
    ensures "quizType" !in data ==> Get(r, "quizType") == Str("PicQuizz")
    ensures "classes" !in data ==> Items(Get(r, "classes")) == []
  {
    PicQuizDefaults + Populate.Project(data, Paths)
  }

  /** What `save` validates on a picture quiz: the five required fields are
      present (the quiz image a non-empty buffer) and every small-question
      entry passes the entry rules. */
  predicate Valid(d: Doc) {
    Present(Get(d, "quizId")) && Present(Get(d, "quizName")) && Present(Get(d, "bigQuestion"))
    && Present(Get(d, "bigAnswer")) && Present(Get(d, "bigQuestionImage"))
    && EntriesValid(Items(Get(d, "smallQuestions")))
  }

  /** `${DOMAIN}api/pic-quiz/${quiz.quizId}/image` */
  function BigImageURL(domain: string, quizId: Json): string {
    domain + "api/pic-quiz/" + Text(quizId) + "/image"
  }

  /** The quiz as `toJSON` leaves it: the quiz image URL always added and the
      image bytes always removed; each small question serialised by `ItemView`. */
  function QuizView(domain: string, quiz: Doc): (r: Doc)
    ensures "bigQuestionImage" !in r
    ensures Get(r, "bigQuestionImageURL") == Str(BigImageURL(domain, Get(quiz, "quizId")))
    ensures |Items(Get(r, "smallQuestions"))| == |Items(Get(quiz, "smallQuestions"))|
    ensures forall i :: 0 <= i < |Items(Get(quiz, "smallQuestions"))| ==>
              Items(Get(r, "smallQuestions"))[i]
              == ItemView(domain, "api/pic-quiz/", Get(quiz, "quizId"), Items(Get(quiz, "smallQuestions"))[i])
    ensures forall k :: k !in {"bigQuestionImage", "bigQuestionImageURL", "smallQuestions"} ==>
              Get(r, k) == Get(quiz, k)
  {
    var quizId := Get(quiz, "quizId");
    quiz["bigQuestionImageURL" := Str(BigImageURL(domain, quizId))]
        ["smallQuestions" := Arr(ItemsOf(domain, "api/pic-quiz/", quizId, Items(Get(quiz, "smallQuestions"))))]
    - {"bigQuestionImage"}
  }

  /** `toJSON`. */
  method ToJSON(domain: string, quiz: Doc) returns (r: Doc)
    ensures r == QuizView(domain, quiz)
  {
    var quizId := Get(quiz, "quizId");
    var views := ItemsView(domain, "api/pic-quiz/", quizId, Items(Get(quiz, "smallQuestions")));
    r := quiz["bigQuestionImageURL" := Str(BigImageURL(domain, quizId))]
             ["smallQuestions" := Arr(views)]
         - {"bigQuestionImage"};
  }
}
