/** The guess-picture game (src/models/guess-pic.js): defaults, required
    fields and `toJSON`, which swaps the image for its URL. */
module GuessPicModel {
  import opened Json
  import Populate

  const GuessPicDefaults: Doc := map[
    "quizType" := Str("Guess Pic Game"),
    "miniQuestions" := Arr([]),
    "participants" := Arr([])
  ]

  /** The paths the guess-picture schema declares; strict mode drops every
      other key. */
  const Paths: set<string> := {
    "quizType", "quizId", "quizName", "createdDate", "maxPoint", "numberOfAttempt", "maxTime",
    "class", "bigQuestion", "bigAnswer", "guessImage", "miniQuestions", "participants"
  }

  /** `new GuessPicQuiz(data)`: every declared field as given, the defaults
      elsewhere, and no undeclared field. */
  function NewGuessPic(data: Doc): (r: Doc)
    ensures forall k :: k in data && k in Paths ==> Get(r, k) == data[k]
    ensures forall k :: k !in Paths ==> k !in r
    ensures "quizType" !in data ==> Get(r, "quizType") == Str("Guess Pic Game")
  {
    GuessPicDefaults + Populate.Project(data, Paths)
  }

  /** The required fields are all present, so that `save` validates. */
  predicate RequiredPresent(quiz: Doc) {
    forall k :: k in {"quizId", "quizName", "class", "bigQuestion", "bigAnswer", "guessImage"} ==>
      Present(Get(quiz, k))
  }

  /** `DOMAIN + "guesspic/" + quizId + "/image"` */
  function GuessPicURL(domain: string, quizId: Json): string {
    domain + "guesspic/" + Text(quizId) + "/image"
  }

  /** `toJSON`: the URL added, the image removed, nothing else changed. */
  function ToJSON(domain: string, quiz: Doc): (r: Doc)
    ensures Get(r, "guessPicURL") == Str(GuessPicURL(domain, Get(quiz, "quizId")))
    ensures "guessImage" !in r
    ensures forall k :: k != "guessPicURL" && k != "guessImage" ==> Get(r, k) == Get(quiz, k)
  {
    quiz["guessPicURL" := Str(GuessPicURL(domain, Get(quiz, "quizId")))] - {"guessImage"}
  }
}
