/** A quiz student work (src/models/quiz-studentwork.js); unlike the picture
    quiz's work it declares `tryCount`. */
module QuizWorkModel {
  import opened Json
  import Populate

  /** The schema defaults of a new work. */
  const WorkDefaults: Doc := map["answer" := Arr([]), "score" := Num(-1), "tryCount" := Num(1)]

  /** The paths the schema declares. */
  const WorkPaths: set<string> :=
    {"answer", "author", "score", "teacherComment", "takenDate", "duration", "tryCount"}

  /** `new QuizStudentWork(data)`: the declared paths of `data` over the
      defaults; any other key is dropped. */
  function NewWork(data: Doc): (r: Doc)
    ensures forall k :: k in data && k in WorkPaths ==> Get(r, k) == data[k]
    ensures forall k :: k !in WorkPaths ==> k !in r
    ensures "score" !in data ==> Get(r, "score") == Num(-1)
    ensures "tryCount" !in data ==> Get(r, "tryCount") == Num(1)
  {
    WorkDefaults + Populate.Project(data, WorkPaths)
  }
}
