/** The to-do / finished classification shared by the list handlers of
    src/routers/pic-quiz.js, src/routers/quiz.js and src/routers/scribbly.js:
    the user's class quizzes are flattened, kept by tag and split on whether
    the user holds a completion marker for them. */
module Listing {
  import opened Json
  import Logic

  /** One `{ quiz, quizType }` entry of a class's quiz list, with `quiz`
      populated: the quiz's id and its document. */
  datatype Listed = Listed(id: Oid, quiz: Doc, quizType: Json)

  /** `allUserQuizzes.flat()`: every entry of every class's list, in order. */
  function Flatten(perClass: seq<seq<Listed>>): (r: seq<Listed>)
    ensures forall e :: e in r <==> exists c :: c in perClass && e in c
  {
    if perClass == [] then []
    else
      var rest := Flatten(perClass[1..]);
      assert forall c :: c in perClass[1..] ==> c in perClass;
      assert forall c :: c in perClass ==> c == perClass[0] || c in perClass[1..];
      perClass[0] + rest
  }

  /** `.filter(quiz => quiz.quizType === tag)` */
  function OfType(xs: seq<Listed>, tag: Json): (r: seq<Listed>)
    ensures forall e :: e in r <==> e in xs && e.quizType == tag
    ensures |r| <= |xs|
  {
    if xs == [] then []
    else if xs[0].quizType == tag then [xs[0]] + OfType(xs[1..], tag)
    else OfType(xs[1..], tag)
  }

  /** The candidates of one list handler: the user's class quizzes carrying `tag`. */
  function Candidates(perClass: seq<seq<Listed>>, tag: Json): (r: seq<Listed>)
    ensures forall e :: e in r <==> e.quizType == tag && exists c :: c in perClass && e in c
  {
    OfType(Flatten(perClass), tag)
  }

  /** `req.user.takenQuizzes.map(quiz => quiz.quiz._id)`: the quiz of every
      completion marker, in order. */
  function TakenIds(user: Doc): (r: seq<Json>)
    ensures |r| == |Items(Get(user, "takenQuizzes"))|
    ensures forall i :: 0 <= i < |r| ==> r[i] == Field(Items(Get(user, "takenQuizzes"))[i], "quiz")
  {
    var entries := Items(Get(user, "takenQuizzes"));
    seq(|entries|, i requires 0 <= i < |entries| => Field(entries[i], "quiz"))
  }

  /** `.filter(quiz => !takenQuizzes.includes(quiz.quiz._id))` */
  function NotTaken(xs: seq<Listed>, taken: seq<Json>): (r: seq<Listed>)
    ensures forall e :: e in r <==> e in xs && Ref(e.id) !in taken
  {
    if xs == [] then []
    else if Ref(xs[0].id) !in taken then [xs[0]] + NotTaken(xs[1..], taken)
    else NotTaken(xs[1..], taken)
  }

  /** `.filter(quiz => takenQuizzes.includes(quiz.quiz._id))` */
  function TakenOnly(xs: seq<Listed>, taken: seq<Json>): (r: seq<Listed>)
    ensures forall e :: e in r <==> e in xs && Ref(e.id) in taken
  {
    if xs == [] then []
    else if Ref(xs[0].id) in taken then [xs[0]] + TakenOnly(xs[1..], taken)
    else TakenOnly(xs[1..], taken)
  }

  /** The two lists partition the candidates: every candidate lands in exactly
      one of them, as often as it occurs. */
  lemma {:induction false} SplitPartitions(xs: seq<Listed>, taken: seq<Json>)
    ensures multiset(NotTaken(xs, taken)) + multiset(TakenOnly(xs, taken)) == multiset(xs)
    ensures forall e :: !(e in NotTaken(xs, taken) && e in TakenOnly(xs, taken))
  {
    if xs != [] {
      SplitPartitions(xs[1..], taken);
      assert xs == [xs[0]] + xs[1..];
    }
  }

  /** Once a quiz is recorded as taken, it is no longer a to-do of the user and
      it is listed as finished wherever it is a candidate. */
  lemma RecordedQuizIsFinished(user: Doc, quiz: Oid, quizType: Json, xs: seq<Listed>, e: Listed)
    requires e in xs && e.id == quiz
    ensures e !in NotTaken(xs, TakenIds(Logic.RecordTaken(user, quiz, quizType)))
    ensures e in TakenOnly(xs, TakenIds(Logic.RecordTaken(user, quiz, quizType)))
  {
    var entries := Items(Get(Logic.RecordTaken(user, quiz, quizType), "takenQuizzes"));
    var ids := TakenIds(Logic.RecordTaken(user, quiz, quizType));
    assert entries[|entries| - 1] == Logic.TakenEntry(quiz, quizType);
    assert ids[|entries| - 1] == Ref(quiz);
  }

  /** The list entries' quiz documents: `.map(quiz => quiz.quiz)`. */
  function Quizzes(xs: seq<Listed>): (r: seq<Doc>)
    ensures |r| == |xs|
    ensures forall i :: 0 <= i < |xs| ==> r[i] == xs[i].quiz
  {
    seq(|xs|, i requires 0 <= i < |xs| => xs[i].quiz)
  }

  /** `quiz.status = <status>` on one serialised quiz. */
  function WithStatus(quiz: Doc, status: string): (r: Doc)
    ensures Get(r, "status") == Str(status)
    ensures forall k :: k != "status" ==> Get(r, k) == Get(quiz, k)
  {
    quiz["status" := Str(status)]
  }
}
