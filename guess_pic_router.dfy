/** The guess-picture handlers of src/routers/guess-pic.js: creation with
    the mini-question assembly loop, the patch guard, and delete. Form fields
    arrive as strings, or as arrays of strings when repeated. */
module GuessPicRouter {
  import opened Json
  import opened Store
  import UserModel
  import GuessPicModel
  import Logic
  import Populate

  /** `field.length`: an array's item count or a string's character count;
      `None` where reading `length` throws (the field is absent); `0` where
      the value has no `length`, so the loop does not run. */
  function LengthOf(field: Json): Option<nat> {
    match field
    case Undefined => None
    case Null => None
    case Arr(items) => Some(|items|)
    case Str(s) => Some(|s|)
    case _ => Some(0)
  }

  /** Whether `field[i]` can be read without throwing. */
  predicate Indexable(field: Json) {
    field != Undefined && field != Null
  }

  /** `field[i]`: an array item or a one-character string, `undefined` past
      the end or on a value that is not indexed. */
  function At(field: Json, i: nat): Json {
    match field
    case Arr(items) => if i < |items| then items[i] else Undefined
    case Str(s) => if i < |s| then Str([s[i]]) else Undefined
    case _ => Undefined
  }

  /** Whether the i-th mini-question is a multiple-choice one. */
  predicate IsMultipleChoice(types: Json, i: nat) {
    At(types, i).Str? && IsMultipleChoiceText(At(types, i).s)
  }

  /** `questionType === 'multiple-choice'` on a string. */
  predicate IsMultipleChoiceText(s: string) {
    s == "multiple-choice"
  }

  /** The options cursor before question i: four per multiple-choice
      question among the first i. */
  function Cursor(types: Json, i: nat): nat {
    if i == 0 then 0
    else Cursor(types, i - 1) + (if IsMultipleChoice(types, i - 1) then 4 else 0)
  }

  /** The four consecutive options from cursor j on. */
  function OptionsFrom(options: Json, j: nat): (r: seq<Json>)
    ensures |r| == 4
    ensures forall k :: 0 <= k < 4 ==> r[k] == At(options, j + k)
  {
    [At(options, j), At(options, j + 1), At(options, j + 2), At(options, j + 3)]
  }

  /** The i-th mini-question, its options read from cursor j. */
  function MiniQuestion(questions: Json, types: Json, answers: Json, options: Json, i: nat, j: nat): Json {
    var base := map["question" := At(questions, i), "questionType" := At(types, i), "answer" := At(answers, i)];
    if IsMultipleChoice(types, i) then Obj(base["options" := Arr(OptionsFrom(options, j))]) else Obj(base)
  }

  /** The first n mini-questions, each reading its options at its cursor. */
  function MiniQuestions(questions: Json, types: Json, answers: Json, options: Json, n: nat): seq<Json> {
    if n == 0 then []
    else MiniQuestions(questions, types, answers, options, n - 1)
         + [MiniQuestion(questions, types, answers, options, n - 1, Cursor(types, n - 1))]
  }

  /** Whether assembling n questions throws: reading a type or an answer of
      an absent field, or the options of an absent field once a
      multiple-choice question needs them. */
  predicate AssemblyThrows(types: Json, answers: Json, options: Json, n: nat) {
    n > 0 && (!Indexable(types) || !Indexable(answers) || (Cursor(types, n) > 0 && !Indexable(options)))
  }

  /** Exactly one mini-question per entry, in order, the i-th built from
      index i of the parallel fields and its options from cursor
      `Cursor(types, i)`. */
  lemma {:induction false} MiniQuestionsAt(questions: Json, types: Json, answers: Json, options: Json, n: nat, i: nat)
    requires i < n
    ensures |MiniQuestions(questions, types, answers, options, n)| == n
    ensures MiniQuestions(questions, types, answers, options, n)[i]
            == MiniQuestion(questions, types, answers, options, i, Cursor(types, i))
    decreases n
  {
    MiniQuestionsLength(questions, types, answers, options, n - 1);
    if i < n - 1 {
      MiniQuestionsAt(questions, types, answers, options, n - 1, i);
    }
  }

  lemma {:induction false} MiniQuestionsLength(questions: Json, types: Json, answers: Json, options: Json, n: nat)
    ensures |MiniQuestions(questions, types, answers, options, n)| == n
  {
    if n > 0 {
      MiniQuestionsLength(questions, types, answers, options, n - 1);
    }
  }

  /** A multiple-choice question has exactly the four options from its
      cursor; any other question has no `options` field. */
  lemma OptionsOfMiniQuestion(questions: Json, types: Json, answers: Json, options: Json, i: nat, j: nat)
    ensures var q := MiniQuestion(questions, types, answers, options, i, j);
            q.Obj? && ("options" in q.fields <==> IsMultipleChoice(types, i))
            && (IsMultipleChoice(types, i) ==>
                  Items(q.fields["options"]) == OptionsFrom(options, j)
                  && forall k :: 0 <= k < 4 ==> Items(q.fields["options"])[k] == At(options, j + k))
            && Field(q, "question") == At(questions, i) && Field(q, "answer") == At(answers, i)
  {
  }

  /** The cursor never moves back. */
  lemma {:induction false} CursorMonotone(types: Json, a: nat, b: nat)
    requires a <= b
    ensures Cursor(types, a) <= Cursor(types, b)
    decreases b
  {
    if a < b {
      CursorMonotone(types, a, b - 1);
    }
  }

  /** Two multiple-choice questions read disjoint windows of options: the
      later one starts at or after the end of the earlier one's four. */
  lemma OptionWindowsDisjoint(types: Json, a: nat, b: nat)
    requires a < b && IsMultipleChoice(types, a)
    ensures Cursor(types, a) + 4 <= Cursor(types, b)
  {
    CursorMonotone(types, a + 1, b);
  }

  /** One more question: the list grows by question i read at the cursor,
      the cursor moves past its options, and nothing thrown so far throws. */
  lemma AssembleStep(questions: Json, types: Json, answers: Json, options: Json, i: nat)
    ensures MiniQuestions(questions, types, answers, options, i + 1)
            == MiniQuestions(questions, types, answers, options, i)
               + [MiniQuestion(questions, types, answers, options, i, Cursor(types, i))]
    ensures Cursor(types, i + 1) == Cursor(types, i) + (if IsMultipleChoice(types, i) then 4 else 0)
  {
  }

  /** A multiple-choice question over absent options makes the whole
      assembly throw. */
  lemma AssembleThrowsAt(types: Json, i: nat, n: nat)
    requires i < n && IsMultipleChoice(types, i)
    ensures Cursor(types, n) > 0
  {
    CursorMonotone(types, i + 1, n);
  }

  /** The inner loop: four options pushed from cursor j on. */
  method PickOptions(options: Json, j: nat) returns (picked: seq<Json>, next: nat)
    ensures picked == OptionsFrom(options, j) && next == j + 4
  {
    picked, next := [], j;
    for k := 0 to 4
      invariant next == j + k
      invariant picked == OptionsFrom(options, j)[..k]
    {
      picked := picked + [At(options, next)];
      next := next + 1;
    }
  }

  /** One pass of the outer loop builds question i the way `MiniQuestion`
      describes it. */
  method BuildQuestion(questions: Json, types: Json, answers: Json, options: Json, i: nat, j: nat)
    returns (q: Json, next: nat)
    ensures q == MiniQuestion(questions, types, answers, options, i, j)
    ensures next == j + (if IsMultipleChoice(types, i) then 4 else 0)
  {
    var fields := map["question" := At(questions, i), "questionType" := At(types, i)];
    next := j;
    if IsMultipleChoice(types, i) {
      var picked;
      picked, next := PickOptions(options, j);
      fields := fields["options" := Arr(picked)];
    }
    fields := fields["answer" := At(answers, i)];
    q := Obj(fields);
  }

  /** The assembly loop over n questions whose types and answers can be
      read: `i` walks the mini-questions and `j` the shared options cursor,
      four steps per multiple-choice question. */
  method AssembleLoop(questions: Json, types: Json, answers: Json, options: Json, n: nat)
    returns (r: Option<seq<Json>>)
    requires n > 0 ==> Indexable(types) && Indexable(answers)
    ensures r.None? <==> AssemblyThrows(types, answers, options, n)
    ensures r.Some? ==> r.value == MiniQuestions(questions, types, answers, options, n)
  {
    LoopThrowsIff(types, answers, options, n);
    var out := [];
    var i, j := 0, 0;
    while i < n
      invariant 0 <= i <= n
      invariant j == Cursor(types, i)
      invariant Cursor(types, i) > 0 ==> Indexable(options)
      invariant out == MiniQuestions(questions, types, answers, options, i)
    {
      if IsMultipleChoice(types, i) && !Indexable(options) {
        AssembleThrowsAt(types, i, n);
        return None;
      }
      AssembleStep(questions, types, answers, options, i);
      var q;
      q, j := BuildQuestion(questions, types, answers, options, i, j);
      out := out + [q];
      i := i + 1;
    }
    r := Some(out);
  }

  /** Over readable types and answers, the assembly throws exactly when
      some multiple-choice question needs absent options. */
  lemma LoopThrowsIff(types: Json, answers: Json, options: Json, n: nat)
    requires n > 0 ==> Indexable(types) && Indexable(answers)
    ensures AssemblyThrows(types, answers, options, n) <==> Cursor(types, n) > 0 && !Indexable(options)
  {
    assert Cursor(types, 0) == 0;
  }

  /** `for (let i = 0, j = 0; i < miniQuestion.length; ++i)`: throws where
      the length cannot be read, or where `AssemblyThrows` says. */
  method AssembleMiniQuestions(questions: Json, types: Json, answers: Json, options: Json)
    returns (r: Option<seq<Json>>)
    ensures r.None? <==> LengthOf(questions).None?
                         || AssemblyThrows(types, answers, options, LengthOf(questions).value)
    ensures r.Some? ==> r.value == MiniQuestions(questions, types, answers, options, LengthOf(questions).value)
  {
    var length := LengthOf(questions);
    if length.None? {
      return None;
    }
    var n := length.value;
    if n > 0 && (!Indexable(types) || !Indexable(answers)) {
      return None;
    }
    r := AssembleLoop(questions, types, answers, options, n);
  }

  /** The quiz `save` stores: the body over the schema defaults, the
      assembled mini-questions after any the body brings, and the resized
      image. */
  function CreatedQuiz(body: Doc, mini: seq<Json>, image: seq<Byte>): Doc {
    var quiz := GuessPicModel.NewGuessPic(body);
    quiz["miniQuestions" := Arr(Items(Get(quiz, "miniQuestions")) + mini)]["guessImage" := Bin(image)]
  }

  /** The mini-questions a body assembles to, or `None` where the loop throws. */
  function Assembled(body: Doc): Option<seq<Json>> {
    var n := LengthOf(Get(body, "miniQuestion"));
    if n.None? || AssemblyThrows(Get(body, "questionType"), Get(body, "answer"), Get(body, "options"), n.value) then None
    else Some(MiniQuestions(Get(body, "miniQuestion"), Get(body, "questionType"), Get(body, "answer"),
                            Get(body, "options"), n.value))
  }

  /** `POST /guesspic/create`: a non-admin is refused before anything is
      built; a missing upload, a throwing assembly, a failed validation or a
      `quizId` the unique index already holds stores nothing; otherwise one
      new quiz is stored. `image` is the upload already resized. */
  method Create(db: Db, u: Oid, body: Doc, image: Option<seq<Byte>>) returns (r: Reply<Oid>)
    requires u in db.users
    modifies db`guessPics
    ensures !r.NotFound?
    ensures r.Rejected? <==> !UserModel.IsAdmin(db.users[u])
    ensures r.Fails? <==> UserModel.IsAdmin(db.users[u])
                          && (image.None? || Assembled(body).None?
                              || !GuessPicModel.RequiredPresent(CreatedQuiz(body, Assembled(body).value, image.value))
                              || HasMatch(old(db.guessPics), "quizId", Get(CreatedQuiz(body, Assembled(body).value, image.value), "quizId")))
    ensures !r.Ok? ==> unchanged(db)
    ensures UniqueOn(old(db.guessPics), "quizId") ==> UniqueOn(db.guessPics, "quizId")
    ensures r.Ok? ==>
              image.Some? && Assembled(body).Some? && r.value !in old(db.guessPics)
              && db.guessPics == old(db.guessPics)[r.value := CreatedQuiz(body, Assembled(body).value, image.value)]
  {
    if !UserModel.IsAdmin(db.users[u]) {
      return Rejected;
    }
    if image.None? {
      return Fails;
    }
    var mini := AssembleMiniQuestions(Get(body, "miniQuestion"), Get(body, "questionType"), Get(body, "answer"),
                                      Get(body, "options"));
    if mini.None? {
      return Fails;
    }
    var quiz := CreatedQuiz(body, mini.value, image.value);
    if !GuessPicModel.RequiredPresent(quiz) || HasMatch(db.guessPics, "quizId", Get(quiz, "quizId")) {
      return Fails;
    }
    var id := FreshId(db.guessPics);
    ghost var before := db.guessPics;
    db.guessPics := db.guessPics[id := quiz];
    if UniqueOn(before, "quizId") {
      InsertKeepsUnique(before, "quizId", id, quiz);
    }
    r := Ok(id);
  }

  /** `PATCH /guesspic/:id`: a non-admin or a body naming `quizId` is
      refused; a missing quiz makes the assignment throw (answered 400, not
      404); a patch that empties a required field fails validation; otherwise
      every declared body field is assigned. */
  method Patch(db: Db, u: Oid, quizId: Json, body: Doc) returns (r: Reply<Oid>)
    requires u in db.users
    modifies db`guessPics
    ensures !r.NotFound?
    ensures r.Rejected? <==> !UserModel.IsAdmin(db.users[u]) || "quizId" in body
    ensures !r.Ok? ==> unchanged(db)
    ensures !r.Rejected? && !HasMatch(old(db.guessPics), "quizId", quizId) ==> r.Fails?
    ensures r.Ok? ==>
              r.value in old(db.guessPics) && Get(old(db.guessPics)[r.value], "quizId") == quizId
              && db.guessPics == old(db.guessPics)[r.value := old(db.guessPics)[r.value]
                                                       + Populate.Project(body, GuessPicModel.Paths)]
              && GuessPicModel.RequiredPresent(db.guessPics[r.value])
              && Get(db.guessPics[r.value], "quizId") == quizId
    ensures r.Fails? && HasMatch(old(db.guessPics), "quizId", quizId) ==>
              exists q :: q in old(db.guessPics) && Get(old(db.guessPics)[q], "quizId") == quizId
                          && !GuessPicModel.RequiredPresent(old(db.guessPics)[q] + Populate.Project(body, GuessPicModel.Paths))
  {
    if !UserModel.IsAdmin(db.users[u]) || "quizId" in body {
      return Rejected;
    }
    var found := FindOne(db.guessPics, "quizId", quizId);
    if found.None? {
      return Fails;
    }
    var quiz := Logic.UpdateDocument(db.guessPics[found.value], body, GuessPicModel.Paths, GuessPicModel.RequiredPresent);
    if quiz.None? {
      return Fails;
    }
    db.guessPics := db.guessPics[found.value := quiz.value];
    r := Ok(found.value);
  }

  /** `DELETE /guesspic/:id`: a non-admin is refused, a missing quiz answers
      404, otherwise the quiz found is removed. */
  method Delete(db: Db, u: Oid, quizId: Json) returns (r: Reply<Oid>)
    requires u in db.users
    modifies db`guessPics
    ensures !r.Fails?
    ensures r.Rejected? <==> !UserModel.IsAdmin(db.users[u])
    ensures r.NotFound? <==> UserModel.IsAdmin(db.users[u]) && !HasMatch(old(db.guessPics), "quizId", quizId)
    ensures !r.Ok? ==> unchanged(db)
    ensures r.Ok? ==>
              r.value in old(db.guessPics) && Get(old(db.guessPics)[r.value], "quizId") == quizId
              && db.guessPics == old(db.guessPics) - {r.value}
  {
    if !UserModel.IsAdmin(db.users[u]) {
      return Rejected;
    }
    var found := FindOne(db.guessPics, "quizId", quizId);
    if found.None? {
      return NotFound;
    }
    db.guessPics := db.guessPics - {found.value};
    r := Ok(found.value);
  }
}
