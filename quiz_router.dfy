/** The question-quiz handlers of src/routers/quiz.js: submit with its
    attempt limit, the need-to-do and finished lists, new question, the quiz
    and question patches, and the delete cascade. */
module QuizRouter {
  import opened Json
  import opened Store
  import opened QuestionDispatch
  import opened QuizCommon
  import UserModel
  import Logic
  import Listing
  import QuizModel
  import QuizWorkModel

  /** The tag of a question quiz in a class's quiz list. */
  const QuizTag: Json := Str("Quiz")

  // ---------------------------------------------------------------------
  // POST /api/quiz/:id/new-question
  // ---------------------------------------------------------------------

  /** The question is saved first, and a question its schema rejects
      answers 400 before any quiz is looked up; a missing quiz removes the
      saved question again and answers 404, otherwise one entry for it joins
      `questions`. */
  method NewQuestion(db: Db, u: Oid, quizId: Json, body: Doc, image: Option<seq<Byte>>) returns (r: Reply<Added>)
    requires u in db.users
    modifies db`quizzes, db`fillInBlanks, db`multipleChoices
    ensures r.Rejected? <==> !UserModel.IsAdmin(db.users[u])
    ensures var m := DocumentByType(Get(body, "questionType"));
            r.Fails? <==> UserModel.IsAdmin(db.users[u]) && !QuestionValid(m, BuiltQuestion(m, QuestionData(body, image)))
    ensures var m := DocumentByType(Get(body, "questionType"));
            r.NotFound? <==> UserModel.IsAdmin(db.users[u]) && QuestionValid(m, BuiltQuestion(m, QuestionData(body, image)))
                             && !HasMatch(old(db.quizzes), "quizId", quizId)
    ensures !r.Ok? ==> unchanged(db)
    ensures r.Ok? ==> r.value.quiz in old(db.quizzes) && Get(old(db.quizzes)[r.value.quiz], "quizId") == quizId
    ensures r.Ok? ==> db.quizzes == old(db.quizzes)[r.value.quiz :=
              Append(old(db.quizzes)[r.value.quiz], "questions", QuestionEntry(r.value.question, Get(body, "questionType")))]
    ensures r.Ok? ==> var m := DocumentByType(Get(body, "questionType"));
              r.value.question !in old(QuestionsIn(db, m))
              && QuestionsIn(db, m) == old(QuestionsIn(db, m))[r.value.question := BuiltQuestion(m, QuestionData(body, image))]
              && QuestionValid(m, QuestionsIn(db, m)[r.value.question])
              && (m == FillInBlank ==> db.multipleChoices == old(db.multipleChoices))
              && (m == MultipleChoice ==> db.fillInBlanks == old(db.fillInBlanks))
  {
    if !UserModel.IsAdmin(db.users[u]) {
      return Rejected;
    }
    r := AddQuestion(db, quizId, Get(body, "questionType"), QuestionData(body, image));
  }

  /** The admin's part of the handler above: save the question, then attach
      it to the quiz found by `quizId` or take it back when there is none. */
  method AddQuestion(db: Db, quizId: Json, questionType: Json, data: Doc) returns (r: Reply<Added>)
    modifies db`quizzes, db`fillInBlanks, db`multipleChoices
    ensures var m := DocumentByType(questionType);
            r.Fails? <==> !QuestionValid(m, BuiltQuestion(m, data))
    ensures var m := DocumentByType(questionType);
            r.NotFound? <==> QuestionValid(m, BuiltQuestion(m, data)) && !HasMatch(old(db.quizzes), "quizId", quizId)
    ensures !r.Rejected?
    ensures !r.Ok? ==> unchanged(db)
    ensures r.Ok? ==> r.value.quiz in old(db.quizzes) && Get(old(db.quizzes)[r.value.quiz], "quizId") == quizId
    ensures r.Ok? ==> db.quizzes == old(db.quizzes)[r.value.quiz :=
              Append(old(db.quizzes)[r.value.quiz], "questions", QuestionEntry(r.value.question, questionType))]
    ensures r.Ok? ==> var m := DocumentByType(questionType);
              r.value.question !in old(QuestionsIn(db, m))
              && QuestionsIn(db, m) == old(QuestionsIn(db, m))[r.value.question := BuiltQuestion(m, data)]
              && QuestionValid(m, QuestionsIn(db, m)[r.value.question])
              && (m == FillInBlank ==> db.multipleChoices == old(db.multipleChoices))
              && (m == MultipleChoice ==> db.fillInBlanks == old(db.fillInBlanks))
  {
    var m := DocumentByType(questionType);
    var saved := SaveQuestion(db, m, data);
    if saved.None? {
      return Fails;
    }
    var question := saved.value;
    r := LinkQuestion(db, quizId, questionType, m, question);
    if r.NotFound? {
      RemoveAdded(old(QuestionsIn(db, m)), question, BuiltQuestion(m, data));
      if m == FillInBlank {
        assert db.fillInBlanks == old(db.fillInBlanks);
      } else {
        assert db.multipleChoices == old(db.multipleChoices);
      }
    }
  }

  /** The rest of the handler once the question is saved: one entry for it
      joins the quiz found by `quizId`, or it is removed again when there is
      no such quiz. */
  method LinkQuestion(db: Db, quizId: Json, questionType: Json, m: Model, question: Oid) returns (r: Reply<Added>)
    modifies db`quizzes, db`fillInBlanks, db`multipleChoices
    ensures r.Ok? || r.NotFound?
    ensures r.NotFound? <==> !HasMatch(old(db.quizzes), "quizId", quizId)
    ensures r.NotFound? ==> db.quizzes == old(db.quizzes) && QuestionsIn(db, m) == old(QuestionsIn(db, m)) - {question}
    ensures r.Ok? ==> QuestionsIn(db, m) == old(QuestionsIn(db, m))
    ensures r.Ok? ==> r.value.question == question && r.value.quiz in old(db.quizzes)
                      && Get(old(db.quizzes)[r.value.quiz], "quizId") == quizId
                      && db.quizzes == old(db.quizzes)[r.value.quiz :=
                           Append(old(db.quizzes)[r.value.quiz], "questions", QuestionEntry(question, questionType))]
    ensures m == FillInBlank ==> db.multipleChoices == old(db.multipleChoices)
    ensures m == MultipleChoice ==> db.fillInBlanks == old(db.fillInBlanks)
  {
    var found := FindOne(db.quizzes, "quizId", quizId);
    if found.None? {
      RemoveQuestion(db, m, question);
      return NotFound;
    }
    var q := found.value;
    db.quizzes := db.quizzes[q := Append(db.quizzes[q], "questions", QuestionEntry(question, questionType))];
    r := Ok(Added(q, question));
  }

  // ---------------------------------------------------------------------
  // POST /api/quiz/submit/:quizId
  // ---------------------------------------------------------------------

  /** The work a submit stores: the body, then the submitter as `author` and
      the try number as `tryCount`. */
  function SubmittedWork(body: Doc, u: Oid, tryNumber: nat): Doc {
    QuizWorkModel.NewWork(body["author" := Ref(u)]["tryCount" := Num(tryNumber)])
  }

  /** The submitter's prior tries at the quiz. */
  function Tries(works: map<Oid, Doc>, users: map<Oid, Doc>, u: Oid, quiz: Doc): Option<nat>
    requires u in users
  {
    PriorTries(Items(Get(quiz, "studentWorks")), works, users, Get(users[u], "account"))
  }

  /** The submit once the quiz `q` is found: the try number computed, the
      attempt limit enforced, then the work created (`stored`), attached and
      the quiz marked taken. */
  method SubmitTo(db: Db, u: Oid, q: Oid, body: Doc) returns (r: Reply<Attempt>, stored: Option<Oid>, tries: Option<nat>)
    requires u in db.users && q in db.quizzes
    modifies db`quizzes, db`quizWorks, db`users
    ensures tries == Tries(old(db.quizWorks), old(db.users), u, old(db.quizzes[q]))
    ensures !r.NotFound?
    ensures tries.None? ==> r.Fails? && unchanged(db)
    ensures r.Rejected? <==> tries.Some? && OutOfAttempts(tries.value + 1, Get(old(db.quizzes[q]), "numberOfAttempt"))
    ensures r.Rejected? ==> unchanged(db)
    ensures stored.Some? <==> r.Ok? || (r.Fails? && tries.Some?)
    ensures stored.Some? ==>
              stored.value !in old(db.quizWorks)
              && db.quizWorks == old(db.quizWorks)[stored.value := SubmittedWork(body, u, tries.value + 1)]
              && db.quizzes == old(db.quizzes)[q := Logic.AttachWork(old(db.quizzes[q]), stored.value)]
    ensures stored.Some? ==> (r.Ok? <==> UserModel.TakenQuizTypeValid(Get(old(db.quizzes[q]), "quizType")))
    ensures r.Ok? ==>
              r.value == Attempt(q, stored.value, tries.value + 1)
              && db.users == old(db.users)[u := Logic.RecordTaken(old(db.users[u]), q, Get(old(db.quizzes[q]), "quizType"))]
    ensures r.Fails? ==> db.users == old(db.users)
  {
    stored := None;
    var quiz := db.quizzes[q];
    tries := Tries(db.quizWorks, db.users, u, quiz);
    if tries.None? {
      return Fails, stored, tries;
    }
    var tryNumber := tries.value + 1;
    if OutOfAttempts(tryNumber, Get(quiz, "numberOfAttempt")) {
      return Rejected, stored, tries;
    }
    var w;
    r, w := StoreAttempt(db, u, q, quiz, body, tryNumber);
    stored := Some(w);
  }

  /** `new QuizWork(...).save()`: the submitted work under a fresh id. */
  method StoreWork(db: Db, u: Oid, body: Doc, tryNumber: nat) returns (w: Oid)
    modifies db`quizWorks
    ensures w !in old(db.quizWorks) && db.quizWorks == old(db.quizWorks)[w := SubmittedWork(body, u, tryNumber)]
  {
    var works;
    w, works := Logic.CreateDocument(db.quizWorks, QuizWorkModel.WorkDefaults,
                                     body["author" := Ref(u)]["tryCount" := Num(tryNumber)], QuizWorkModel.WorkPaths);
    db.quizWorks := works;
  }

  /** The work stored under a fresh id, attached to quiz `q`, and the quiz
      marked taken for the submitter. */
  method StoreAttempt(db: Db, u: Oid, q: Oid, quiz: Doc, body: Doc, tryNumber: nat) returns (r: Reply<Attempt>, w: Oid)
    requires u in db.users && q in db.quizzes
    modifies db`quizzes, db`quizWorks, db`users
    ensures r.Ok? || r.Fails?
    ensures w !in old(db.quizWorks) && db.quizWorks == old(db.quizWorks)[w := SubmittedWork(body, u, tryNumber)]
    ensures db.quizzes == old(db.quizzes)[q := Logic.AttachWork(quiz, w)]
    ensures r.Ok? <==> UserModel.TakenQuizTypeValid(Get(quiz, "quizType"))
    ensures r.Ok? ==> r.value == Attempt(q, w, tryNumber)
                      && db.users == old(db.users)[u := Logic.RecordTaken(old(db.users[u]), q, Get(quiz, "quizType"))]
    ensures r.Fails? ==> db.users == old(db.users)
  {
    w := StoreWork(db, u, body, tryNumber);
    var attached := Logic.AttachWork(quiz, w);
    assert Get(attached, "quizType") == Get(quiz, "quizType");
    var quizzes := db.quizzes[q := attached];
    db.quizzes := quizzes;
    var marked := Logic.InjectQuizToUser(db, q, attached, u);
    assert db.quizzes == quizzes;
    r := if marked.Ok? then Ok(Attempt(q, w, tryNumber)) else Fails;
  }

  /** `POST /api/quiz/submit/:quizId`. */
  method Submit(db: Db, u: Oid, quizId: Json, body: Doc) returns (r: Reply<Attempt>)
    requires u in db.users
    modifies db`quizzes, db`quizWorks, db`users
    ensures r.NotFound? <==> !HasMatch(old(db.quizzes), "quizId", quizId)
    ensures r.NotFound? || r.Rejected? ==> unchanged(db)
    ensures r.Ok? ==> r.value.quiz in old(db.quizzes) && Get(old(db.quizzes)[r.value.quiz], "quizId") == quizId
    ensures r.Ok? ==>
              Tries(old(db.quizWorks), old(db.users), u, old(db.quizzes)[r.value.quiz]) == Some(r.value.tryNumber - 1)
              && !OutOfAttempts(r.value.tryNumber, Get(old(db.quizzes)[r.value.quiz], "numberOfAttempt"))
    ensures r.Ok? ==>
              r.value.work !in old(db.quizWorks)
              && db.quizWorks == old(db.quizWorks)[r.value.work := SubmittedWork(body, u, r.value.tryNumber)]
              && db.quizzes == old(db.quizzes)[r.value.quiz := Logic.AttachWork(old(db.quizzes)[r.value.quiz], r.value.work)]
              && db.users == old(db.users)[u := Logic.RecordTaken(old(db.users[u]), r.value.quiz,
                                                                  Get(old(db.quizzes)[r.value.quiz], "quizType"))]
  {
    var found := FindOne(db.quizzes, "quizId", quizId);
    if found.None? {
      return NotFound;
    }
    var stored, tries;
    r, stored, tries := SubmitTo(db, u, found.value, body);
  }

  // ---------------------------------------------------------------------
  // GET /api/quiz/get-list/:type
  // ---------------------------------------------------------------------

  /** One entry of a list: the quiz with its questions populated,
      serialised by `toJSON` and labelled with the list's status. */
  function ListEntry(domain: string, fib: map<Oid, Doc>, mc: map<Oid, Doc>, status: string, quiz: Doc): Doc {
    Listing.WithStatus(QuizModel.QuizView(domain, PopulateQuestions(quiz, "questions", fib, mc)), status)
  }

  /** A listed quiz shows its status; every other field but the question
      list is the quiz's own, since this `toJSON` adds no quiz-level URL. */
  lemma ListEntryShows(domain: string, fib: map<Oid, Doc>, mc: map<Oid, Doc>, status: string, quiz: Doc)
    ensures var e := ListEntry(domain, fib, mc, status, quiz);
            Get(e, "status") == Str(status)
            && forall k :: k !in {"questions", "status"} ==>
                 Get(e, k) == Get(quiz, k)
  {
  }

  /** The handler's `map(toJSON)` and `forEach` over the chosen quizzes:
      each populated, serialised and labelled, in order; the serialiser throws
      on an entry whose question is missing. */
  method Entries(domain: string, fib: map<Oid, Doc>, mc: map<Oid, Doc>, status: string, chosen: seq<Doc>)
    returns (r: Reply<seq<Doc>>)
    ensures r.Ok? || r.Fails?
    ensures r.Ok? <==> AllSerialisable(chosen, "questions", fib, mc)
    ensures r.Ok? ==> r.value == MapSeq((quiz: Doc) => ListEntry(domain, fib, mc, status, quiz), chosen)
  {
    var entry := (quiz: Doc) => ListEntry(domain, fib, mc, status, quiz);
    var out := [];
    for i := 0 to |chosen|
      invariant out == MapSeq(entry, chosen[..i])
      invariant AllSerialisable(chosen[..i], "questions", fib, mc)
    {
      if !Serialisable(PopulateQuestions(chosen[i], "questions", fib, mc), "questions") {
        AllSerialisableFails(chosen, i, "questions", fib, mc);
        return Fails;
      }
      AllSerialisableStep(chosen, i, "questions", fib, mc);
      MapSeqSnoc(entry, chosen, i);
      out := out + [entry(chosen[i])];
    }
    assert chosen[..|chosen|] == chosen;
    r := Ok(out);
  }

  /** `GET /api/quiz/get-list/:type`: the question quizzes of the user's
      classes split on the completion markers, as `Entries` lists them. */
  method GetList(db: Db, u: Oid, domain: string, listType: Json, perClass: seq<seq<Listing.Listed>>)
    returns (r: Reply<seq<Doc>>)
    requires u in db.users
    ensures r.Ok? || r.Fails?
    ensures r.Ok? <==> AllSerialisable(Picked(perClass, db.users[u], QuizTag, listType), "questions",
                                       db.fillInBlanks, db.multipleChoices)
    ensures var fib, mc := db.fillInBlanks, db.multipleChoices;
            r.Ok? ==>
              r.value == MapSeq((quiz: Doc) => ListEntry(domain, fib, mc, StatusOf(listType), quiz),
                                Picked(perClass, db.users[u], QuizTag, listType))
  {
    r := Entries(domain, db.fillInBlanks, db.multipleChoices, StatusOf(listType),
                 Picked(perClass, db.users[u], QuizTag, listType));
  }

  // ---------------------------------------------------------------------
  // PATCH /api/quiz/:id and /api/quiz/:quizId/:questionType/:questionId
  // ---------------------------------------------------------------------

  /** The quiz patch: a body naming `quizId` is refused before any lookup; a
      missing quiz answers 404 (the update that follows throws on `null` and
      changes nothing); a patch the quiz schema rejects is not saved;
      otherwise the declared fields are assigned. */
  method Patch(db: Db, u: Oid, quizId: Json, body: Doc) returns (r: Reply<Oid>)
    requires u in db.users
    modifies db`quizzes
    ensures r.Rejected? <==> !UserModel.IsAdmin(db.users[u]) || "quizId" in body
    ensures r.NotFound? <==> UserModel.IsAdmin(db.users[u]) && "quizId" !in body
                             && !HasMatch(old(db.quizzes), "quizId", quizId)
    ensures r.Fails? ==> exists q :: q in old(db.quizzes) && Get(old(db.quizzes)[q], "quizId") == quizId
                                     && !QuizModel.Valid(old(db.quizzes)[q] + Populate.Project(body, QuizModel.Paths))
    ensures !r.Ok? ==> unchanged(db)
    ensures r.Ok? ==> r.value in old(db.quizzes) && Get(old(db.quizzes)[r.value], "quizId") == quizId
    ensures r.Ok? ==> db.quizzes == old(db.quizzes)[r.value := old(db.quizzes)[r.value] + Populate.Project(body, QuizModel.Paths)]
    ensures r.Ok? ==> Get(db.quizzes[r.value], "quizId") == quizId && QuizModel.Valid(db.quizzes[r.value])
  {
    if !UserModel.IsAdmin(db.users[u]) || "quizId" in body {
      return Rejected;
    }
    var found := FindOne(db.quizzes, "quizId", quizId);
    if found.None? {
      return NotFound;
    }
    var updated := Logic.UpdateDocument(db.quizzes[found.value], body, QuizModel.Paths, QuizModel.Valid);
    if updated.None? {
      return Fails;
    }
    db.quizzes := db.quizzes[found.value := updated.value];
    r := Ok(found.value);
  }

  /** The question patch, with the belongs-to-quiz test as intended: the
      quiz's `questions` must refer to the question (the test as written
      is `QuizCommon.StrSome`); a patch the question's schema rejects is not
      saved. */
  method PatchQuestion(db: Db, u: Oid, quizId: Json, questionType: Json, question: Oid, body: Doc,
                       image: Option<seq<Byte>>) returns (r: Reply<Oid>)
    requires u in db.users
    modifies db`fillInBlanks, db`multipleChoices
    ensures !UserModel.IsAdmin(db.users[u]) ==> r.Rejected?
    ensures r.NotFound? <==> UserModel.IsAdmin(db.users[u])
                             && (!HasMatch(db.quizzes, "quizId", quizId) || question !in old(QuestionsIn(db, DocumentByType(questionType))))
    ensures r.Rejected? && UserModel.IsAdmin(db.users[u]) ==>
              exists q :: q in db.quizzes && Get(db.quizzes[q], "quizId") == quizId
                          && !Lists(Items(Get(db.quizzes[q], "questions")), question)
    ensures var m := DocumentByType(questionType);
            r.Fails? ==> UserModel.IsAdmin(db.users[u]) && question in old(QuestionsIn(db, m))
                         && !QuestionValid(m, PatchedQuestion(m, old(QuestionsIn(db, m))[question], QuestionData(body, image)))
    ensures var m := DocumentByType(questionType);
            UserModel.IsAdmin(db.users[u]) && HasMatch(db.quizzes, "quizId", quizId) && question in old(QuestionsIn(db, m))
            && !QuestionValid(m, PatchedQuestion(m, old(QuestionsIn(db, m))[question], QuestionData(body, image)))
            ==> r.Fails? || r.Rejected?
    ensures !r.Ok? ==> unchanged(db)
    ensures r.Ok? ==>
              UserModel.IsAdmin(db.users[u]) && r.value in db.quizzes
              && Get(db.quizzes[r.value], "quizId") == quizId
              && Lists(Items(Get(db.quizzes[r.value], "questions")), question)
    ensures r.Ok? ==> var m := DocumentByType(questionType);
              question in old(QuestionsIn(db, m))
              && QuestionsIn(db, m) == old(QuestionsIn(db, m))[question :=
                   PatchedQuestion(m, old(QuestionsIn(db, m))[question], QuestionData(body, image))]
              && QuestionValid(m, QuestionsIn(db, m)[question])
              && (m == FillInBlank ==> db.multipleChoices == old(db.multipleChoices))
              && (m == MultipleChoice ==> db.fillInBlanks == old(db.fillInBlanks))
  {
    if !UserModel.IsAdmin(db.users[u]) {
      return Rejected;
    }
    var found := FindOne(db.quizzes, "quizId", quizId);
    var m := DocumentByType(questionType);
    if found.None? || question !in QuestionsIn(db, m) {
      return NotFound;
    }
    var q := found.value;
    var patched := PatchListedQuestion(db, m, Items(Get(db.quizzes[q], "questions")), question, QuestionData(body, image));
    if patched.Rejected? {
      assert q in db.quizzes && Get(db.quizzes[q], "quizId") == quizId;
      return Rejected;
    }
    if patched.Fails? {
      return Fails;
    }
    r := Ok(q);
  }

  // ---------------------------------------------------------------------
  // DELETE /api/quiz/:id
  // ---------------------------------------------------------------------

  /** `findOneAndDelete` and the question cascade, which both deletes run. */
  method RemoveQuiz(db: Db, quizId: Json) returns (found: Option<Oid>, quiz: Doc)
    modifies db`quizzes, db`fillInBlanks, db`multipleChoices
    ensures found.None? <==> !HasMatch(old(db.quizzes), "quizId", quizId)
    ensures found.None? ==> unchanged(db)
    ensures found.Some? ==>
              found.value in old(db.quizzes) && quiz == old(db.quizzes)[found.value]
              && Get(quiz, "quizId") == quizId
              && db.quizzes == old(db.quizzes) - {found.value}
              && db.fillInBlanks == old(db.fillInBlanks) - QuestionIds(Items(Get(quiz, "questions")), FillInBlank)
              && db.multipleChoices == old(db.multipleChoices) - QuestionIds(Items(Get(quiz, "questions")), MultipleChoice)
  {
    quiz := map[];
    found := FindOne(db.quizzes, "quizId", quizId);
    if found.None? {
      return;
    }
    quiz := db.quizzes[found.value];
    db.quizzes := db.quizzes - {found.value};
    var fib, mc := DeleteQuestions(db.fillInBlanks, db.multipleChoices, Items(Get(quiz, "questions")));
    db.fillInBlanks, db.multipleChoices := fib, mc;
  }

  /** The delete as written: the quiz and its questions are gone, then
      `quiz.class.forEach` throws, because a quiz's `class` is one string
      (or absent), never an array; the handler answers 500 and no class is
      cleaned. */
  method DeleteAsWritten(db: Db, u: Oid, quizId: Json) returns (r: Reply<()>)
    requires u in db.users
    modifies db`quizzes, db`fillInBlanks, db`multipleChoices
    ensures !r.Ok?
    ensures r.Rejected? <==> !UserModel.IsAdmin(db.users[u])
    ensures r.NotFound? <==> UserModel.IsAdmin(db.users[u]) && !HasMatch(old(db.quizzes), "quizId", quizId)
    ensures !r.Fails? ==> unchanged(db)
    ensures r.Fails? ==> exists q :: q in old(db.quizzes) && Get(old(db.quizzes)[q], "quizId") == quizId
                                     && db.quizzes == old(db.quizzes) - {q}
                                     && db.fillInBlanks == old(db.fillInBlanks)
                                          - QuestionIds(Items(Get(old(db.quizzes)[q], "questions")), FillInBlank)
                                     && db.multipleChoices == old(db.multipleChoices)
                                          - QuestionIds(Items(Get(old(db.quizzes)[q], "questions")), MultipleChoice)
  {
    if !UserModel.IsAdmin(db.users[u]) {
      return Rejected;
    }
    var found, quiz := RemoveQuiz(db, quizId);
    if found.None? {
      return NotFound;
    }
    assert old(db.quizzes)[found.value] == quiz;
    r := Fails;
  }

  /** The class ids a question quiz names: its one `class` string, if set. */
  function ClassIds(quiz: Doc): (r: seq<Json>)
    ensures |r| <= 1
    ensures forall id :: id in r <==> Get(quiz, "class").Str? && id == Get(quiz, "class")
  {
    if Get(quiz, "class").Str? then [Get(quiz, "class")] else []
  }

  /** The delete as intended: the quiz and its questions are gone, and the
      class named by the quiz's `class` has the quiz dropped from its quiz
      list (as `findOne` finds it). */
  method Delete(db: Db, u: Oid, quizId: Json) returns (r: Reply<Oid>)
    requires u in db.users
    modifies db`quizzes, db`fillInBlanks, db`multipleChoices, db`classes
    ensures !r.Fails?
    ensures r.Rejected? <==> !UserModel.IsAdmin(db.users[u])
    ensures r.NotFound? <==> UserModel.IsAdmin(db.users[u]) && !HasMatch(old(db.quizzes), "quizId", quizId)
    ensures !r.Ok? ==> unchanged(db)
    ensures r.Ok? ==>
              r.value in old(db.quizzes) && Get(old(db.quizzes)[r.value], "quizId") == quizId
              && db.quizzes == old(db.quizzes) - {r.value}
    ensures r.Ok? ==> var entries := Items(Get(old(db.quizzes)[r.value], "questions"));
              db.fillInBlanks == old(db.fillInBlanks) - QuestionIds(entries, FillInBlank)
              && db.multipleChoices == old(db.multipleChoices) - QuestionIds(entries, MultipleChoice)
    ensures r.Ok? ==> db.classes.Keys == old(db.classes).Keys
    ensures r.Ok? ==> forall c :: c in old(db.classes) ==>
              db.classes[c] == old(db.classes)[c]
              || (db.classes[c] == WithoutQuiz(old(db.classes)[c], r.value)
                  && Get(old(db.classes)[c], "classId") in ClassIds(old(db.quizzes)[r.value]))
    ensures r.Ok? ==> forall id :: id in ClassIds(old(db.quizzes)[r.value])
                                   && HasMatch(old(db.classes), "classId", id) ==>
              exists c :: c in old(db.classes) && Get(old(db.classes)[c], "classId") == id
                          && db.classes[c] == WithoutQuiz(old(db.classes)[c], r.value)
  {
    if !UserModel.IsAdmin(db.users[u]) {
      return Rejected;
    }
    var found, quiz := RemoveQuiz(db, quizId);
    if found.None? {
      return NotFound;
    }
    var ids := ClassIds(quiz);
    var classes, picks := DropQuizFromClasses(db.classes, ids, found.value);
    forall c | c in db.classes && Some(c) in picks
      ensures Get(db.classes[c], "classId") in ids
    {
      var i :| 0 <= i < |picks| && picks[i] == Some(c);
    }
    forall id | id in ids && HasMatch(db.classes, "classId", id)
      ensures exists c :: c in db.classes && Get(db.classes[c], "classId") == id
                          && classes[c] == WithoutQuiz(db.classes[c], found.value)
    {
      var i :| 0 <= i < |ids| && ids[i] == id;
      assert picks[i] in picks;
    }
    db.classes := classes;
    r := Ok(found.value);
  }
}
