/** The picture-quiz handlers of src/routers/pic-quiz.js: submit with its
    attempt limit, the need-to-do and finished lists, new question, the quiz
    and question patches, and the delete cascade. */
module PicQuizRouter {
  import opened Json
  import opened Store
  import opened QuestionDispatch
  import opened QuizCommon
  import UserModel
  import Logic
  import Listing
  import PicQuizModel
  import PicQuizWorkModel

  /** The tag of a picture quiz in a class's quiz list. */
  const PicQuizTag: Json := Str("PicQuizz")

  // ---------------------------------------------------------------------
  // POST /api/pic-quiz/:id/new-question
  // ---------------------------------------------------------------------

  /** The question is saved first, and a question its schema rejects
      answers 400 before any quiz is looked up; a missing quiz removes the
      saved question again and answers 404, otherwise one entry for it joins
      `smallQuestions`. */
  method NewQuestion(db: Db, u: Oid, quizId: Json, body: Doc, image: Option<seq<Byte>>) returns (r: Reply<Added>)
    requires u in db.users
    modifies db`picQuizzes, db`fillInBlanks, db`multipleChoices
    ensures r.Rejected? <==> !UserModel.IsAdmin(db.users[u])
    ensures var m := DocumentByType(Get(body, "questionType"));
            r.Fails? <==> UserModel.IsAdmin(db.users[u]) && !QuestionValid(m, BuiltQuestion(m, QuestionData(body, image)))
    ensures var m := DocumentByType(Get(body, "questionType"));
            r.NotFound? <==> UserModel.IsAdmin(db.users[u]) && QuestionValid(m, BuiltQuestion(m, QuestionData(body, image)))
                             && !HasMatch(old(db.picQuizzes), "quizId", quizId)
    ensures !r.Ok? ==> unchanged(db)
    ensures r.Ok? ==> r.value.quiz in old(db.picQuizzes) && Get(old(db.picQuizzes)[r.value.quiz], "quizId") == quizId
    ensures r.Ok? ==> db.picQuizzes == old(db.picQuizzes)[r.value.quiz :=
              Append(old(db.picQuizzes)[r.value.quiz], "smallQuestions", QuestionEntry(r.value.question, Get(body, "questionType")))]
    ensures r.Ok? ==> var m := DocumentByType(Get(body, "questionType"));
              r.value.question !in old(QuestionsIn(db, m))
              && QuestionsIn(db, m) == old(QuestionsIn(db, m))[r.value.question := BuiltQuestion(m, QuestionData(body, image))]
              && QuestionValid(m, QuestionsIn(db, m)[r.value.question])
              && (m == FillInBlank ==> db.multipleChoices == old(db.multipleChoices))
              && (m == MultipleChoice ==> db.fillInBlanks == old(db.fillInBlanks))
  {
    if !UserModel.IsAdmin(db.users[u]) {
      return Rejected;
    }
    r := AddQuestion(db, quizId, Get(body, "questionType"), QuestionData(body, image));
  }

  /** The admin's part of the handler above: save the question, then attach
      it to the quiz found by `quizId` or take it back when there is none. */
  method AddQuestion(db: Db, quizId: Json, questionType: Json, data: Doc) returns (r: Reply<Added>)
    modifies db`picQuizzes, db`fillInBlanks, db`multipleChoices
    ensures var m := DocumentByType(questionType);
            r.Fails? <==> !QuestionValid(m, BuiltQuestion(m, data))
    ensures var m := DocumentByType(questionType);
            r.NotFound? <==> QuestionValid(m, BuiltQuestion(m, data)) && !HasMatch(old(db.picQuizzes), "quizId", quizId)
    ensures !r.Rejected?
    ensures !r.Ok? ==> unchanged(db)
    ensures r.Ok? ==> r.value.quiz in old(db.picQuizzes) && Get(old(db.picQuizzes)[r.value.quiz], "quizId") == quizId
    ensures r.Ok? ==> db.picQuizzes == old(db.picQuizzes)[r.value.quiz :=
              Append(old(db.picQuizzes)[r.value.quiz], "smallQuestions", QuestionEntry(r.value.question, questionType))]
    ensures r.Ok? ==> var m := DocumentByType(questionType);
              r.value.question !in old(QuestionsIn(db, m))
              && QuestionsIn(db, m) == old(QuestionsIn(db, m))[r.value.question := BuiltQuestion(m, data)]
              && QuestionValid(m, QuestionsIn(db, m)[r.value.question])
              && (m == FillInBlank ==> db.multipleChoices == old(db.multipleChoices))
              && (m == MultipleChoice ==> db.fillInBlanks == old(db.fillInBlanks))
  {
    var m := DocumentByType(questionType);
    var saved := SaveQuestion(db, m, data);
    if saved.None? {
      return Fails;
    }
    var question := saved.value;
    r := LinkQuestion(db, quizId, questionType, m, question);
    if r.NotFound? {
      RemoveAdded(old(QuestionsIn(db, m)), question, BuiltQuestion(m, data));
      if m == FillInBlank {
        assert db.fillInBlanks == old(db.fillInBlanks);
      } else {
        assert db.multipleChoices == old(db.multipleChoices);
      }
    }
  }

  /** The rest of the handler once the question is saved: one entry for it
      joins the quiz found by `quizId`, or it is removed again when there is
      no such quiz. */
  method LinkQuestion(db: Db, quizId: Json, questionType: Json, m: Model, question: Oid) returns (r: Reply<Added>)
    modifies db`picQuizzes, db`fillInBlanks, db`multipleChoices
    ensures r.Ok? || r.NotFound?
    ensures r.NotFound? <==> !HasMatch(old(db.picQuizzes), "quizId", quizId)
    ensures r.NotFound? ==> db.picQuizzes == old(db.picQuizzes) && QuestionsIn(db, m) == old(QuestionsIn(db, m)) - {question}
    ensures r.Ok? ==> QuestionsIn(db, m) == old(QuestionsIn(db, m))
    ensures r.Ok? ==> r.value.question == question && r.value.quiz in old(db.picQuizzes)
                      && Get(old(db.picQuizzes)[r.value.quiz], "quizId") == quizId
                      && db.picQuizzes == old(db.picQuizzes)[r.value.quiz :=
                           Append(old(db.picQuizzes)[r.value.quiz], "smallQuestions", QuestionEntry(question, questionType))]
    ensures m == FillInBlank ==> db.multipleChoices == old(db.multipleChoices)
    ensures m == MultipleChoice ==> db.fillInBlanks == old(db.fillInBlanks)
  {
    var found := FindOne(db.picQuizzes, "quizId", quizId);
    if found.None? {
      RemoveQuestion(db, m, question);
      return NotFound;
    }
    var q := found.value;
    db.picQuizzes := db.picQuizzes[q := Append(db.picQuizzes[q], "smallQuestions", QuestionEntry(question, questionType))];
    r := Ok(Added(q, question));
  }

  // ---------------------------------------------------------------------
  // POST /api/pic-quiz/submit/:quizId
  // ---------------------------------------------------------------------

  /** The work a submit stores: the body, then the submitter as `author` and
      the try number as `tryCount`, which the work schema drops. */
  function SubmittedWork(body: Doc, u: Oid, tryNumber: nat): Doc {
    PicQuizWorkModel.NewWork(body["author" := Ref(u)]["tryCount" := Num(tryNumber)])
  }

  /** The submitter's prior tries at the quiz. */
  function Tries(works: map<Oid, Doc>, users: map<Oid, Doc>, u: Oid, quiz: Doc): Option<nat>
    requires u in users
  {
    PriorTries(Items(Get(quiz, "studentWorks")), works, users, Get(users[u], "account"))
  }

  /** The submit once the quiz `q` is found: the try number computed, the
      attempt limit enforced, then the work created (`stored`), attached and
      the quiz marked taken. */
  method SubmitTo(db: Db, u: Oid, q: Oid, body: Doc) returns (r: Reply<Attempt>, stored: Option<Oid>, tries: Option<nat>)
    requires u in db.users && q in db.picQuizzes
    modifies db`picQuizzes, db`picQuizWorks, db`users
    ensures tries == Tries(old(db.picQuizWorks), old(db.users), u, old(db.picQuizzes[q]))
    ensures !r.NotFound?
    ensures tries.None? ==> r.Fails? && unchanged(db)
    ensures r.Rejected? <==> tries.Some? && OutOfAttempts(tries.value + 1, Get(old(db.picQuizzes[q]), "numberOfAttempt"))
    ensures r.Rejected? ==> unchanged(db)
    ensures stored.Some? <==> r.Ok? || (r.Fails? && tries.Some?)
    ensures stored.Some? ==>
              stored.value !in old(db.picQuizWorks)
              && db.picQuizWorks == old(db.picQuizWorks)[stored.value := SubmittedWork(body, u, tries.value + 1)]
              && db.picQuizzes == old(db.picQuizzes)[q := Logic.AttachWork(old(db.picQuizzes[q]), stored.value)]
    ensures stored.Some? ==> (r.Ok? <==> UserModel.TakenQuizTypeValid(Get(old(db.picQuizzes[q]), "quizType")))
    ensures r.Ok? ==>
              r.value == Attempt(q, stored.value, tries.value + 1)
              && db.users == old(db.users)[u := Logic.RecordTaken(old(db.users[u]), q, Get(old(db.picQuizzes[q]), "quizType"))]
    ensures r.Fails? ==> db.users == old(db.users)
  {
    stored := None;
    var quiz := db.picQuizzes[q];
    tries := Tries(db.picQuizWorks, db.users, u, quiz);
    if tries.None? {
      return Fails, stored, tries;
    }
    var tryNumber := tries.value + 1;
    if OutOfAttempts(tryNumber, Get(quiz, "numberOfAttempt")) {
      return Rejected, stored, tries;
    }
    var w;
    r, w := StoreAttempt(db, u, q, quiz, body, tryNumber);
    stored := Some(w);
  }

  /** `new PicQuizWork(...).save()`: the submitted work under a fresh id. */
  method StoreWork(db: Db, u: Oid, body: Doc, tryNumber: nat) returns (w: Oid)
    modifies db`picQuizWorks
    ensures w !in old(db.picQuizWorks) && db.picQuizWorks == old(db.picQuizWorks)[w := SubmittedWork(body, u, tryNumber)]
  {
    var works;
    w, works := Logic.CreateDocument(db.picQuizWorks, PicQuizWorkModel.WorkDefaults,
                                     body["author" := Ref(u)]["tryCount" := Num(tryNumber)], PicQuizWorkModel.WorkPaths);
    db.picQuizWorks := works;
  }

  /** The work stored under a fresh id, attached to quiz `q`, and the quiz
      marked taken for the submitter. */
  method StoreAttempt(db: Db, u: Oid, q: Oid, quiz: Doc, body: Doc, tryNumber: nat) returns (r: Reply<Attempt>, w: Oid)
    requires u in db.users && q in db.picQuizzes
    modifies db`picQuizzes, db`picQuizWorks, db`users
    ensures r.Ok? || r.Fails?
    ensures w !in old(db.picQuizWorks) && db.picQuizWorks == old(db.picQuizWorks)[w := SubmittedWork(body, u, tryNumber)]
    ensures db.picQuizzes == old(db.picQuizzes)[q := Logic.AttachWork(quiz, w)]
    ensures r.Ok? <==> UserModel.TakenQuizTypeValid(Get(quiz, "quizType"))
    ensures r.Ok? ==> r.value == Attempt(q, w, tryNumber)
                      && db.users == old(db.users)[u := Logic.RecordTaken(old(db.users[u]), q, Get(quiz, "quizType"))]
    ensures r.Fails? ==> db.users == old(db.users)
  {
    w := StoreWork(db, u, body, tryNumber);
    var attached := Logic.AttachWork(quiz, w);
    assert Get(attached, "quizType") == Get(quiz, "quizType");
    var quizzes := db.picQuizzes[q := attached];
    db.picQuizzes := quizzes;
    var marked := Logic.InjectQuizToUser(db, q, attached, u);
    assert db.picQuizzes == quizzes;
    r := if marked.Ok? then Ok(Attempt(q, w, tryNumber)) else Fails;
  }

  /** `POST /api/pic-quiz/submit/:quizId`. */
  method Submit(db: Db, u: Oid, quizId: Json, body: Doc) returns (r: Reply<Attempt>)
    requires u in db.users
    modifies db`picQuizzes, db`picQuizWorks, db`users
    ensures r.NotFound? <==> !HasMatch(old(db.picQuizzes), "quizId", quizId)
    ensures r.NotFound? || r.Rejected? ==> unchanged(db)
    ensures r.Ok? ==> r.value.quiz in old(db.picQuizzes) && Get(old(db.picQuizzes)[r.value.quiz], "quizId") == quizId
    ensures r.Ok? ==>
              Tries(old(db.picQuizWorks), old(db.users), u, old(db.picQuizzes)[r.value.quiz]) == Some(r.value.tryNumber - 1)
              && !OutOfAttempts(r.value.tryNumber, Get(old(db.picQuizzes)[r.value.quiz], "numberOfAttempt"))
    ensures r.Ok? ==>
              r.value.work !in old(db.picQuizWorks)
              && db.picQuizWorks == old(db.picQuizWorks)[r.value.work := SubmittedWork(body, u, r.value.tryNumber)]
              && db.picQuizzes == old(db.picQuizzes)[r.value.quiz := Logic.AttachWork(old(db.picQuizzes)[r.value.quiz], r.value.work)]
              && db.users == old(db.users)[u := Logic.RecordTaken(old(db.users[u]), r.value.quiz,
                                                                  Get(old(db.picQuizzes)[r.value.quiz], "quizType"))]
  {
    var found := FindOne(db.picQuizzes, "quizId", quizId);
    if found.None? {
      return NotFound;
    }
    var stored, tries;
    r, stored, tries := SubmitTo(db, u, found.value, body);
  }

  // ---------------------------------------------------------------------
  // GET /api/pic-quiz/get-list/:type
  // ---------------------------------------------------------------------

  /** One entry of a list: the quiz with its questions populated,
      serialised by `toJSON` and labelled with the list's status. */
  function ListEntry(domain: string, fib: map<Oid, Doc>, mc: map<Oid, Doc>, status: string, quiz: Doc): Doc {
    Listing.WithStatus(PicQuizModel.QuizView(domain, PopulateQuestions(quiz, "smallQuestions", fib, mc)), status)
  }

  /** A listed quiz shows its status and the quiz image's URL instead of the
      image; every other field but the question list is the quiz's own. */
  lemma ListEntryShows(domain: string, fib: map<Oid, Doc>, mc: map<Oid, Doc>, status: string, quiz: Doc)
    ensures var e := ListEntry(domain, fib, mc, status, quiz);
            Get(e, "status") == Str(status) && "bigQuestionImage" !in e
            && Get(e, "bigQuestionImageURL") == Str(PicQuizModel.BigImageURL(domain, Get(quiz, "quizId")))
            && forall k :: k !in {"bigQuestionImage", "bigQuestionImageURL", "smallQuestions", "status"} ==>
                 Get(e, k) == Get(quiz, k)
  {
  }

  /** The handler's `map(toJSON)` and `forEach` over the chosen quizzes:
      each populated, serialised and labelled, in order; the serialiser throws
      on an entry whose question is missing. */
  method Entries(domain: string, fib: map<Oid, Doc>, mc: map<Oid, Doc>, status: string, chosen: seq<Doc>)
    returns (r: Reply<seq<Doc>>)
    ensures r.Ok? || r.Fails?
    ensures r.Ok? <==> AllSerialisable(chosen, "smallQuestions", fib, mc)
    ensures r.Ok? ==> r.value == MapSeq((quiz: Doc) => ListEntry(domain, fib, mc, status, quiz), chosen)
  {
    var entry := (quiz: Doc) => ListEntry(domain, fib, mc, status, quiz);
    var out := [];
    for i := 0 to |chosen|
      invariant out == MapSeq(entry, chosen[..i])
      invariant AllSerialisable(chosen[..i], "smallQuestions", fib, mc)
    {
      if !Serialisable(PopulateQuestions(chosen[i], "smallQuestions", fib, mc), "smallQuestions") {
        AllSerialisableFails(chosen, i, "smallQuestions", fib, mc);
        return Fails;
      }
      AllSerialisableStep(chosen, i, "smallQuestions", fib, mc);
      MapSeqSnoc(entry, chosen, i);
      out := out + [entry(chosen[i])];
    }
    assert chosen[..|chosen|] == chosen;
    r := Ok(out);
  }

  /** `GET /api/pic-quiz/get-list/:type`: the picture quizzes of the user's
      classes split on the completion markers, as `Entries` lists them. */
  method GetList(db: Db, u: Oid, domain: string, listType: Json, perClass: seq<seq<Listing.Listed>>)
    returns (r: Reply<seq<Doc>>)
    requires u in db.users
    ensures r.Ok? || r.Fails?
    ensures r.Ok? <==> AllSerialisable(Picked(perClass, db.users[u], PicQuizTag, listType), "smallQuestions",
                                       db.fillInBlanks, db.multipleChoices)
    ensures var fib, mc := db.fillInBlanks, db.multipleChoices;
            r.Ok? ==>
              r.value == MapSeq((quiz: Doc) => ListEntry(domain, fib, mc, StatusOf(listType), quiz),
                                Picked(perClass, db.users[u], PicQuizTag, listType))
  {
    r := Entries(domain, db.fillInBlanks, db.multipleChoices, StatusOf(listType),
                 Picked(perClass, db.users[u], PicQuizTag, listType));
  }

  // ---------------------------------------------------------------------
  // PATCH /api/pic-quiz/:id and /api/pic-quiz/:quizId/:questionType/:questionId
  // ---------------------------------------------------------------------

  /** The patch's fields: the body, with the uploaded quiz image (already
      resized) as `bigQuestionImage` when there is one. */
  function PatchData(body: Doc, image: Option<seq<Byte>>): Doc {
    if image.Some? then body["bigQuestionImage" := Bin(image.value)] else body
  }

  /** The quiz patch: a body naming `quizId` is refused before any lookup; a
      missing quiz answers 404 (the update that follows throws on `null` and
      changes nothing); a patch the quiz schema rejects is not saved;
      otherwise the declared fields are assigned. */
  method Patch(db: Db, u: Oid, quizId: Json, body: Doc, image: Option<seq<Byte>>) returns (r: Reply<Oid>)
    requires u in db.users
    modifies db`picQuizzes
    ensures r.Rejected? <==> !UserModel.IsAdmin(db.users[u]) || "quizId" in body
    ensures r.NotFound? <==> UserModel.IsAdmin(db.users[u]) && "quizId" !in body
                             && !HasMatch(old(db.picQuizzes), "quizId", quizId)
    ensures r.Fails? ==> exists q :: q in old(db.picQuizzes) && Get(old(db.picQuizzes)[q], "quizId") == quizId
                                     && !PicQuizModel.Valid(old(db.picQuizzes)[q] + Populate.Project(PatchData(body, image), PicQuizModel.Paths))
    ensures !r.Ok? ==> unchanged(db)
    ensures r.Ok? ==> r.value in old(db.picQuizzes) && Get(old(db.picQuizzes)[r.value], "quizId") == quizId
    ensures r.Ok? ==> db.picQuizzes == old(db.picQuizzes)[r.value := old(db.picQuizzes)[r.value] + Populate.Project(PatchData(body, image), PicQuizModel.Paths)]
    ensures r.Ok? ==> Get(db.picQuizzes[r.value], "quizId") == quizId && PicQuizModel.Valid(db.picQuizzes[r.value])
  {
    if !UserModel.IsAdmin(db.users[u]) || "quizId" in body {
      return Rejected;
    }
    var found := FindOne(db.picQuizzes, "quizId", quizId);
    if found.None? {
      return NotFound;
    }
    var updated := Logic.UpdateDocument(db.picQuizzes[found.value], PatchData(body, image), PicQuizModel.Paths, PicQuizModel.Valid);
    if updated.None? {
      return Fails;
    }
    db.picQuizzes := db.picQuizzes[found.value := updated.value];
    r := Ok(found.value);
  }

  /** The question patch, with the belongs-to-quiz test as intended: the
      quiz's `smallQuestions` must refer to the question (the test as written
      is `QuizCommon.StrSome`); a patch the question's schema rejects is not
      saved. */
  method PatchQuestion(db: Db, u: Oid, quizId: Json, questionType: Json, question: Oid, body: Doc,
                       image: Option<seq<Byte>>) returns (r: Reply<Oid>)
    requires u in db.users
    modifies db`fillInBlanks, db`multipleChoices
    ensures !UserModel.IsAdmin(db.users[u]) ==> r.Rejected?
    ensures r.NotFound? <==> UserModel.IsAdmin(db.users[u])
                             && (!HasMatch(db.picQuizzes, "quizId", quizId) || question !in old(QuestionsIn(db, DocumentByType(questionType))))
    ensures r.Rejected? && UserModel.IsAdmin(db.users[u]) ==>
              exists q :: q in db.picQuizzes && Get(db.picQuizzes[q], "quizId") == quizId
                          && !Lists(Items(Get(db.picQuizzes[q], "smallQuestions")), question)
    ensures var m := DocumentByType(questionType);
            r.Fails? ==> UserModel.IsAdmin(db.users[u]) && question in old(QuestionsIn(db, m))
                         && !QuestionValid(m, PatchedQuestion(m, old(QuestionsIn(db, m))[question], QuestionData(body, image)))
    ensures var m := DocumentByType(questionType);
            UserModel.IsAdmin(db.users[u]) && HasMatch(db.picQuizzes, "quizId", quizId) && question in old(QuestionsIn(db, m))
            && !QuestionValid(m, PatchedQuestion(m, old(QuestionsIn(db, m))[question], QuestionData(body, image)))
            ==> r.Fails? || r.Rejected?
    ensures !r.Ok? ==> unchanged(db)
    ensures r.Ok? ==>
              UserModel.IsAdmin(db.users[u]) && r.value in db.picQuizzes
              && Get(db.picQuizzes[r.value], "quizId") == quizId
              && Lists(Items(Get(db.picQuizzes[r.value], "smallQuestions")), question)
    ensures r.Ok? ==> var m := DocumentByType(questionType);
              question in old(QuestionsIn(db, m))
              && QuestionsIn(db, m) == old(QuestionsIn(db, m))[question :=
                   PatchedQuestion(m, old(QuestionsIn(db, m))[question], QuestionData(body, image))]
              && QuestionValid(m, QuestionsIn(db, m)[question])
              && (m == FillInBlank ==> db.multipleChoices == old(db.multipleChoices))
              && (m == MultipleChoice ==> db.fillInBlanks == old(db.fillInBlanks))
  {
    if !UserModel.IsAdmin(db.users[u]) {
      return Rejected;
    }
    var found := FindOne(db.picQuizzes, "quizId", quizId);
    var m := DocumentByType(questionType);
    if found.None? || question !in QuestionsIn(db, m) {
      return NotFound;
    }
    var q := found.value;
    var patched := PatchListedQuestion(db, m, Items(Get(db.picQuizzes[q], "smallQuestions")), question, QuestionData(body, image));
    if patched.Rejected? {
      assert q in db.picQuizzes && Get(db.picQuizzes[q], "quizId") == quizId;
      return Rejected;
    }
    if patched.Fails? {
      return Fails;
    }
    r := Ok(q);
  }

  // ---------------------------------------------------------------------
  // DELETE /api/pic-quiz/:id
  // ---------------------------------------------------------------------

  /** `findOneAndDelete` and the question cascade, which both deletes run. */
  method RemoveQuiz(db: Db, quizId: Json) returns (found: Option<Oid>, quiz: Doc)
    modifies db`picQuizzes, db`fillInBlanks, db`multipleChoices
    ensures found.None? <==> !HasMatch(old(db.picQuizzes), "quizId", quizId)
    ensures found.None? ==> unchanged(db)
    ensures found.Some? ==>
              found.value in old(db.picQuizzes) && quiz == old(db.picQuizzes)[found.value]
              && Get(quiz, "quizId") == quizId
              && db.picQuizzes == old(db.picQuizzes) - {found.value}
              && db.fillInBlanks == old(db.fillInBlanks) - QuestionIds(Items(Get(quiz, "smallQuestions")), FillInBlank)
              && db.multipleChoices == old(db.multipleChoices) - QuestionIds(Items(Get(quiz, "smallQuestions")), MultipleChoice)
  {
    quiz := map[];
    found := FindOne(db.picQuizzes, "quizId", quizId);
    if found.None? {
      return;
    }
    quiz := db.picQuizzes[found.value];
    db.picQuizzes := db.picQuizzes - {found.value};
    var fib, mc := DeleteQuestions(db.fillInBlanks, db.multipleChoices, Items(Get(quiz, "smallQuestions")));
    db.fillInBlanks, db.multipleChoices := fib, mc;
  }

  /** The delete as written: the quiz and its questions are gone, then
      `quiz.class.forEach` throws, because a picture quiz keeps its classes
      in `classes`; the handler answers 500 and no class is cleaned. */
  method DeleteAsWritten(db: Db, u: Oid, quizId: Json) returns (r: Reply<()>)
    requires u in db.users
    modifies db`picQuizzes, db`fillInBlanks, db`multipleChoices
    ensures !r.Ok?
    ensures r.Rejected? <==> !UserModel.IsAdmin(db.users[u])
    ensures r.NotFound? <==> UserModel.IsAdmin(db.users[u]) && !HasMatch(old(db.picQuizzes), "quizId", quizId)
    ensures !r.Fails? ==> unchanged(db)
    ensures r.Fails? ==> exists q :: q in old(db.picQuizzes) && Get(old(db.picQuizzes)[q], "quizId") == quizId
                                     && db.picQuizzes == old(db.picQuizzes) - {q}
                                     && db.fillInBlanks == old(db.fillInBlanks)
                                          - QuestionIds(Items(Get(old(db.picQuizzes)[q], "smallQuestions")), FillInBlank)
                                     && db.multipleChoices == old(db.multipleChoices)
                                          - QuestionIds(Items(Get(old(db.picQuizzes)[q], "smallQuestions")), MultipleChoice)
  {
    if !UserModel.IsAdmin(db.users[u]) {
      return Rejected;
    }
    var found, quiz := RemoveQuiz(db, quizId);
    if found.None? {
      return NotFound;
    }
    assert old(db.picQuizzes)[found.value] == quiz;
    r := Fails;
  }

  /** The delete as intended: the quiz and its questions are gone, and every
      class named in the quiz's `classes` has the quiz dropped from its quiz
      list (one class per id, as `findOne` finds it). */
  method Delete(db: Db, u: Oid, quizId: Json) returns (r: Reply<Oid>)
    requires u in db.users
    modifies db`picQuizzes, db`fillInBlanks, db`multipleChoices, db`classes
    ensures !r.Fails?
    ensures r.Rejected? <==> !UserModel.IsAdmin(db.users[u])
    ensures r.NotFound? <==> UserModel.IsAdmin(db.users[u]) && !HasMatch(old(db.picQuizzes), "quizId", quizId)
    ensures !r.Ok? ==> unchanged(db)
    ensures r.Ok? ==>
              r.value in old(db.picQuizzes) && Get(old(db.picQuizzes)[r.value], "quizId") == quizId
              && db.picQuizzes == old(db.picQuizzes) - {r.value}
    ensures r.Ok? ==> var entries := Items(Get(old(db.picQuizzes)[r.value], "smallQuestions"));
              db.fillInBlanks == old(db.fillInBlanks) - QuestionIds(entries, FillInBlank)
              && db.multipleChoices == old(db.multipleChoices) - QuestionIds(entries, MultipleChoice)
    ensures r.Ok? ==> db.classes.Keys == old(db.classes).Keys
    ensures r.Ok? ==> forall c :: c in old(db.classes) ==>
              db.classes[c] == old(db.classes)[c]
              || (db.classes[c] == WithoutQuiz(old(db.classes)[c], r.value)
                  && Get(old(db.classes)[c], "classId") in Items(Get(old(db.picQuizzes)[r.value], "classes")))
    ensures r.Ok? ==> forall id :: id in Items(Get(old(db.picQuizzes)[r.value], "classes"))
                                   && HasMatch(old(db.classes), "classId", id) ==>
              exists c :: c in old(db.classes) && Get(old(db.classes)[c], "classId") == id
                          && db.classes[c] == WithoutQuiz(old(db.classes)[c], r.value)
  {
    if !UserModel.IsAdmin(db.users[u]) {
      return Rejected;
    }
    var found, quiz := RemoveQuiz(db, quizId);
    if found.None? {
      return NotFound;
    }
    var ids := Items(Get(quiz, "classes"));
    var classes, picks := DropQuizFromClasses(db.classes, ids, found.value);
    forall c | c in db.classes && Some(c) in picks
      ensures Get(db.classes[c], "classId") in ids
    {
      var i :| 0 <= i < |picks| && picks[i] == Some(c);
    }
    forall id | id in ids && HasMatch(db.classes, "classId", id)
      ensures exists c :: c in db.classes && Get(db.classes[c], "classId") == id
                          && classes[c] == WithoutQuiz(db.classes[c], found.value)
    {
      var i :| 0 <= i < |ids| && ids[i] == id;
      assert picks[i] in picks;
    }
    db.classes := classes;
    r := Ok(found.value);
  }
}
