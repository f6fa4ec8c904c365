/** The rules the picture-quiz and quiz routers (src/routers/pic-quiz.js and
    src/routers/quiz.js) share, handler for handler: the try number of a
    submit, the question entry a new question adds, the belongs-to-quiz test
    of a question patch, the question cascade and the class-list cleanup of a
    delete, and the population and labelling of the lists. */
module QuizCommon {
  import opened Json
  import opened Store
  import opened QuestionDispatch
  import Logic
  import Listing
  import Populate
  import ClassModel

  // ---------------------------------------------------------------------
  // Submit: the try number
  // ---------------------------------------------------------------------

  /** `work.author.account` once the works are populated with their authors'
      accounts: none where it throws, because the work has no author
      reference or its author no longer exists (populated to `null`). */
  function AuthorAccount(work: Doc, users: map<Oid, Doc>): Option<Json> {
    var author := Get(work, "author");
    if author.Ref? && author.id in users then Some(Get(users[author.id], "account")) else None
  }

  /** `quiz.studentWorks.filter(work => work.author.account === account).length`
      after populating: references to missing works drop out of the list, and
      the count is none when the filter throws on a remaining work. */
  function PriorTries(refs: seq<Json>, works: map<Oid, Doc>, users: map<Oid, Doc>, account: Json): (r: Option<nat>)
    ensures r.Some? ==> r.value <= |refs|
    ensures r.None? <==> exists i :: 0 <= i < |refs| && refs[i].Ref? && refs[i].id in works
                                     && AuthorAccount(works[refs[i].id], users).None?
    decreases |refs|
  {
    if refs == [] then Some(0)
    else
      var last := refs[|refs| - 1];
      assert forall i :: 0 <= i < |refs| - 1 ==> refs[..|refs| - 1][i] == refs[i];
      var before := PriorTries(refs[..|refs| - 1], works, users, account);
      if !(last.Ref? && last.id in works) then before
      else match AuthorAccount(works[last.id], users)
        case None => None
        case Some(a) =>
          if before.None? then None
          else Some(before.value + if a == account then 1 else 0)
  }

  /** A reference to a work that does not exist drops out when populated,
      so it leaves the count as it was. */
  lemma PriorTriesSkipsDangling(refs: seq<Json>, x: Json, works: map<Oid, Doc>, users: map<Oid, Doc>, account: Json)
    requires !(x.Ref? && x.id in works)
    ensures PriorTries(refs + [x], works, users, account) == PriorTries(refs, works, users, account)
  {
    assert (refs + [x])[..|refs|] == refs;
  }

  /** `curTry > quiz.numberOfAttempt`.  The schema casts the limit to a
      number, so it is a number, `null` (compared as 0) or absent (compared as
      NaN, which never refuses). */
  predicate OutOfAttempts(tryNumber: nat, limit: Json) {
    match limit
    case Num(n) => tryNumber > n
    case Null => tryNumber > 0
    case _ => false
  }

  /** A work that the quiz does not reference does not change the count. */
  lemma {:induction false} PriorTriesIgnoresUnreferenced(refs: seq<Json>, works: map<Oid, Doc>, users: map<Oid, Doc>,
                                                         account: Json, w: Oid, work: Doc)
    requires Ref(w) !in refs
    ensures PriorTries(refs, works[w := work], users, account) == PriorTries(refs, works, users, account)
    decreases |refs|
  {
    if refs != [] {
      PriorTriesIgnoresUnreferenced(refs[..|refs| - 1], works, users, account, w, work);
    }
  }

  /** An accepted submit raises the submitter's next try number by exactly
      one: the new work is stored and attached, and its author is the
      submitter.  Works by other accounts leave it as it was. */
  lemma NextTryNumber(quiz: Doc, works: map<Oid, Doc>, users: map<Oid, Doc>, u: Oid, w: Oid, work: Doc, account: Json)
    requires Ref(w) !in Items(Get(quiz, "studentWorks"))
    requires u in users && Get(work, "author") == Ref(u)
    ensures var before := PriorTries(Items(Get(quiz, "studentWorks")), works, users, account);
            var after := PriorTries(Items(Get(Logic.AttachWork(quiz, w), "studentWorks")), works[w := work], users, account);
            (after.Some? <==> before.Some?)
            && (after.Some? && account == Get(users[u], "account") ==> after.value == before.value + 1)
            && (after.Some? && account != Get(users[u], "account") ==> after.value == before.value)
  {
    var refs := Items(Get(quiz, "studentWorks"));
    var extended := Items(Get(Logic.AttachWork(quiz, w), "studentWorks"));
    assert extended == refs + [Ref(w)];
    assert extended[..|extended| - 1] == refs;
    PriorTriesIgnoresUnreferenced(refs, works, users, account, w, work);
  }

  /** What a submit answers once the quiz is found: the quiz, the new work
      and the try number it was accepted as. */
  datatype Attempt = Attempt(quiz: Oid, work: Oid, tryNumber: nat)

  // ---------------------------------------------------------------------
  // New question
  // ---------------------------------------------------------------------

  /** The schema defaults of a new question in each collection
      (src/models/fill-in-blank-question.js, src/models/multiple-choice-question.js). */
  function QuestionDefaults(m: Model): Doc {
    match m
    case FillInBlank => map["questionType" := Str("fill-in-blank")]
    case MultipleChoice => map["questionType" := Str("multiple-choice"), "options" := Arr([])]
  }

  /** The fields a request saves on a question: the body, with the uploaded
      image (already resized) as `questionImage` when there is one. */
  function QuestionData(body: Doc, image: Option<seq<Byte>>): Doc {
    if image.Some? then body["questionImage" := Bin(image.value)] else body
  }

  /** The entry `{ info, questionType }` that links a new question to its
      quiz.  It stores the model name of the request's short tag, so a later
      delete looks the question up in the collection it was built in. */
  function QuestionEntry(question: Oid, tag: Json): (r: Json)
    ensures Field(r, "info") == Ref(question)
    ensures DeleteTarget(Field(r, "questionType")) == DocumentByType(tag)
  {
    Obj(map["info" := Ref(question), "questionType" := Str(ModelNameByType(tag))])
  }

  /** What a new question answers: the quiz it joined and the question. */
  datatype Added = Added(quiz: Oid, question: Oid)

  /** `getDocumentByType(type, data)`: the declared fields of `data` over
      the defaults of the collection's schema. */
  function BuiltQuestion(m: Model, data: Doc): (r: Doc)
    ensures forall k :: k in data && k in QuestionPaths(m) ==> Get(r, k) == data[k]
    ensures forall k :: k !in QuestionPaths(m) ==> k !in r
  {
    QuestionDefaults(m) + Populate.Project(data, QuestionPaths(m))
  }

  /** Removing a document just stored under an unused id restores the
      collection. */
  lemma RemoveAdded(m: map<Oid, Doc>, id: Oid, d: Doc)
    requires id !in m
    ensures m[id := d] - {id} == m
  {
  }

  /** The question collection of a model. */
  function QuestionsIn(db: Db, m: Model): map<Oid, Doc>
    reads db
  {
    match m
    case FillInBlank => db.fillInBlanks
    case MultipleChoice => db.multipleChoices
  }

  /** `concreteQuestion.save()` of a new question: refused by validation, or
      stored under a fresh id in its model's collection. */
  method SaveQuestion(db: Db, m: Model, data: Doc) returns (id: Option<Oid>)
    modifies db`fillInBlanks, db`multipleChoices
    ensures id.None? <==> !QuestionValid(m, BuiltQuestion(m, data))
    ensures id.None? ==> unchanged(db)
    ensures id.Some? ==> id.value !in old(QuestionsIn(db, m))
                         && QuestionsIn(db, m) == old(QuestionsIn(db, m))[id.value := BuiltQuestion(m, data)]
    ensures m == FillInBlank ==> db.multipleChoices == old(db.multipleChoices)
    ensures m == MultipleChoice ==> db.fillInBlanks == old(db.fillInBlanks)
  {
    if !QuestionValid(m, BuiltQuestion(m, data)) {
      return None;
    }
    var created, stored;
    if m == FillInBlank {
      created, stored := Logic.CreateDocument(db.fillInBlanks, QuestionDefaults(m), data, QuestionPaths(m));
      db.fillInBlanks := stored;
    } else {
      created, stored := Logic.CreateDocument(db.multipleChoices, QuestionDefaults(m), data, QuestionPaths(m));
      db.multipleChoices := stored;
    }
    id := Some(created);
  }

  /** `concreteQuestion.remove()`. */
  method RemoveQuestion(db: Db, m: Model, id: Oid)
    modifies db`fillInBlanks, db`multipleChoices
    ensures QuestionsIn(db, m) == old(QuestionsIn(db, m)) - {id}
    ensures m == FillInBlank ==> db.multipleChoices == old(db.multipleChoices)
    ensures m == MultipleChoice ==> db.fillInBlanks == old(db.fillInBlanks)
  {
    if m == FillInBlank {
      db.fillInBlanks := db.fillInBlanks - {id};
    } else {
      db.multipleChoices := db.multipleChoices - {id};
    }
  }

  /** A stored question with the declared fields of `data` assigned. */
  function PatchedQuestion(m: Model, question: Doc, data: Doc): Doc {
    question + Populate.Project(data, QuestionPaths(m))
  }

  /** `updateDocument(question, data)` on a stored question: saved when the
      patched question passes its collection's validation, otherwise
      nothing changes. */
  method UpdateQuestion(db: Db, m: Model, id: Oid, data: Doc) returns (saved: bool)
    requires id in QuestionsIn(db, m)
    modifies db`fillInBlanks, db`multipleChoices
    ensures saved <==> QuestionValid(m, PatchedQuestion(m, old(QuestionsIn(db, m))[id], data))
    ensures !saved ==> unchanged(db)
    ensures saved ==> QuestionsIn(db, m) == old(QuestionsIn(db, m))[id := PatchedQuestion(m, old(QuestionsIn(db, m))[id], data)]
    ensures m == FillInBlank ==> db.multipleChoices == old(db.multipleChoices)
    ensures m == MultipleChoice ==> db.fillInBlanks == old(db.fillInBlanks)
  {
    var updated;
    if m == FillInBlank {
      updated := Logic.UpdateDocument(db.fillInBlanks[id], data, QuestionPaths(m), FillInBlankValid);
      if updated.Some? {
        db.fillInBlanks := db.fillInBlanks[id := updated.value];
      }
    } else {
      updated := Logic.UpdateDocument(db.multipleChoices[id], data, QuestionPaths(m), MultipleChoiceValid);
      if updated.Some? {
        db.multipleChoices := db.multipleChoices[id := updated.value];
      }
    }
    saved := updated.Some?;
  }
  /** The question patch once the quiz and the question are found: refused
      when the quiz's `entries` do not refer to the question, not saved when
      the patched question fails its validation. */
  method PatchListedQuestion(db: Db, m: Model, entries: seq<Json>, id: Oid, data: Doc) returns (r: Reply<()>)
    requires id in QuestionsIn(db, m)
    modifies db`fillInBlanks, db`multipleChoices
    ensures r.Ok? || r.Rejected? || r.Fails?
    ensures r.Rejected? <==> !Lists(entries, id)
    ensures r.Fails? <==> Lists(entries, id) && !QuestionValid(m, PatchedQuestion(m, old(QuestionsIn(db, m))[id], data))
    ensures !r.Ok? ==> unchanged(db)
    ensures r.Ok? ==> QuestionsIn(db, m) == old(QuestionsIn(db, m))[id := PatchedQuestion(m, old(QuestionsIn(db, m))[id], data)]
    ensures m == FillInBlank ==> db.multipleChoices == old(db.multipleChoices)
    ensures m == MultipleChoice ==> db.fillInBlanks == old(db.fillInBlanks)
  {
    if !Lists(entries, id) {
      return Rejected;
    }
    var saved := UpdateQuestion(db, m, id, data);
    r := if saved then Ok(()) else Fails;
  }


  // ---------------------------------------------------------------------
  // Question patch: does the question belong to the quiz?
  // ---------------------------------------------------------------------

  /** The quiz's question list refers to the question. */
  predicate Lists(entries: seq<Json>, question: Oid) {
    exists i :: 0 <= i < |entries| && Field(entries[i], "info") == Ref(question)
  }

  /** The test as written: `entries.some(e => e.info.str == question._id.str)`.
      An ObjectId has no `str` property, so both sides read `undefined`. */
  predicate StrSome(entries: seq<Json>, question: Json) {
    exists i :: 0 <= i < |entries| && Field(Field(entries[i], "info"), "str") == Field(question, "str")
  }

  /** As written, the test passes for every quiz that has a question at all,
      whichever question is asked about. */
  lemma StrSomeIsNonEmpty(entries: seq<Json>, question: Oid)
    requires forall i :: 0 <= i < |entries| ==> Field(entries[i], "info").Ref?
    ensures StrSome(entries, Ref(question)) <==> entries != []
  {
    if entries != [] {
      assert Field(Field(entries[0], "info"), "str") == Undefined == Field(Ref(question), "str");
    }
  }

  /** A quiz whose only question is question 1 passes the written test for
      question 2, which it does not list. */
  lemma ForeignQuestionPasses()
    ensures StrSome([QuestionEntry(1, FillInBlankTag)], Ref(2))
    ensures !Lists([QuestionEntry(1, FillInBlankTag)], 2)
  {
    StrSomeIsNonEmpty([QuestionEntry(1, FillInBlankTag)], 2);
  }

  // ---------------------------------------------------------------------
  // Delete: the question cascade
  // ---------------------------------------------------------------------

  /** The ids the delete cascade removes from collection `m`: those of the
      entries whose stored type names `m`. */
  function QuestionIds(entries: seq<Json>, m: Model): set<Oid>
    decreases |entries|
  {
    if entries == [] then {}
    else
      var last := entries[|entries| - 1];
      var rest := QuestionIds(entries[..|entries| - 1], m);
      if Field(last, "info").Ref? && DeleteTarget(Field(last, "questionType")) == m
      then rest + {Field(last, "info").id} else rest
  }

  /** The cascade removes exactly the questions the list refers to under
      that collection's model name. */
  lemma {:induction false} QuestionIdsSpec(entries: seq<Json>, m: Model, id: Oid)
    ensures id in QuestionIds(entries, m) <==>
              exists i :: 0 <= i < |entries| && Field(entries[i], "info") == Ref(id)
                          && DeleteTarget(Field(entries[i], "questionType")) == m
    decreases |entries|
  {
    if entries != [] {
      var init := entries[..|entries| - 1];
      QuestionIdsSpec(init, m, id);
      assert forall i :: 0 <= i < |init| ==> init[i] == entries[i];
    }
  }

  /** A question added to a quiz is deleted with it, from the collection it
      was built in. */
  lemma AddedQuestionIsDeleted(entries: seq<Json>, question: Oid, tag: Json)
    ensures question in QuestionIds(entries + [QuestionEntry(question, tag)], DocumentByType(tag))
  {
    var extended := entries + [QuestionEntry(question, tag)];
    assert extended[|extended| - 1] == QuestionEntry(question, tag);
  }

  /** The delete's `forEach` over the question list: each entry's question
      deleted from the collection its stored type names (deleting a missing id
      does nothing). */
  method DeleteQuestions(fib: map<Oid, Doc>, mc: map<Oid, Doc>, entries: seq<Json>)
    returns (fib': map<Oid, Doc>, mc': map<Oid, Doc>)
    ensures fib' == fib - QuestionIds(entries, FillInBlank)
    ensures mc' == mc - QuestionIds(entries, MultipleChoice)
  {
    fib', mc' := fib, mc;
    for i := 0 to |entries|
      invariant fib' == fib - QuestionIds(entries[..i], FillInBlank)
      invariant mc' == mc - QuestionIds(entries[..i], MultipleChoice)
    {
      assert entries[..i + 1][..i] == entries[..i];
      var info := Field(entries[i], "info");
      if info.Ref? {
        if DeleteTarget(Field(entries[i], "questionType")) == FillInBlank {
          fib' := fib' - {info.id};
        } else {
          mc' := mc' - {info.id};
        }
      }
    }
    assert entries[..|entries|] == entries;
  }

  // ---------------------------------------------------------------------
  // Delete: the class quiz lists
  // ---------------------------------------------------------------------

  /** The filter of a class's quiz list as intended: every entry for the
      quiz dropped, every other entry kept, in order. */
  function DropQuiz(entries: seq<Json>, q: Oid): (r: seq<Json>)
    ensures forall e :: e in r <==> e in entries && Field(e, "quiz") != Ref(q)
  {
    if entries == [] then []
    else if Field(entries[0], "quiz") == Ref(q) then DropQuiz(entries[1..], q)
    else [entries[0]] + DropQuiz(entries[1..], q)
  }

  /** Filtering twice is filtering once. */
  lemma {:induction false} DropQuizIdempotent(entries: seq<Json>, q: Oid)
    ensures DropQuiz(DropQuiz(entries, q), q) == DropQuiz(entries, q)
  {
    if entries != [] {
      DropQuizIdempotent(entries[1..], q);
      if Field(entries[0], "quiz") != Ref(q) {
        assert ([entries[0]] + DropQuiz(entries[1..], q))[1..] == DropQuiz(entries[1..], q);
      }
    }
  }

  /** The filter undoes `injectQuizToClass`: the entry it appended is gone
      and the rest of the list is filtered as before. */
  lemma {:induction false} DropQuizUndoesInject(entries: seq<Json>, q: Oid, quizType: Json)
    ensures DropQuiz(entries + [ClassModel.QuizEntry(q, quizType)], q) == DropQuiz(entries, q)
  {
    if entries == [] {
      assert [ClassModel.QuizEntry(q, quizType)][1..] == [];
    } else {
      DropQuizUndoesInject(entries[1..], q, quizType);
      assert (entries + [ClassModel.QuizEntry(q, quizType)])[1..] == entries[1..] + [ClassModel.QuizEntry(q, quizType)];
    }
  }

  /** The filter as written: `quizList.filter(e => e.quiz.str !== quiz._id.str)`. */
  function StrDropQuiz(entries: seq<Json>, quiz: Json): (r: seq<Json>)
    ensures |r| <= |entries|
  {
    if entries == [] then []
    else if Field(Field(entries[0], "quiz"), "str") != Field(quiz, "str") then [entries[0]] + StrDropQuiz(entries[1..], quiz)
    else StrDropQuiz(entries[1..], quiz)
  }

  /** As written, both sides of `!==` are `undefined`, so the filter empties
      the whole quiz list. */
  lemma {:induction false} StrDropQuizEmpties(entries: seq<Json>, q: Oid)
    requires forall i :: 0 <= i < |entries| ==> Field(entries[i], "quiz").Ref?
    ensures StrDropQuiz(entries, Ref(q)) == []
  {
    if entries != [] {
      StrDropQuizEmpties(entries[1..], q);
    }
  }

  /** A class holding quizzes 1 and 2 loses both when quiz 1 is deleted, where
      the intended filter keeps quiz 2. */
  lemma DeleteLosesOtherQuizzes()
    ensures StrDropQuiz([ClassModel.QuizEntry(1, Str("Quiz")), ClassModel.QuizEntry(2, Str("Quiz"))], Ref(1)) == []
    ensures DropQuiz([ClassModel.QuizEntry(1, Str("Quiz")), ClassModel.QuizEntry(2, Str("Quiz"))], 1)
            == [ClassModel.QuizEntry(2, Str("Quiz"))]
  {
    var entries := [ClassModel.QuizEntry(1, Str("Quiz")), ClassModel.QuizEntry(2, Str("Quiz"))];
    StrDropQuizEmpties(entries, 1);
    assert entries[1..][1..] == [];
  }

  /** `updateDocument(classDoc, { quizList: <filtered> })`. */
  function WithoutQuiz(classDoc: Doc, q: Oid): (r: Doc)
    ensures Items(Get(r, "quizList")) == DropQuiz(Items(Get(classDoc, "quizList")), q)
    ensures forall k :: k != "quizList" ==> Get(r, k) == Get(classDoc, k)
  {
    classDoc + map["quizList" := Arr(DropQuiz(Items(Get(classDoc, "quizList")), q))]
  }

  /** Cleaning a class twice is cleaning it once. */
  lemma WithoutQuizIdempotent(classDoc: Doc, q: Oid)
    ensures WithoutQuiz(WithoutQuiz(classDoc, q), q) == WithoutQuiz(classDoc, q)
  {
    DropQuizIdempotent(Items(Get(classDoc, "quizList")), q);
  }

  /** Each of the first `|picks|` ids reached the class `picks` records:
      none exactly when no class has that id. */
  predicate PicksAgree(classes: map<Oid, Doc>, classIds: seq<Json>, picks: seq<Option<Oid>>) {
    |picks| <= |classIds|
    && (forall i :: 0 <= i < |picks| ==> (picks[i].None? <==> !HasMatch(classes, "classId", classIds[i])))
    && (forall i :: 0 <= i < |picks| && picks[i].Some? ==>
          picks[i].value in classes && Get(classes[picks[i].value], "classId") == classIds[i])
  }

  /** The picked classes, and only those, have the quiz dropped. */
  predicate Cleaned(classes: map<Oid, Doc>, r: map<Oid, Doc>, picks: seq<Option<Oid>>, q: Oid) {
    r.Keys == classes.Keys
    && forall c :: c in classes ==> r[c] == if Some(c) in picks then WithoutQuiz(classes[c], q) else classes[c]
  }

  lemma PicksAgreeStep(classes: map<Oid, Doc>, classIds: seq<Json>, picks: seq<Option<Oid>>, found: Option<Oid>)
    requires PicksAgree(classes, classIds, picks) && |picks| < |classIds|
    requires found.None? <==> !HasMatch(classes, "classId", classIds[|picks|])
    requires found.Some? ==> found.value in classes && Get(classes[found.value], "classId") == classIds[|picks|]
    ensures PicksAgree(classes, classIds, picks + [found])
  {
  }

  lemma CleanedStep(classes: map<Oid, Doc>, r: map<Oid, Doc>, picks: seq<Option<Oid>>, q: Oid, found: Option<Oid>)
    requires Cleaned(classes, r, picks, q)
    requires found.Some? ==> found.value in classes
    ensures found.Some? ==> Cleaned(classes, r[found.value := WithoutQuiz(r[found.value], q)], picks + [found], q)
    ensures found.None? ==> Cleaned(classes, r, picks + [found], q)
  {
    forall c | c in classes
      ensures Some(c) in picks + [found] <==> Some(c) in picks || found == Some(c)
    {
    }
    if found.Some? {
      WithoutQuizIdempotent(classes[found.value], q);
    }
  }

  /** Cleaning a class keeps its `classId`, so the lookups see the same ids. */
  lemma CleanedKeepsIds(classes: map<Oid, Doc>, r: map<Oid, Doc>, picks: seq<Option<Oid>>, q: Oid)
    requires Cleaned(classes, r, picks, q)
    ensures forall c :: c in r ==> Get(r[c], "classId") == Get(classes[c], "classId")
  {
  }

  /** The delete's `forEach` over the quiz's class ids, as intended: each id
      looked up with `findOne`, and the class found (if any) cleaned of the
      quiz.  `picks` records which class each id reached. */
  method DropQuizFromClasses(classes: map<Oid, Doc>, classIds: seq<Json>, q: Oid)
    returns (r: map<Oid, Doc>, ghost picks: seq<Option<Oid>>)
    ensures r.Keys == classes.Keys
    ensures |picks| == |classIds|
    ensures forall i :: 0 <= i < |classIds| ==> (picks[i].None? <==> !HasMatch(classes, "classId", classIds[i]))
    ensures forall i :: 0 <= i < |classIds| && picks[i].Some? ==>
              picks[i].value in classes && Get(classes[picks[i].value], "classId") == classIds[i]
    ensures forall c :: c in classes ==> r[c] == if Some(c) in picks then WithoutQuiz(classes[c], q) else classes[c]
  {
    r, picks := classes, [];
    for i := 0 to |classIds|
      invariant |picks| == i
      invariant PicksAgree(classes, classIds, picks)
      invariant Cleaned(classes, r, picks, q)
    {
      CleanedKeepsIds(classes, r, picks, q);
      var found := FindOne(r, "classId", classIds[i]);
      PicksAgreeStep(classes, classIds, picks, found);
      CleanedStep(classes, r, picks, q, found);
      if found.Some? {
        r := r[found.value := WithoutQuiz(r[found.value], q)];
      }
      picks := picks + [found];
    }
  }

  // ---------------------------------------------------------------------
  // The lists
  // ---------------------------------------------------------------------

  /** The quizzes a list handler answers with: for the type `'need-to-do'`
      the candidates without a completion marker, for any other type the
      candidates with one. */
  function Picked(perClass: seq<seq<Listing.Listed>>, user: Doc, tag: Json, listType: Json): seq<Doc> {
    var candidates := Listing.Candidates(perClass, tag);
    var taken := Listing.TakenIds(user);
    Listing.Quizzes(if listType == Str("need-to-do") then Listing.NotTaken(candidates, taken)
                    else Listing.TakenOnly(candidates, taken))
  }

  /** The status a list labels its quizzes with. */
  function StatusOf(listType: Json): string {
    if listType == Str("need-to-do") then "to-do" else "finished"
  }

  /** The collection an entry's stored type names, from which `refPath`
      populates its `info`. */
  function Source(t: Json, fib: map<Oid, Doc>, mc: map<Oid, Doc>): map<Oid, Doc> {
    if DeleteTarget(t) == FillInBlank then fib else mc
  }

  /** One question entry populated: `info` replaced by the question
      document, or by `null` when the question is missing. */
  function PopulateEntry(entry: Json, fib: map<Oid, Doc>, mc: map<Oid, Doc>): Json {
    if entry.Obj?
    then Obj(entry.fields["info" := Populate.PopulateOne(Field(entry, "info"), Source(Field(entry, "questionType"), fib, mc))])
    else entry
  }

  /** `Model.populate(quiz, { path: '<listField>.info' })`. */
  function PopulateQuestions(quiz: Doc, listField: string, fib: map<Oid, Doc>, mc: map<Oid, Doc>): Doc {
    quiz[listField := Arr(MapSeq((e: Json) => PopulateEntry(e, fib, mc), Items(Get(quiz, listField))))]
  }

  /** The serialisers read `question.info.questionImage`, which throws unless
      every entry's `info` is a document. */
  predicate Serialisable(quiz: Doc, listField: string) {
    forall i :: 0 <= i < |Items(Get(quiz, listField))| ==> Field(Items(Get(quiz, listField))[i], "info").Obj?
  }

  /** Every quiz of the list can be populated and serialised. */
  predicate AllSerialisable(quizzes: seq<Doc>, listField: string, fib: map<Oid, Doc>, mc: map<Oid, Doc>) {
    forall i :: 0 <= i < |quizzes| ==> Serialisable(PopulateQuestions(quizzes[i], listField, fib, mc), listField)
  }

  /** `AllSerialisable` grows one quiz at a time... */
  lemma AllSerialisableStep(quizzes: seq<Doc>, i: nat, listField: string, fib: map<Oid, Doc>, mc: map<Oid, Doc>)
    requires i < |quizzes|
    requires AllSerialisable(quizzes[..i], listField, fib, mc)
    requires Serialisable(PopulateQuestions(quizzes[i], listField, fib, mc), listField)
    ensures AllSerialisable(quizzes[..i + 1], listField, fib, mc)
  {
    assert forall j :: 0 <= j < i ==> quizzes[..i + 1][j] == quizzes[..i][j];
  }

  /** ...and fails with any one quiz. */
  lemma AllSerialisableFails(quizzes: seq<Doc>, i: nat, listField: string, fib: map<Oid, Doc>, mc: map<Oid, Doc>)
    requires i < |quizzes|
    requires !Serialisable(PopulateQuestions(quizzes[i], listField, fib, mc), listField)
    ensures !AllSerialisable(quizzes, listField, fib, mc)
  {
  }

  /** A populated quiz can be serialised exactly when every entry refers to a
      question that exists in the collection its stored type names. */
  lemma SerialisableIffResolved(quiz: Doc, listField: string, fib: map<Oid, Doc>, mc: map<Oid, Doc>)
    requires forall i :: 0 <= i < |Items(Get(quiz, listField))| ==> Items(Get(quiz, listField))[i].Obj?
    ensures Serialisable(PopulateQuestions(quiz, listField, fib, mc), listField) <==>
              forall i :: 0 <= i < |Items(Get(quiz, listField))| ==>
                var e := Items(Get(quiz, listField))[i];
                Field(e, "info").Obj? ||
                (Field(e, "info").Ref? && Field(e, "info").id in Source(Field(e, "questionType"), fib, mc))
  {
    var entries := Items(Get(quiz, listField));
    var populated := MapSeq((e: Json) => PopulateEntry(e, fib, mc), entries);
    MapSeqSpec((e: Json) => PopulateEntry(e, fib, mc), entries);
    assert Items(Get(PopulateQuestions(quiz, listField, fib, mc), listField)) == populated;
    assert forall i :: 0 <= i < |entries| ==> populated[i] == PopulateEntry(entries[i], fib, mc);
  }
}
