/** The shared document helpers of src/routers/logic/logic.js, and the helpers
    the routers call on `logic` that the file does not define (`createQuiz`,
    `injectStudentworkToQuiz`), taken as their call sites use them. */
module Logic {
  import opened Json
  import opened Store
  import UserModel
  import ClassModel
  import Populate

  /** The `forEach` of `updateDocument`: each key of `updates` assigned to
      the document, where strict mode drops every key that is not one of the
      schema's `paths`. */
  method Assign(doc: Doc, updates: Doc, paths: set<string>) returns (r: Doc)
    ensures forall k :: k in updates && k in paths ==> k in r && r[k] == updates[k]
    ensures forall k :: k !in updates || k !in paths ==> (k in r <==> k in doc) && (k in doc ==> r[k] == doc[k])
    ensures r == doc + Populate.Project(updates, paths)
  {
    r := doc;
    var rest := updates.Keys;
    while rest != {}
      invariant rest <= updates.Keys
      invariant forall k :: k in updates && k in paths && k !in rest ==> k in r && r[k] == updates[k]
      invariant forall k :: (k !in updates || k !in paths || k in rest) ==>
                  (k in r <==> k in doc) && (k in doc ==> r[k] == doc[k])
      decreases rest
    {
      var k :| k in rest;
      if k in paths {
        r := r[k := updates[k]];
      }
      rest := rest - {k};
    }
  }

  /** `updateDocument`: the assignments, then `save`, which stores the
      result only when the schema's validators (`valid`) accept the whole
      document. */
  method UpdateDocument(doc: Doc, updates: Doc, paths: set<string>, valid: Doc -> bool) returns (r: Option<Doc>)
    ensures r.Some? <==> valid(doc + Populate.Project(updates, paths))
    ensures r.Some? ==> r.value == doc + Populate.Project(updates, paths)
  {
    var updated := Assign(doc, updates, paths);
    r := if valid(updated) then Some(updated) else None;
  }

  /** `createDocument(Model, data)`: a new document with a fresh id, built from
      the schema's `paths` of `data` over the model's `defaults`; nothing else
      in the collection changes. The `save` validation is checked by the
      callers whose schema has validators (`QuizCommon.SaveQuestion`,
      `ScribblyRouter.CreateQuiz`); the work schemas have none. */
  method CreateDocument(m: map<Oid, Doc>, defaults: Doc, data: Doc, paths: set<string>)
    returns (id: Oid, r: map<Oid, Doc>)
    ensures id !in m
    ensures r == m[id := defaults + Populate.Project(data, paths)]
    ensures forall k :: k in data && k in paths ==> Get(r[id], k) == data[k]
    ensures forall k :: k !in data || k !in paths ==> Get(r[id], k) == Get(defaults, k)
  {
    id := FreshId(m);
    r := m[id := defaults + Populate.Project(data, paths)];
  }

  /** `injectStudentworkToQuiz` (not defined in logic.js): appends the work to
      the quiz's `studentWorks`. */
  function AttachWork(quiz: Doc, work: Oid): (r: Doc)
    ensures Items(Get(r, "studentWorks")) == Items(Get(quiz, "studentWorks")) + [Ref(work)]
    ensures forall k :: k != "studentWorks" ==> Get(r, k) == Get(quiz, k)
  {
    Append(quiz, "studentWorks", Ref(work))
  }

  /** References to the given documents, in order. */
  function Refs(ids: seq<Oid>): (r: seq<Json>)
    ensures |r| == |ids|
    ensures forall i :: 0 <= i < |ids| ==> r[i] == Ref(ids[i])
  {
    seq(|ids|, i requires 0 <= i < |ids| => Ref(ids[i]))
  }

  /** A `takenQuizzes` entry `{ quiz, quizType }` with its schema default score. */
  function TakenEntry(quiz: Oid, quizType: Json): Json {
    Obj(map["quiz" := Ref(quiz), "quizType" := quizType, "score" := Num(0)])
  }

  /** The completion marker written into a user document. */
  function RecordTaken(user: Doc, quiz: Oid, quizType: Json): Doc {
    Append(user, "takenQuizzes", TakenEntry(quiz, quizType))
  }

  /** The number of completion markers a user holds for `quiz`. */
  function MarkerCount(entries: seq<Json>, quiz: Oid): nat {
    if entries == [] then 0
    else (if Field(entries[0], "quiz") == Ref(quiz) then 1 else 0) + MarkerCount(entries[1..], quiz)
  }

  lemma {:induction false} MarkerCountAppend(entries: seq<Json>, e: Json, quiz: Oid)
    ensures MarkerCount(entries + [e], quiz) == MarkerCount(entries, quiz) + (if Field(e, "quiz") == Ref(quiz) then 1 else 0)
  {
    if entries == [] {
      assert [e][1..] == [];
    } else {
      assert (entries + [e])[1..] == entries[1..] + [e];
      MarkerCountAppend(entries[1..], e, quiz);
    }
  }

  /** There is no check for an existing marker: every recording adds one more
      marker for the quiz, so submitting twice leaves two. */
  lemma RecordTakenAddsMarker(user: Doc, quiz: Oid, quizType: Json)
    ensures MarkerCount(Items(Get(RecordTaken(user, quiz, quizType), "takenQuizzes")), quiz)
            == MarkerCount(Items(Get(user, "takenQuizzes")), quiz) + 1
  {
    MarkerCountAppend(Items(Get(user, "takenQuizzes")), TakenEntry(quiz, quizType), quiz);
  }

  /** `injectQuizToUser` as the evident intent has it: the marker goes into the
      schema's `takenQuizzes`, whose enum the save enforces. */
  method InjectQuizToUser(db: Db, quiz: Oid, quizDoc: Doc, u: Oid) returns (r: Reply<()>)
    requires u in db.users
    modifies db`users
    ensures r.Ok? <==> UserModel.TakenQuizTypeValid(Get(quizDoc, "quizType"))
    ensures r.Ok? || r.Fails?
    ensures r.Ok? ==> db.users == old(db.users)[u := RecordTaken(old(db.users[u]), quiz, Get(quizDoc, "quizType"))]
    ensures r.Fails? ==> db.users == old(db.users)
  {
    var quizType := Get(quizDoc, "quizType");
    if !UserModel.TakenQuizTypeValid(quizType) {
      return Fails;
    }
    db.users := db.users[u := RecordTaken(db.users[u], quiz, quizType)];
    r := Ok(());
  }

  /** The entry `injectQuizToUser` pushes as written: `{ quiz, quizType }`. */
  function QuizzesEntry(quiz: Oid, quizType: Json): Json {
    Obj(map["quiz" := Ref(quiz), "quizType" := quizType])
  }

  /** `injectQuizToUser` as written: the entry is pushed onto
      `userDoc.quizzes`, which throws unless the document holds an array
      there; a throw saves nothing. */
  method InjectQuizToUserAsWritten(db: Db, quiz: Oid, quizDoc: Doc, u: Oid) returns (r: Reply<()>)
    requires u in db.users
    modifies db`users
    ensures r.Ok? || r.Fails?
    ensures r.Ok? <==> Get(old(db.users[u]), "quizzes").Arr?
    ensures r.Ok? ==> db.users == old(db.users)[u := Append(old(db.users[u]), "quizzes",
                                                QuizzesEntry(quiz, Get(quizDoc, "quizType")))]
    ensures r.Fails? ==> db.users == old(db.users)
  {
    if !Get(db.users[u], "quizzes").Arr? {
      return Fails;
    }
    db.users := db.users[u := Append(db.users[u], "quizzes", QuizzesEntry(quiz, Get(quizDoc, "quizType")))];
    r := Ok(());
  }

  /** The user schema declares no `quizzes`, so no user document strict mode
      lets through holds one, and the push as written throws for every user,
      every new user among them. */
  lemma {:induction false} UsersHaveNoQuizzes(user: Doc, data: Doc)
    requires forall k :: k in user ==> k in UserModel.Paths
    ensures !Get(user, "quizzes").Arr?
    ensures !Get(UserModel.NewUser(data), "quizzes").Arr?
  {
    assert "quizzes" !in UserModel.Paths;
  }

  /** `injectQuizToClass`: one tagged entry appended to `quizList`; the save
      validates the class enum, and a rejected save changes nothing. */
  method InjectQuizToClass(db: Db, quiz: Oid, quizDoc: Doc, c: Oid) returns (r: Reply<()>)
    requires c in db.classes
    modifies db`classes
    ensures r.Ok? <==> ClassModel.ClassQuizTypeValid(Get(quizDoc, "quizType"))
    ensures r.Ok? || r.Fails?
    ensures r.Ok? ==> db.classes == old(db.classes)[c := Append(old(db.classes[c]), "quizList",
                                                   ClassModel.QuizEntry(quiz, Get(quizDoc, "quizType")))]
    ensures r.Fails? ==> db.classes == old(db.classes)
  {
    var quizType := Get(quizDoc, "quizType");
    if !ClassModel.ClassQuizTypeValid(quizType) {
      return Fails;
    }
    db.classes := db.classes[c := Append(db.classes[c], "quizList", ClassModel.QuizEntry(quiz, quizType))];
    r := Ok(());
  }

  /** `injectUserToClass`: the user joins `studentList`; the user's own
      `classes` is not touched. */
  method InjectUserToClass(db: Db, u: Oid, c: Oid)
    requires c in db.classes
    modifies db`classes
    ensures db.classes == old(db.classes)[c := Append(old(db.classes[c]), "studentList", Ref(u))]
  {
    db.classes := db.classes[c := Append(db.classes[c], "studentList", Ref(u))];
  }

  /** `injectParticipantToQuiz`: the participant record is pushed onto the
      in-memory quiz (when it has a `participants` list) and the save of the
      undeclared `classDoc` then throws, so the call always fails and the
      pushed record is never saved. */
  function InjectParticipantToQuiz(quizDoc: Doc, u: Oid, score: Json, takenDate: Json, duration: Json)
    : (r: (Doc, Reply<()>))
    ensures r.1 == Fails
    ensures Get(quizDoc, "participants").Arr? ==>
              Items(Get(r.0, "participants")) == Items(Get(quizDoc, "participants"))
                + [Obj(map["participant" := Ref(u), "score" := score, "takenDate" := takenDate, "duration" := duration])]
    ensures !Get(quizDoc, "participants").Arr? ==> r.0 == quizDoc
  {
    if Get(quizDoc, "participants").Arr? then
      (Append(quizDoc, "participants",
              Obj(map["participant" := Ref(u), "score" := score, "takenDate" := takenDate, "duration" := duration])),
       Fails)
    else (quizDoc, Fails)
  }
}
