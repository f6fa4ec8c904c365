/** The class routes of src/routers/class.js: enrolling and removing a student
    (both sides of the user/class relation), the guarded class patch, and the
    class delete with its cascades over the former students and quizzes. */
module ClassRouter {
  import opened Json
  import opened Store
  import UserModel
  import ClassModel
  import Logic
  import Populate

  // ---------------------------------------------------------------------
  // getQuizByType
  // ---------------------------------------------------------------------

  const PicQuizTag: Json := Str("PicQuizz")

  /** `getQuizByType(quizType, { _id })`: only the picture-quiz tag is looked
      up, by id among the picture quizzes; every other tag yields `undefined`. */
  function QuizByType(picQuizzes: map<Oid, Doc>, quizType: Json, quiz: Json): (r: Option<Oid>)
    ensures r.Some? <==> quizType == PicQuizTag && quiz.Ref? && quiz.id in picQuizzes
    ensures r.Some? ==> quiz == Ref(r.value)
  {
    if quizType == PicQuizTag && quiz.Ref? && quiz.id in picQuizzes then Some(quiz.id) else None
  }

  /** No tag the class schema accepts is the one `getQuizByType` resolves, so
      no entry of a validated `quizList` leads to a quiz. */
  lemma ValidTagResolvesNothing(picQuizzes: map<Oid, Doc>, quizType: Json, quiz: Json)
    requires ClassModel.ClassQuizTypeValid(quizType)
    ensures QuizByType(picQuizzes, quizType, quiz).None?
  {
    ClassModel.RouterTagsOutsideClassEnum();
  }

  // ---------------------------------------------------------------------
  // POST /api/class/:classId/add-student/:account
  // POST /api/class/:classId/remove-student/:account
  // ---------------------------------------------------------------------

  /** The two documents an enrolment route touched. */
  datatype Enrolment = Enrolment(cls: Oid, student: Oid)

  /** `POST /api/class/:classId/add-student/:account`: the class goes onto the
      student's `classes` and the student onto the class's `studentList`, with
      no check for an existing entry; a missing class or account is a 404 and
      nothing changes. */
  method AddStudent(db: Db, classId: Json, account: Json) returns (r: Reply<Enrolment>)
    modifies db`users, db`classes
    ensures r.Ok? || r.NotFound?
    ensures r.NotFound? <==> !HasMatch(old(db.classes), "classId", classId) || !HasMatch(old(db.users), "account", account)
    ensures r.NotFound? ==> unchanged(db)
    ensures r.Ok? ==> r.value.cls in old(db.classes) && Get(old(db.classes)[r.value.cls], "classId") == classId
                      && r.value.student in old(db.users) && Get(old(db.users)[r.value.student], "account") == account
    ensures r.Ok? ==> db.users == old(db.users)[r.value.student :=
                        Append(old(db.users)[r.value.student], "classes", Ref(r.value.cls))]
    ensures r.Ok? ==> db.classes == old(db.classes)[r.value.cls :=
                        Append(old(db.classes)[r.value.cls], "studentList", Ref(r.value.student))]
  {
    var c := FindOne(db.classes, "classId", classId);
    var s := FindOne(db.users, "account", account);
    if c.None? || s.None? {
      return NotFound;
    }
    db.users := db.users[s.value := Append(db.users[s.value], "classes", Ref(c.value))];
    db.classes := db.classes[c.value := Append(db.classes[c.value], "studentList", Ref(s.value))];
    r := Ok(Enrolment(c.value, s.value));
  }

  /** Appending `x` adds exactly one more occurrence of it. */
  lemma {:induction false} CountAppend(xs: seq<Json>, x: Json)
    ensures Count(xs + [x], x) == Count(xs, x) + 1
  {
    if xs == [] {
      assert [x][1..] == [];
    } else {
      assert (xs + [x])[1..] == xs[1..] + [x];
      CountAppend(xs[1..], x);
    }
  }

  /** Enrolling the same student in the same class again duplicates both
      entries: each list holds one more reference than before. */
  lemma EnrolAgainDuplicates(student: Doc, classDoc: Doc, c: Oid, s: Oid)
    ensures Count(Items(Get(Append(student, "classes", Ref(c)), "classes")), Ref(c))
            == Count(Items(Get(student, "classes")), Ref(c)) + 1
    ensures Count(Items(Get(Append(classDoc, "studentList", Ref(s)), "studentList")), Ref(s))
            == Count(Items(Get(classDoc, "studentList")), Ref(s)) + 1
  {
    CountAppend(Items(Get(student, "classes")), Ref(c));
    CountAppend(Items(Get(classDoc, "studentList")), Ref(s));
  }

  /** `curClass.str !== classDoc._id.str` (and the same on students) as
      written: an ObjectId has no `str` property, so for ids both sides read
      `undefined` and the test is false. */
  function StrFilter(xs: seq<Json>, target: Json): (r: seq<Json>)
    ensures forall y :: y in r <==> y in xs && Field(y, "str") != Field(target, "str")
  {
    if xs == [] then []
    else if Field(xs[0], "str") != Field(target, "str") then [xs[0]] + StrFilter(xs[1..], target)
    else StrFilter(xs[1..], target)
  }

  /** On a list of ids the filter as written keeps nothing. */
  lemma {:induction false} StrFilterEmptiesIdLists(xs: seq<Json>, target: Json)
    requires target.Ref?
    requires forall i :: 0 <= i < |xs| ==> xs[i].Ref?
    ensures StrFilter(xs, target) == []
  {
    if xs != [] {
      StrFilterEmptiesIdLists(xs[1..], target);
    }
  }

  /** A student of two classes removed from one of them: the filter as
      written leaves no class at all, the id comparison keeps the other. */
  lemma RemoveFromOneOfTwoClasses()
    ensures StrFilter([Ref(1), Ref(2)], Ref(1)) == []
    ensures Without([Ref(1), Ref(2)], Ref(1)) == [Ref(2)]
  {
    StrFilterEmptiesIdLists([Ref(1), Ref(2)], Ref(1));
    assert [Ref(1), Ref(2)][1..] == [Ref(2)];
    assert [Ref(2)][1..] == [];
  }

  /** `POST /api/class/:classId/remove-student/:account`, with the ids
      compared as ids: the class leaves the student's `classes` and the
      student leaves the class's `studentList`; a missing class or account is
      a 404 and nothing changes. */
  method RemoveStudent(db: Db, classId: Json, account: Json) returns (r: Reply<Enrolment>)
    modifies db`users, db`classes
    ensures r.Ok? || r.NotFound?
    ensures r.NotFound? <==> !HasMatch(old(db.classes), "classId", classId) || !HasMatch(old(db.users), "account", account)
    ensures r.NotFound? ==> unchanged(db)
    ensures r.Ok? ==> r.value.cls in old(db.classes) && Get(old(db.classes)[r.value.cls], "classId") == classId
                      && r.value.student in old(db.users) && Get(old(db.users)[r.value.student], "account") == account
    ensures r.Ok? ==> db.users == old(db.users)[r.value.student :=
                        WithoutRef(old(db.users)[r.value.student], "classes", r.value.cls)]
    ensures r.Ok? ==> db.classes == old(db.classes)[r.value.cls :=
                        WithoutRef(old(db.classes)[r.value.cls], "studentList", r.value.student)]
  {
    var c := FindOne(db.classes, "classId", classId);
    var s := FindOne(db.users, "account", account);
    if c.None? || s.None? {
      return NotFound;
    }
    db.users := db.users[s.value := WithoutRef(db.users[s.value], "classes", c.value)];
    db.classes := db.classes[c.value := WithoutRef(db.classes[c.value], "studentList", s.value)];
    r := Ok(Enrolment(c.value, s.value));
  }

  /** A document with every reference to `id` filtered out of its array
      field `k`: a user's `classes`, a class's `studentList`. */
  function WithoutRef(d: Doc, k: string, id: Oid): (r: Doc)
    ensures Ref(id) !in Items(Get(r, k))
    ensures forall y :: y != Ref(id) ==> (y in Items(Get(r, k)) <==> y in Items(Get(d, k)))
    ensures forall f :: f != k ==> Get(r, f) == Get(d, f)
  {
    d[k := Arr(Without(Items(Get(d, k)), Ref(id)))]
  }

  /** Removing a student right after enrolling them restores both lists as
      far as the pair is concerned: the removal takes out the entry the
      enrolment added together with any earlier ones. */
  lemma RemoveUndoesAdd(student: Doc, classDoc: Doc, c: Oid, s: Oid)
    ensures WithoutRef(Append(student, "classes", Ref(c)), "classes", c) == WithoutRef(student, "classes", c)
    ensures WithoutRef(Append(classDoc, "studentList", Ref(s)), "studentList", s) == WithoutRef(classDoc, "studentList", s)
  {
    WithoutAppend(Items(Get(student, "classes")), Ref(c));
    WithoutAppend(Items(Get(classDoc, "studentList")), Ref(s));
  }

  /** Removing twice is removing once. */
  lemma WithoutRefIdempotent(d: Doc, k: string, id: Oid)
    ensures WithoutRef(WithoutRef(d, k, id), k, id) == WithoutRef(d, k, id)
  {
    WithoutIdempotent(Items(Get(d, k)), Ref(id));
  }

  // ---------------------------------------------------------------------
  // PATCH /api/class/:classId
  // ---------------------------------------------------------------------

  /** `PATCH /api/class/:classId`: a body naming `classId` is refused; a
      missing class makes `updateDocument` throw; a patch the class schema
      rejects is not saved; otherwise the class gets every declared body
      field, and so keeps its `classId`. */
  method PatchClass(db: Db, u: Oid, classId: Json, body: Doc) returns (r: Reply<Oid>)
    requires u in db.users
    modifies db`classes
    ensures r.Rejected? <==> !UserModel.IsAdmin(db.users[u]) || "classId" in body
    ensures !r.Rejected? && !HasMatch(old(db.classes), "classId", classId) ==> r.Fails?
    ensures r.Fails? && HasMatch(old(db.classes), "classId", classId) ==>
              exists c :: c in old(db.classes) && Get(old(db.classes)[c], "classId") == classId
                          && !ClassModel.Valid(old(db.classes)[c] + Populate.Project(body, ClassModel.Paths))
    ensures !r.NotFound?
    ensures !r.Ok? ==> db.classes == old(db.classes)
    ensures r.Ok? ==> r.value in old(db.classes) && Get(old(db.classes)[r.value], "classId") == classId
                      && db.classes == old(db.classes)[r.value := old(db.classes)[r.value]
                                                         + Populate.Project(body, ClassModel.Paths)]
    ensures r.Ok? ==> Get(db.classes[r.value], "classId") == classId && ClassModel.Valid(db.classes[r.value])
  {
    if !UserModel.IsAdmin(db.users[u]) {
      return Rejected;
    }
    var found := FindOne(db.classes, "classId", classId);
    if "classId" in body {
      return Rejected;
    }
    if found.None? {
      return Fails;
    }
    var updated := Logic.UpdateDocument(db.classes[found.value], body, ClassModel.Paths, ClassModel.Valid);
    if updated.None? {
      return Fails;
    }
    db.classes := db.classes[found.value := updated.value];
    r := Ok(found.value);
  }

  // ---------------------------------------------------------------------
  // DELETE /api/class/:classId
  // ---------------------------------------------------------------------

  /** The students' cascade of the class delete, with the ids compared as
      ids: every listed student that still exists loses class `c` from
      `classes`; a student listed twice is filtered twice, to the same
      effect. */
  method DropClassFromStudents(users: map<Oid, Doc>, students: seq<Json>, c: Oid) returns (r: map<Oid, Doc>)
    ensures r.Keys == users.Keys
    ensures forall id :: id in users ==> r[id] == if Ref(id) in students then WithoutRef(users[id], "classes", c) else users[id]
  {
    r := users;
    var i := 0;
    while i < |students|
      invariant i <= |students|
      invariant r.Keys == users.Keys
      invariant forall id :: id in users ==>
                  r[id] == if Ref(id) in students[..i] then WithoutRef(users[id], "classes", c) else users[id]
    {
      assert students[..i + 1] == students[..i] + [students[i]];
      var student := students[i];
      if student.Ref? && student.id in r {
        WithoutRefIdempotent(users[student.id], "classes", c);
        r := r[student.id := WithoutRef(r[student.id], "classes", c)];
      }
      i := i + 1;
    }
    assert students[..i] == students;
  }

  /** The `quiz` of every `quizList` entry carrying the picture-quiz tag, in
      order: the only entries `getQuizByType` can resolve. */
  function PicQuizRefs(quizList: seq<Json>): seq<Json>
    decreases |quizList|
  {
    if quizList == [] then []
    else
      var e := quizList[|quizList| - 1];
      PicQuizRefs(quizList[..|quizList| - 1]) + (if Field(e, "quizType") == PicQuizTag then [Field(e, "quiz")] else [])
  }

  /** A `quizList` that passed the class schema's enum leads to no quiz. */
  lemma {:induction false} ValidQuizListTouchesNoQuiz(quizList: seq<Json>)
    requires forall i :: 0 <= i < |quizList| ==> ClassModel.ClassQuizTypeValid(Field(quizList[i], "quizType"))
    ensures PicQuizRefs(quizList) == []
    decreases |quizList|
  {
    if quizList != [] {
      ClassModel.RouterTagsOutsideClassEnum();
      ValidQuizListTouchesNoQuiz(quizList[..|quizList| - 1]);
    }
  }

  /** A picture quiz with the class id filtered out of its `classes`. */
  function WithoutClassId(quiz: Doc, classId: Json): (r: Doc)
    ensures classId !in Items(Get(r, "classes"))
    ensures forall y :: y != classId ==> (y in Items(Get(r, "classes")) <==> y in Items(Get(quiz, "classes")))
    ensures forall k :: k != "classes" ==> Get(r, k) == Get(quiz, k)
  {
    quiz["classes" := Arr(Without(Items(Get(quiz, "classes")), classId))]
  }

  lemma WithoutClassIdIdempotent(quiz: Doc, classId: Json)
    ensures WithoutClassId(WithoutClassId(quiz, classId), classId) == WithoutClassId(quiz, classId)
  {
    WithoutIdempotent(Items(Get(quiz, "classes")), classId);
  }

  /** The quizzes' cascade of the class delete: every entry resolved by
      `getQuizByType` loses the class id from its `classes`. */
  method DropClassFromPicQuizzes(quizzes: map<Oid, Doc>, quizList: seq<Json>, classId: Json) returns (r: map<Oid, Doc>)
    ensures r.Keys == quizzes.Keys
    ensures forall id :: id in quizzes ==>
              r[id] == if Ref(id) in PicQuizRefs(quizList) then WithoutClassId(quizzes[id], classId) else quizzes[id]
  {
    r := quizzes;
    ghost var refs: seq<Json> := [];
    var i := 0;
    while i < |quizList|
      invariant i <= |quizList|
      invariant refs == PicQuizRefs(quizList[..i])
      invariant r.Keys == quizzes.Keys
      invariant forall id :: id in quizzes ==>
                  r[id] == if Ref(id) in refs then WithoutClassId(quizzes[id], classId) else quizzes[id]
    {
      var entry := quizList[i];
      assert quizList[..i + 1] == quizList[..i] + [entry];
      var quiz := QuizByType(r, Field(entry, "quizType"), Field(entry, "quiz"));
      if quiz.Some? {
        WithoutClassIdIdempotent(quizzes[quiz.value], classId);
        r := r[quiz.value := WithoutClassId(r[quiz.value], classId)];
      }
      refs := refs + (if Field(entry, "quizType") == PicQuizTag then [Field(entry, "quiz")] else []);
      i := i + 1;
    }
    assert quizList[..i] == quizList;
  }

  /** `DELETE /api/class/:classId`: the class is removed first (404 when
      there is none), then every listed student loses the class and every
      listed picture quiz loses the class id. */
  method DeleteClass(db: Db, u: Oid, classId: Json) returns (r: Reply<Oid>)
    requires u in db.users
    modifies db`classes, db`users, db`picQuizzes
    ensures r.Ok? || r.NotFound? || r.Rejected?
    ensures r.Rejected? <==> !UserModel.IsAdmin(old(db.users)[u])
    ensures r.NotFound? <==> UserModel.IsAdmin(old(db.users)[u]) && !HasMatch(old(db.classes), "classId", classId)
    ensures !r.Ok? ==> unchanged(db)
    ensures r.Ok? ==> r.value in old(db.classes) && Get(old(db.classes)[r.value], "classId") == classId
                      && db.classes == old(db.classes) - {r.value}
    ensures r.Ok? ==>
              var students := Items(Get(old(db.classes)[r.value], "studentList"));
              db.users.Keys == old(db.users).Keys
              && forall id :: id in old(db.users) ==>
                   db.users[id] == if Ref(id) in students then WithoutRef(old(db.users)[id], "classes", r.value) else old(db.users)[id]
    ensures r.Ok? ==>
              var quizList := Items(Get(old(db.classes)[r.value], "quizList"));
              db.picQuizzes.Keys == old(db.picQuizzes).Keys
              && forall id :: id in old(db.picQuizzes) ==>
                   db.picQuizzes[id] == if Ref(id) in PicQuizRefs(quizList)
                                        then WithoutClassId(old(db.picQuizzes)[id], classId)
                                        else old(db.picQuizzes)[id]
  {
    if !UserModel.IsAdmin(db.users[u]) {
      return Rejected;
    }
    var found := FindOne(db.classes, "classId", classId);
    if found.None? {
      return NotFound;
    }
    var c := found.value;
    var classDoc := db.classes[c];
    db.classes := db.classes - {c};
    var users := DropClassFromStudents(db.users, Items(Get(classDoc, "studentList")), c);
    db.users := users;
    var quizzes := DropClassFromPicQuizzes(db.picQuizzes, Items(Get(classDoc, "quizList")), Get(classDoc, "classId"));
    db.picQuizzes := quizzes;
    r := Ok(c);
  }
}
